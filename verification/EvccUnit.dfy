/** The battery-mode state of one unit (internal/coordinator/evcc.go) and its
    whole history: reports, commands, writes that fail. */
module EvccUnit {
  import opened Sequences
  import opened Evcc

  /** saved is None for Go's nil map. */
  datatype State = State(props: Props, mode: Mode, saved: Option<Settings>, lastCmd: int)

  const INITIAL := State(map[], Normal, None, 0)

  datatype Error = NoReport | WriteFailed

  /** What a command did: the new state, what was sent to the unit, the error. */
  datatype Outcome = Outcome(state: State, write: Option<Settings>, error: Option<Error>)

  ghost function Merged(s: State, report: Props): State {
    s.(props := s.props + report)
  }

  /** The settings a command is after, and the state once they are known. */
  ghost function Wanted(s: State, mode: Mode, chargeW: int): Settings {
    if mode == Normal then (if s.saved.Some? then s.saved.value else map[])
    else Target(mode, s.props, chargeW)
  }

  /** The settings to save, or already saved, when a command comes in. */
  ghost function Saving(s: State, mode: Mode): State {
    if mode != Normal && s.saved.None? then s.(saved := Some(SnapshotOf(s.props))) else s
  }

  /** A battery-mode command at a time; accepted is what the unit would answer
      to a write. */
  ghost function Commanded(s: State, mode: Mode, at: int, chargeW: int, accepted: bool): Outcome {
    var s := s.(lastCmd := at);
    if mode != Normal && s.props == map[] then Outcome(s, None, Some(NoReport))
    else
      var s := Saving(s, mode);
      var diff := DiffOf(Wanted(s, mode, chargeW), s.props);
      var write := if diff == map[] then None else Some(diff);
      if write.Some? && !accepted then Outcome(s, write, Some(WriteFailed))
      else
        Outcome(s.(props := Written(s.props, diff), mode := mode, saved := if mode == Normal then None else s.saved),
                write, None)
  }

  // ------------------------------------------------------------------ the unit

  class Unit {
    var props: Props
    var mode: Mode
    var saved: Option<Settings>
    var lastCmd: int

    function View(): State
      reads this
    {
      State(props, mode, saved, lastCmd)
    }

    constructor ()
      ensures View() == INITIAL
    {
      props, mode, saved, lastCmd := map[], Normal, None, 0;
    }

    /** The section of publishEVCC under the lock. A report may carry only what
        changed; the rest stays known, and what is derived is derived from all. */
    method Merge(report: Option<Props>) returns (values: seq<Value>, current: Mode)
      modifies this
      ensures View() == if report.Some? then Merged(old(View()), report.value) else old(View())
      ensures values == Derive(props) && current == mode
    {
      if report.Some? {
        props := props + report.value;
      }
      values, current := Derive(props), mode;
    }

    /** applyBatteryMode, the section under the lock. */
    method ApplyBatteryMode(to: Mode, at: int, chargeW: int, accepted: bool)
      returns (write: Option<Settings>, error: Option<Error>)
      modifies this
      ensures Outcome(View(), write, error) == Commanded(old(View()), to, at, chargeW, accepted)
    {
      write, error := None, None;
      lastCmd := at;
      var want: Settings := map[];
      if to == Normal && saved.None? {
      } else if to == Normal {
        want := saved.value;
      } else {
        if props == map[] {
          error := Some(NoReport);
          return;
        }
        if saved.None? {
          var snapshot := Snapshot(props);
          saved := Some(snapshot);
        }
        want := Target(to, props, chargeW);
      }
      write := Diff(want, props);
      if write.Some? {
        if !accepted {
          error := Some(WriteFailed);
          return;
        }
        props := Written(props, write.value);
      } else {
        assert Written(props, DiffOf(want, props)) == props;
      }
      mode := to;
      if to == Normal {
        saved := None;
      }
    }
  }

  // -------------------------------------------------------- invariants and laws

  ghost predicate OnlyControlled(settings: Settings) {
    forall k :: k in settings ==> k in CONTROLLED
  }

  /** Out of normal there is something to go back to, and only controlled
      properties are ever saved. */
  ghost predicate Good(s: State) {
    && (s.mode != Normal ==> s.saved.Some?)
    && (s.saved.Some? ==> OnlyControlled(s.saved.value))
  }

  lemma {:induction false} TargetControlled(mode: Mode, props: Props, chargeW: int)
    ensures OnlyControlled(Target(mode, props, chargeW))
    ensures OnlyControlled(SnapshotOf(props))
  {
    assert AC_MODE == CONTROLLED[0] && INPUT_LIMIT == CONTROLLED[1];
    assert OUTPUT_LIMIT == CONTROLLED[2] && SMART_MODE == CONTROLLED[3];
  }

  /** Every command keeps the invariant, writes controlled properties only, and
      so leaves the derived values to the reports. A `normal` that has nothing to
      restore finds the unit in normal. */
  lemma {:induction false} CommandKeepsGood(s: State, mode: Mode, at: int, chargeW: int, accepted: bool)
    requires Good(s)
    ensures var o := Commanded(s, mode, at, chargeW, accepted);
      && Good(o.state)
      && (o.write.Some? ==> OnlyControlled(o.write.value))
      && Derive(o.state.props) == Derive(s.props)
    ensures mode == Normal && s.saved.None? ==> s.mode == Normal
  {
    TargetControlled(mode, s.props, chargeW);
    var o := Commanded(s, mode, at, chargeW, accepted);
    if o.error.None? {
      var before := Saving(s, mode);
      ControlledWritesAreInvisible(s.props, DiffOf(Wanted(before, mode, chargeW), s.props), mode, chargeW);
    }
  }

  /** What a successful command leaves: its settings in place, nothing else moved. */
  lemma {:induction false} SuccessSettles(s: State, mode: Mode, at: int, chargeW: int, accepted: bool)
    requires Good(s)
    requires Commanded(s, mode, at, chargeW, accepted).error.None?
    ensures var once := Commanded(s, mode, at, chargeW, accepted).state;
      var want := Wanted(Saving(s, mode), mode, chargeW);
      && once.props == Written(s.props, DiffOf(want, s.props))
      && OnlyControlled(want)
      && once.mode == mode
      && once.saved == (if mode == Normal then None else Saving(s, mode).saved)
      && (forall k :: k in want ==> Reports(once.props, k, want[k]))
      && (forall k :: k !in want ==>
        (k in once.props <==> k in s.props) && (k in s.props ==> once.props[k] == s.props[k]))
  {
    TargetControlled(mode, s.props, chargeW);
    DiffApplies(Wanted(Saving(s, mode), mode, chargeW), s.props);
    hide SnapshotOf, Target, DiffOf, Written, Reports;
  }

  /** A command whose settings are all in place writes nothing. */
  lemma {:induction false} NothingToWrite(s: State, mode: Mode, at: int, chargeW: int, accepted: bool)
    requires mode == Normal ==> s.saved.None? && s.mode == Normal
    requires mode != Normal ==> s.saved.Some? && s.mode == mode && s.props != map[]
    requires DiffOf(Wanted(s, mode, chargeW), s.props) == map[]
    ensures Commanded(s, mode, at, chargeW, accepted) == Outcome(s.(lastCmd := at), None, None)
  {
    assert Written(s.props, map[]) == s.props;
    hide DiffOf, Written, Target, SnapshotOf;
  }

  /** Re-sending the mode just applied, with no report in between, writes nothing
      and changes nothing but the time of the last command. */
  lemma {:induction false} ResendCostsNothing(
      s: State, mode: Mode, at: int, again: int, chargeW: int, accepted: bool, accepted': bool)
    requires Good(s)
    requires Commanded(s, mode, at, chargeW, accepted).error.None?
    ensures var once := Commanded(s, mode, at, chargeW, accepted).state;
      Commanded(once, mode, again, chargeW, accepted') == Outcome(once.(lastCmd := again), None, None)
  {
    var once := Commanded(s, mode, at, chargeW, accepted).state;
    var want := Wanted(Saving(s, mode), mode, chargeW);
    SuccessSettles(s, mode, at, chargeW, accepted);
    ControlledWritesAreInvisible(s.props, DiffOf(want, s.props), mode, chargeW);
    if mode == Normal {
      assert DiffOf(map[], once.props) == map[];
    } else {
      assert Wanted(once, mode, chargeW) == want;
      assert DiffOf(want, once.props) == map[];
      NotEmptied(s.props, DiffOf(want, s.props));
    }
    NothingToWrite(once, mode, again, chargeW, accepted');
  }

  lemma {:induction false} NotEmptied(props: Props, write: Settings)
    requires props != map[]
    ensures Written(props, write) != map[]
  {
    var k :| k in props;
    assert k in Written(props, write);
  }
}
