/** The unit at the other end: as long as its reports are true and nobody else
    changes its settings, `normal` puts the unit itself back. */
module EvccDevice {
  import opened Sequences
  import opened Numbers
  import opened Evcc
  import opened EvccUnit
  import opened EvccHistory

  /** The controlled settings of the unit itself. */
  type Registers = map<string, real>

  /** A command that is sent and taken changes the unit; a refused write does not. */
  ghost function Taken(registers: Registers, s: State, e: Event, chargeW: int): Registers {
    if e.Report? then registers
    else
      var o := Commanded(s, e.mode, e.at, chargeW, e.accepted);
      if o.write.Some? && o.error.None? then registers + map k | k in o.write.value :: o.write.value[k] as real
      else registers
  }

  ghost function Registered(initial: Registers, events: seq<Event>, chargeW: int): Registers {
    if events == [] then initial
    else
      var front := events[..|events| - 1];
      Taken(Registered(initial, front, chargeW), Run(front, chargeW), events[|events| - 1], chargeW)
  }

  /** Where these properties speak of a controlled setting, they are right. */
  ghost predicate Truthful(props: Props, registers: Registers) {
    forall k :: k in CONTROLLED && Number(props, k).Some? ==> k in registers && Number(props, k).value == registers[k]
  }

  /** Every report was true when it was made. */
  ghost predicate TruthfulRun(initial: Registers, events: seq<Event>, chargeW: int) {
    forall i :: 0 <= i < |events| && events[i].Report? ==>
      Truthful(events[i].props, Registered(initial, events[..i], chargeW))
  }

  lemma {:induction false} TruthfulPrefix(initial: Registers, events: seq<Event>, n: nat, chargeW: int)
    requires n <= |events| && TruthfulRun(initial, events, chargeW)
    ensures TruthfulRun(initial, events[..n], chargeW)
  {
    forall i | 0 <= i < n && events[..n][i].Report?
      ensures Truthful(events[..n][i].props, Registered(initial, events[..n][..i], chargeW))
    {
      assert events[..n][..i] == events[..i];
      assert events[..n][i] == events[i];
    }
  }

  lemma {:induction false} CommandProps(s: State, e: Event, chargeW: int)
    requires e.Command?
    ensures var o := Commanded(s, e.mode, e.at, chargeW, e.accepted);
      After(s, e, chargeW).props ==
      if o.write.Some? && o.error.None? then Written(s.props, o.write.value) else s.props
  {
    assert Written(s.props, map[]) == s.props;
    hide DiffOf, Written, Target, SnapshotOf;
  }

  lemma {:induction false} CommandStaysTruthful(registers: Registers, s: State, e: Event, chargeW: int)
    requires e.Command? && Truthful(s.props, registers)
    ensures Truthful(After(s, e, chargeW).props, Taken(registers, s, e, chargeW))
  {
    CommandProps(s, e, chargeW);
    hide Commanded, After;
  }

  /** What the bridge believes of the controlled settings stays true. */
  lemma {:induction false} BeliefsAreTrue(initial: Registers, events: seq<Event>, chargeW: int)
    requires TruthfulRun(initial, events, chargeW)
    ensures Truthful(Run(events, chargeW).props, Registered(initial, events, chargeW))
  {
    if events == [] {
    } else {
      var n := |events| - 1;
      var front, e := events[..n], events[n];
      TruthfulPrefix(initial, events, n, chargeW);
      BeliefsAreTrue(initial, front, chargeW);
      if e.Command? {
        CommandStaysTruthful(Registered(initial, front, chargeW), Run(front, chargeW), e, chargeW);
      } else {
        assert Truthful(e.props, Registered(initial, front, chargeW));
        hide Run, Registered, Commanded;
        MergedTruthfully(Run(front, chargeW).props, e.props, Registered(initial, front, chargeW));
      }
    }
  }

  lemma {:induction false} MergedTruthfully(props: Props, report: Props, registers: Registers)
    requires Truthful(props, registers) && Truthful(report, registers)
    ensures Truthful(props + report, registers)
  {
    forall k | k in CONTROLLED && Number(props + report, k).Some?
      ensures k in registers && Number(props + report, k).value == registers[k]
    {
      assert Number(props + report, k) == if k in report then Number(report, k) else Number(props, k);
    }
  }

  /** After a successful normal the unit itself has, for every controlled setting
      known at the first attempt, the rounded value it had then. */
  lemma {:induction false} UnitIsRestored(
      initial: Registers, events: seq<Event>, i: nat, at: int, accepted: bool, chargeW: int, k: string)
    requires Open(events, i, chargeW)
    requires Succeeds(Run(events, chargeW), Command(Normal, at, accepted), chargeW)
    requires TruthfulRun(initial, events, chargeW)
    requires k in CONTROLLED && Number(Run(events[..i], chargeW).props, k).Some?
    ensures var earlier := Registered(initial, events[..i], chargeW);
      var now := Registered(initial, events + [Command(Normal, at, accepted)], chargeW);
      k in earlier && k in now && now[k] == Round(earlier[k]) as real
  {
    var e := Command(Normal, at, accepted);
    NormalRestores(events, i, at, accepted, chargeW);
    TruthfulPrefix(initial, events, i, chargeW);
    BeliefsAreTrue(initial, events[..i], chargeW);
    BeliefsAreTrue(initial, events, chargeW);
    assert (events + [e])[..|events|] == events;
    CommandStaysTruthful(Registered(initial, events, chargeW), Run(events, chargeW), e, chargeW);
    hide Commanded, After;
  }

  /** What `normal` does for one setting of the unit, whatever the reports said: a
      setting that was saved has its rounded first value afterwards exactly when it
      had it already, or what the bridge knew before the command was not that value. */
  lemma {:induction false} UnitIsRestoredIff(
      initial: Registers, events: seq<Event>, i: nat, at: int, accepted: bool, chargeW: int, k: string)
    requires Open(events, i, chargeW)
    requires Succeeds(Run(events, chargeW), Command(Normal, at, accepted), chargeW)
    requires k in CONTROLLED && Number(Run(events[..i], chargeW).props, k).Some?
    ensures var first := Round(Number(Run(events[..i], chargeW).props, k).value) as real;
      var before := Registered(initial, events, chargeW);
      var now := Registered(initial, events + [Command(Normal, at, accepted)], chargeW);
      Lookup(now, k) == Some(first) <==>
      Lookup(before, k) == Some(first) || Number(Run(events, chargeW).props, k) != Some(first)
  {
    var e, s := Command(Normal, at, accepted), Run(events, chargeW);
    SavedIsFirstAttempt(events, i, chargeW);
    assert (events + [e])[..|events|] == events;
    var saved := SnapshotOf(Run(events[..i], chargeW).props);
    assert k in saved && saved[k] == Round(Number(Run(events[..i], chargeW).props, k).value);
    NormalWrites(s, at, accepted, chargeW);
    hide Run, SnapshotOf, Commanded;
  }

  /** A successful normal writes to the unit what the bridge does not know it has. */
  lemma {:induction false} NormalWrites(s: State, at: int, accepted: bool, chargeW: int)
    requires s.saved.Some? && Succeeds(s, Command(Normal, at, accepted), chargeW)
    ensures forall registers: Registers, k ::
      Lookup(Taken(registers, s, Command(Normal, at, accepted), chargeW), k) ==
      if k in DiffOf(s.saved.value, s.props) then Some(s.saved.value[k] as real) else Lookup(registers, k)
  {
    var diff := DiffOf(s.saved.value, s.props);
    var o := Commanded(s, Normal, at, chargeW, accepted);
    assert o.error.None? && (o.write == if diff == map[] then None else Some(diff));
    hide Commanded;
  }

  lemma {:induction false} OneMoreEvent(initial: Registers, events: seq<Event>, e: Event, chargeW: int)
    ensures Run(events + [e], chargeW) == After(Run(events, chargeW), e, chargeW)
    ensures Registered(initial, events + [e], chargeW) ==
            Taken(Registered(initial, events, chargeW), Run(events, chargeW), e, chargeW)
  {
    assert (events + [e])[..|events|] == events;
  }

  /** The hold of a unit that reported nothing but this limit, in whole watts. */
  lemma {:induction false} HoldTaken(watts: nat, chargeW: int)
    requires watts > 0
    ensures var report: Props := map[OUTPUT_LIMIT := Num(watts as real)];
      var o := Commanded(Merged(INITIAL, report), Hold, 1, chargeW, true);
      && o.error.None? && o.write == Some(map[SMART_MODE := 1, OUTPUT_LIMIT := 0])
      && o.state.mode == Hold && o.state.saved == Some(map[OUTPUT_LIMIT := watts])
  {
    var report: Props := map[OUTPUT_LIMIT := Num(watts as real)];
    var nothing: Props := map[];
    assert nothing + report == report;
    assert OUTPUT_LIMIT == CONTROLLED[2];
    assert OUTPUT_LIMIT in report;
    RoundOfInt(watts);
    assert SnapshotOf(report) == map[OUTPUT_LIMIT := watts];
    assert DiffOf(Target(Hold, report, chargeW), report) == map[SMART_MODE := 1, OUTPUT_LIMIT := 0];
  }

  /** A report that was read before a write and is merged after it does that harm: the hold
      is taken, the late report says it is not, `normal` finds nothing to write, and the
      unit keeps the hold while the bridge has restored everything. */
  lemma {:induction false} LateReportLeavesTheHold(watts: nat, chargeW: int)
    requires watts > 0
    ensures var report := Report(map[OUTPUT_LIMIT := Num(watts as real)]);
      var events := [] + [report] + [Command(Hold, 1, true)] + [report];
      var s := Run(events, chargeW);
      var o := Commanded(s, Normal, 2, chargeW, true);
      var registers: Registers := map[OUTPUT_LIMIT := watts as real];
      && o.error.None? && o.write.None? && o.state.mode == Normal && o.state.saved.None?
      && Number(o.state.props, OUTPUT_LIMIT) == Some(watts as real)
      && Lookup(Registered(registers, events + [Command(Normal, 2, true)], chargeW), OUTPUT_LIMIT) == Some(0.0)
  {
    var props: Props := map[OUTPUT_LIMIT := Num(watts as real)];
    var report, hold, normal := Report(props), Command(Hold, 1, true), Command(Normal, 2, true);
    var registers: Registers := map[OUTPUT_LIMIT := watts as real];
    OneMoreEvent(registers, [], report, chargeW);
    OneMoreEvent(registers, [] + [report], hold, chargeW);
    OneMoreEvent(registers, [] + [report] + [hold], report, chargeW);
    OneMoreEvent(registers, [] + [report] + [hold] + [report], normal, chargeW);
    HoldTaken(watts, chargeW);
    var s := Run([] + [report] + [hold] + [report], chargeW);
    assert Number(s.props, OUTPUT_LIMIT) == Some(watts as real);
    assert DiffOf(map[OUTPUT_LIMIT := watts], s.props) == map[];
    hide Run, Registered, DiffOf;
    assert Written(s.props, map[]) == s.props;
  }
}
