/** Whole runs of one unit's battery mode: what `normal` restores is told from
    the history of reports and commands alone. */
module EvccHistory {
  import opened Sequences
  import opened Numbers
  import opened Evcc
  import opened EvccUnit

  datatype Event = Report(props: Props) | Command(mode: Mode, at: int, accepted: bool)

  ghost function After(s: State, e: Event, chargeW: int): State {
    match e
    case Report(props) => Merged(s, props)
    case Command(mode, at, accepted) => Commanded(s, mode, at, chargeW, accepted).state
  }

  ghost function Run(events: seq<Event>, chargeW: int): State {
    if events == [] then INITIAL
    else After(Run(events[..|events| - 1], chargeW), events[|events| - 1], chargeW)
  }

  ghost predicate Succeeds(s: State, e: Event, chargeW: int) {
    e.Command? && Commanded(s, e.mode, e.at, chargeW, e.accepted).error.None?
  }

  /** A hold or charge for a unit that has reported, whether its write succeeds
      or not. */
  ghost predicate Attempt(events: seq<Event>, i: nat, chargeW: int)
    requires i < |events|
  {
    events[i].Command? && events[i].mode != Normal && Run(events[..i], chargeW).props != map[]
  }

  /** A successful normal. */
  ghost predicate Restore(events: seq<Event>, i: nat, chargeW: int)
    requires i < |events|
  {
    events[i].Command? && events[i].mode == Normal && Succeeds(Run(events[..i], chargeW), events[i], chargeW)
  }

  ghost predicate RestoredAfter(events: seq<Event>, i: nat, chargeW: int) {
    exists r: nat :: i < r < |events| && Restore(events, r, chargeW)
  }

  /** i is the first attempt since the last restore. */
  ghost predicate Open(events: seq<Event>, i: nat, chargeW: int) {
    && i < |events|
    && Attempt(events, i, chargeW)
    && !RestoredAfter(events, i, chargeW)
    && forall j: nat :: j < i && Attempt(events, j, chargeW) ==> RestoredAfter(events[..i], j, chargeW)
  }

  // -------------------------------------------------------------------- prefixes

  lemma {:induction false} PrefixHistory(events: seq<Event>, n: nat, i: nat, chargeW: int)
    requires i < n <= |events|
    ensures Attempt(events[..n], i, chargeW) == Attempt(events, i, chargeW)
    ensures Restore(events[..n], i, chargeW) == Restore(events, i, chargeW)
  {
    assert events[..n][..i] == events[..i];
  }

  lemma {:induction false} RestoredInPrefix(events: seq<Event>, n: nat, i: nat, chargeW: int)
    requires n <= |events|
    ensures RestoredAfter(events[..n], i, chargeW) ==> RestoredAfter(events, i, chargeW)
    ensures n + 1 == |events| && RestoredAfter(events, i, chargeW) && !Restore(events, n, chargeW) ==>
        RestoredAfter(events[..n], i, chargeW)
  {
    if RestoredAfter(events[..n], i, chargeW) {
      var r: nat :| i < r < n && Restore(events[..n], r, chargeW);
      PrefixHistory(events, n, r, chargeW);
    }
    if n + 1 == |events| && RestoredAfter(events, i, chargeW) && !Restore(events, n, chargeW) {
      var r: nat :| i < r < |events| && Restore(events, r, chargeW);
      PrefixHistory(events, n, r, chargeW);
    }
  }

  /** An event that restores nothing leaves an open attempt open. */
  lemma {:induction false} OpenStays(events: seq<Event>, i: nat, chargeW: int)
    requires events != []
    requires Open(events[..|events| - 1], i, chargeW)
    requires !Restore(events, |events| - 1, chargeW)
    ensures Open(events, i, chargeW)
  {
    var n := |events| - 1;
    var front := events[..n];
    PrefixHistory(events, n, i, chargeW);
    RestoredInPrefix(events, n, i, chargeW);
    assert front[..i] == events[..i];
    forall j: nat | j < i && Attempt(events, j, chargeW) ensures RestoredAfter(events[..i], j, chargeW) {
      PrefixHistory(events, n, j, chargeW);
    }
  }

  lemma {:induction false} OneOpen(events: seq<Event>, i: nat, j: nat, chargeW: int)
    requires Open(events, i, chargeW) && Open(events, j, chargeW)
    ensures i == j
  {
    if i < j {
      RestoredInPrefix(events, j, i, chargeW);
    } else if j < i {
      RestoredInPrefix(events, i, j, chargeW);
    }
  }

  // ----------------------------------------------------------- the saved settings

  lemma {:induction false} StepSaved(s: State, e: Event, chargeW: int)
    ensures After(s, e, chargeW).saved ==
      if e.Command? && e.mode == Normal && Succeeds(s, e, chargeW) then None
      else if e.Command? && e.mode != Normal && s.props != map[] && s.saved.None? then Some(SnapshotOf(s.props))
      else s.saved
  {
    hide DiffOf, Written, Target, SnapshotOf;
  }

  /** Nothing is saved exactly when every attempt has been restored. */
  lemma {:induction false} SavedIffOpen(events: seq<Event>, chargeW: int)
    ensures Run(events, chargeW).saved.None? ==>
            forall j: nat :: j < |events| && Attempt(events, j, chargeW) ==> RestoredAfter(events, j, chargeW)
    ensures Run(events, chargeW).saved.Some? ==>
            exists i: nat :: Open(events, i, chargeW) &&
              Run(events, chargeW).saved == Some(SnapshotOf(Run(events[..i], chargeW).props))
  {
    if events == [] {
    } else {
      var n := |events| - 1;
      var front, e := events[..n], events[n];
      SavedIffOpen(front, chargeW);
      StepSaved(Run(front, chargeW), e, chargeW);
      hide After, SnapshotOf, Succeeds;
      if Run(events, chargeW).saved.None? {
        NothingOpen(events, chargeW);
      } else if Run(front, chargeW).saved.None? {
        FreshlyOpen(events, chargeW);
      } else {
        var i: nat :| Open(front, i, chargeW) &&
          Run(front, chargeW).saved == Some(SnapshotOf(Run(front[..i], chargeW).props));
        assert front[..i] == events[..i];
        assert !Restore(events, n, chargeW);
        OpenStays(events, i, chargeW);
      }
    }
  }

  lemma {:induction false} NothingOpen(events: seq<Event>, chargeW: int)
    requires events != [] && Run(events, chargeW).saved.None?
    requires var front := events[..|events| - 1];
      Run(front, chargeW).saved.None? ==>
      forall j: nat :: j < |front| && Attempt(front, j, chargeW) ==> RestoredAfter(front, j, chargeW)
    ensures forall j: nat :: j < |events| && Attempt(events, j, chargeW) ==> RestoredAfter(events, j, chargeW)
  {
    var n := |events| - 1;
    var front := events[..n];
    StepSaved(Run(front, chargeW), events[n], chargeW);
    hide After, SnapshotOf;
    forall j: nat | j < |events| && Attempt(events, j, chargeW) ensures RestoredAfter(events, j, chargeW) {
      if j < n {
        PrefixHistory(events, n, j, chargeW);
        RestoredInPrefix(events, n, j, chargeW);
        if !RestoredAfter(front, j, chargeW) {
          assert Restore(events, n, chargeW);
        }
      }
    }
  }

  lemma {:induction false} FreshlyOpen(events: seq<Event>, chargeW: int)
    requires events != [] && Run(events, chargeW).saved.Some?
    requires var front := events[..|events| - 1];
      && Run(front, chargeW).saved.None?
      && forall j: nat :: j < |front| && Attempt(front, j, chargeW) ==> RestoredAfter(front, j, chargeW)
    ensures Open(events, |events| - 1, chargeW)
    ensures Run(events, chargeW).saved == Some(SnapshotOf(Run(events[..|events| - 1], chargeW).props))
  {
    var n := |events| - 1;
    var front := events[..n];
    StepSaved(Run(front, chargeW), events[n], chargeW);
    hide After, SnapshotOf;
    forall j: nat | j < n && Attempt(events, j, chargeW) ensures RestoredAfter(front, j, chargeW) {
      PrefixHistory(events, n, j, chargeW);
    }
  }

  /** What is saved is what the unit reported at the first hold or charge attempt
      since the last restore, and no later hold or charge touches it. */
  lemma {:induction false} SavedIsFirstAttempt(events: seq<Event>, i: nat, chargeW: int)
    requires Open(events, i, chargeW)
    ensures Run(events, chargeW).saved == Some(SnapshotOf(Run(events[..i], chargeW).props))
  {
    SavedIffOpen(events, chargeW);
    hide Run, SnapshotOf;
    if Run(events, chargeW).saved.Some? {
      var k: nat :| Open(events, k, chargeW) &&
        Run(events, chargeW).saved == Some(SnapshotOf(Run(events[..k], chargeW).props));
      OneOpen(events, i, k, chargeW);
    }
  }

  // ----------------------------------------------------------------- all runs

  lemma {:induction false} AllRunsGood(events: seq<Event>, chargeW: int)
    ensures Good(Run(events, chargeW))
  {
    if events == [] {
    } else {
      var front, e := events[..|events| - 1], events[|events| - 1];
      AllRunsGood(front, chargeW);
      hide Commanded;
      if e.Command? {
        CommandKeepsGood(Run(front, chargeW), e.mode, e.at, chargeW, e.accepted);
      }
    }
  }

  /** A successful normal, after any history: every controlled property that was
      a number at the first hold or charge attempt since the last restore is that
      number again, rounded; nothing else moves; and the unit is in normal with
      nothing saved. */
  lemma {:induction false} NormalRestores(events: seq<Event>, i: nat, at: int, accepted: bool, chargeW: int)
    requires Open(events, i, chargeW)
    requires Succeeds(Run(events, chargeW), Command(Normal, at, accepted), chargeW)
    ensures var before, first := Run(events, chargeW), Run(events[..i], chargeW).props;
      var after := Run(events + [Command(Normal, at, accepted)], chargeW);
      && (forall k :: k in CONTROLLED && Number(first, k).Some? ==>
        Reports(after.props, k, Round(Number(first, k).value)))
      && (forall k :: !(k in CONTROLLED && Number(first, k).Some?) ==> (k in after.props <==> k in before.props))
      && (forall k :: !(k in CONTROLLED && Number(first, k).Some?) && k in before.props ==>
        after.props[k] == before.props[k])
      && after.mode == Normal && after.saved.None?
  {
    var before, first := Run(events, chargeW), Run(events[..i], chargeW).props;
    SavedIsFirstAttempt(events, i, chargeW);
    AllRunsGood(events, chargeW);
    SuccessSettles(before, Normal, at, chargeW, accepted);
    assert (events + [Command(Normal, at, accepted)])[..|events|] == events;
    assert forall k :: k in SnapshotOf(first) <==> k in CONTROLLED && Number(first, k).Some?;
    hide Commanded, Reports, Number;
  }

  /** With nothing open, normal writes nothing at all. */
  lemma {:induction false} NormalWithoutAttempt(events: seq<Event>, at: int, accepted: bool, chargeW: int)
    requires forall j: nat :: j < |events| && Attempt(events, j, chargeW) ==> RestoredAfter(events, j, chargeW)
    ensures Run(events, chargeW).mode == Normal
    ensures Commanded(Run(events, chargeW), Normal, at, chargeW, accepted) ==
            Outcome(Run(events, chargeW).(lastCmd := at), None, None)
  {
    SavedIffOpen(events, chargeW);
    AllRunsGood(events, chargeW);
    assert DiffOf(map[], Run(events, chargeW).props) == map[];
    hide Run, SnapshotOf;
    NothingToWrite(Run(events, chargeW), Normal, at, chargeW, accepted);
  }

  /** "Exactly what it was" holds of a restored property exactly when what it was
      is a whole number. */
  lemma {:induction false} RestoredExactlyIffWhole(
      events: seq<Event>, i: nat, at: int, accepted: bool, chargeW: int, k: string)
    requires Open(events, i, chargeW)
    requires Succeeds(Run(events, chargeW), Command(Normal, at, accepted), chargeW)
    requires k in CONTROLLED && Number(Run(events[..i], chargeW).props, k).Some?
    ensures var before, after := Run(events[..i], chargeW), Run(events + [Command(Normal, at, accepted)], chargeW);
      Number(after.props, k) == Number(before.props, k) <==> Integral(Number(before.props, k).value)
  {
    NormalRestores(events, i, at, accepted, chargeW);
    RoundExact(Number(Run(events[..i], chargeW).props, k).value);
  }

  // ------------------------------------------------------------------ the mode

  /** The last command that succeeded, if any. */
  ghost predicate LastSuccess(events: seq<Event>, i: nat, chargeW: int) {
    && i < |events|
    && Succeeds(Run(events[..i], chargeW), events[i], chargeW)
    && forall j: nat :: i < j < |events| ==> !Succeeds(Run(events[..j], chargeW), events[j], chargeW)
  }

  lemma {:induction false} StepMode(s: State, e: Event, chargeW: int)
    ensures After(s, e, chargeW).mode == if Succeeds(s, e, chargeW) then e.mode else s.mode
  {
    hide DiffOf, Written, Target, SnapshotOf;
  }

  /** The mode is that of the last command that succeeded. */
  lemma {:induction false} ModeIsLastSuccess(events: seq<Event>, chargeW: int)
    ensures forall i: nat :: LastSuccess(events, i, chargeW) ==> Run(events, chargeW).mode == events[i].mode
    ensures Run(events, chargeW).mode != Normal ==> exists i: nat :: LastSuccess(events, i, chargeW)
  {
    if events == [] {
    } else {
      var n := |events| - 1;
      var front, e := events[..n], events[n];
      ModeIsLastSuccess(front, chargeW);
      StepMode(Run(front, chargeW), e, chargeW);
      hide After, Succeeds;
      if Succeeds(Run(front, chargeW), e, chargeW) {
        assert LastSuccess(events, n, chargeW);
      } else {
        forall i: nat | i < n ensures LastSuccess(events, i, chargeW) == LastSuccess(front, i, chargeW) {
          LastSuccessPrefix(events, i, chargeW);
        }
      }
    }
  }

  lemma {:induction false} LastSuccessPrefix(events: seq<Event>, i: nat, chargeW: int)
    requires i + 1 < |events|
    requires !Succeeds(Run(events[..|events| - 1], chargeW), events[|events| - 1], chargeW)
    ensures LastSuccess(events, i, chargeW) == LastSuccess(events[..|events| - 1], i, chargeW)
  {
    hide Run, Succeeds;
    var front := events[..|events| - 1];
    assert forall j: nat :: j < |front| ==> front[..j] == events[..j];
    assert front[..i] == events[..i];
  }

  /** "Saved is nil while normal" is not so: a first hold whose write fails
      leaves the unit in normal with something saved. */
  lemma {:induction false} SavedWhileNormal()
    ensures var run := Run([Report(map[OUTPUT_LIMIT := Num(800.0)]), Command(Hold, 1, false)], 0);
      run.mode == Normal && run.saved == Some(map[OUTPUT_LIMIT := 800])
  {
    var report: Props := map[OUTPUT_LIMIT := Num(800.0)];
    var events := [Report(report), Command(Hold, 1, false)];
    assert events[..1] == [Report(report)] && events[..1][..0] == [];
    var s := Run(events[..1], 0);
    var nothing: Props := map[];
    assert nothing + report == report;
    assert s == Merged(Run([], 0), report);
    assert OUTPUT_LIMIT == CONTROLLED[2];
    assert SnapshotOf(report) == map[OUTPUT_LIMIT := 800];
    assert SMART_MODE in DiffOf(Target(Hold, report, 0), report);
    assert OUTPUT_LIMIT in report;
    hide DiffOf, SnapshotOf;
    assert Commanded(s, Hold, 1, 0, false).state == s.(lastCmd := 1, saved := Some(SnapshotOf(report)));
    assert Run(events, 0) == After(s, events[1], 0);
  }

  /** Both come together exactly when an attempt stands open and no command since
      the last normal has succeeded. */
  lemma {:induction false} SavedWhileNormalIff(events: seq<Event>, chargeW: int)
    ensures Run(events, chargeW).mode == Normal && Run(events, chargeW).saved.Some? <==>
            && (exists i: nat :: Open(events, i, chargeW))
            && (forall i: nat :: LastSuccess(events, i, chargeW) ==> events[i].mode == Normal)
  {
    SavedIffOpen(events, chargeW);
    ModeIsLastSuccess(events, chargeW);
    if i: nat :| Open(events, i, chargeW) {
      SavedIsFirstAttempt(events, i, chargeW);
    }
  }
}
