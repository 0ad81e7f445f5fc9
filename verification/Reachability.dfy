/** Which units answer: the local backend's debounced poll outcomes, and what the
    observer makes of them (internal/zendure/local/source.go). */
module Reachability {
  import opened Sequences

  /** Consecutive failed polls that make a unit unreachable. */
  const UNREACHABLE_AFTER: nat := 2

  datatype Poll = Poll(sn: string, ok: bool)

  /** What the observer is told after a poll. */
  datatype Report = Report(sn: string, reachable: bool, usable: bool)

  /** The two maps the mutex guards. */
  datatype Memory = Memory(failures: map<string, nat>, reachable: map<string, bool>)

  function Failures(m: Memory, sn: string): nat {
    if sn in m.failures then m.failures[sn] else 0
  }

  ghost predicate Usable(reachable: map<string, bool>) {
    exists sn :: sn in reachable && reachable[sn]
  }

  /** One mutex section. */
  function After(m: Memory, p: Poll): Memory {
    var n := if p.ok then 0 else Failures(m, p.sn) + 1;
    Memory(m.failures[p.sn := n],
           if p.ok || n >= UNREACHABLE_AFTER then m.reachable[p.sn := p.ok] else m.reachable)
  }

  ghost function Told(m: Memory, p: Poll): Option<Report> {
    if p.ok || Failures(m, p.sn) + 1 >= UNREACHABLE_AFTER
    then Some(Report(p.sn, p.ok, Usable(After(m, p).reachable))) else None
  }

  class Backend {
    /** Whether somebody observes the backend. */
    var observed: bool
    var failures: map<string, nat>
    var reachable: map<string, bool>

    constructor ()
      ensures !observed && Held() == Memory(map[], map[])
    {
      observed, failures, reachable := false, map[], map[];
    }

    ghost function Held(): Memory
      reads this
    {
      Memory(failures, reachable)
    }

    /** observe, up to the two calls it makes after the unlock: they are returned. */
    method Observe(sn: string, ok: bool) returns (report: Option<Report>)
      modifies this
      ensures observed == old(observed)
      ensures !observed ==> Held() == old(Held()) && report == None
      ensures observed ==> Held() == After(old(Held()), Poll(sn, ok)) && report == Told(old(Held()), Poll(sn, ok))
    {
      if !observed {
        return None;
      }
      if ok {
        failures := failures[sn := 0];
      } else {
        failures := failures[sn := (if sn in failures then failures[sn] else 0) + 1];
        if failures[sn] < UNREACHABLE_AFTER {
          return None;
        }
      }
      reachable := reachable[sn := ok];
      var usable := false;
      var left := reachable.Keys;
      while left != {}
        invariant left <= reachable.Keys
        invariant usable <==> exists s :: s in reachable.Keys - left && reachable[s]
        decreases left
      {
        var s :| s in left;
        usable := usable || reachable[s];
        left := left - {s};
      }
      return Some(Report(sn, ok, usable));
    }
  }

  // ------------------------------------------------------------ the poll history

  function AfterAll(polls: seq<Poll>): Memory {
    if polls == [] then Memory(map[], map[])
    else After(AfterAll(polls[..|polls| - 1]), polls[|polls| - 1])
  }

  /** One unit's outcomes, the others left out. */
  function Outcomes(polls: seq<Poll>, sn: string): seq<bool> {
    if polls == [] then []
    else
      var last := polls[|polls| - 1];
      Outcomes(polls[..|polls| - 1], sn) + if last.sn == sn then [last.ok] else []
  }

  /** The last n polls failed. */
  ghost predicate EndsOnMisses(outcomes: seq<bool>, n: nat) {
    |outcomes| >= n && forall i :: |outcomes| - n <= i < |outcomes| ==> !outcomes[i]
  }

  /** Some poll succeeded, and fewer than n failed after it. */
  ghost predicate SucceededWithin(outcomes: seq<bool>, n: nat) {
    exists i :: 0 <= i < |outcomes| && outcomes[i] && |outcomes| - i <= n
  }

  /** What the maps say about one unit, in terms of its own outcomes: unreachable
      when the last two polls failed, reachable when one succeeded and at most one
      failed after it, nothing when it was never polled or only once, in vain. */
  ghost predicate Debounces(m: Memory, sn: string, outcomes: seq<bool>) {
    && (sn in m.reachable && !m.reachable[sn] <==> EndsOnMisses(outcomes, UNREACHABLE_AFTER))
    && (sn in m.reachable && m.reachable[sn] <==> SucceededWithin(outcomes, UNREACHABLE_AFTER))
    && (sn !in m.reachable <==> outcomes == [] || outcomes == [false])
  }

  /** The counter is the number of failures since the last success. */
  ghost predicate Counts(m: Memory, sn: string, outcomes: seq<bool>) {
    var n := Failures(m, sn);
    EndsOnMisses(outcomes, n) && (n < |outcomes| ==> outcomes[|outcomes| - 1 - n])
  }

  /** However the polls of the units interleave, the maps say of each unit how its
      own polls ended. */
  lemma {:induction false} HistoryIsDebounced(polls: seq<Poll>, sn: string)
    ensures Debounces(AfterAll(polls), sn, Outcomes(polls, sn))
    ensures Counts(AfterAll(polls), sn, Outcomes(polls, sn))
  {
    if polls != [] {
      var front, last := polls[..|polls| - 1], polls[|polls| - 1];
      HistoryIsDebounced(front, sn);
      PollDebounces(AfterAll(front), last, sn, Outcomes(front, sn));
    }
  }

  lemma {:induction false} PollDebounces(m: Memory, p: Poll, sn: string, o: seq<bool>)
    requires Debounces(m, sn, o) && Counts(m, sn, o)
    ensures var o' := o + if p.sn == sn then [p.ok] else [];
      Debounces(After(m, p), sn, o') && Counts(After(m, p), sn, o')
  {
    var r, r' := m.reachable, After(m, p).reachable;
    var n, n' := Failures(m, sn), Failures(After(m, p), sn);
    if p.sn == sn {
      assert n' == if p.ok then 0 else n + 1;
      assert r' == if p.ok || n' >= UNREACHABLE_AFTER then r[sn := p.ok] else r;
      OneMore(o, p.ok, n);
      hide EndsOnMisses, SucceededWithin, After, Failures;
    } else {
      assert o + [] == o;
      assert n' == n && (sn in r' <==> sn in r) && (sn in r ==> r'[sn] == r[sn]);
      hide EndsOnMisses, SucceededWithin, After, Failures;
    }
  }

  lemma {:induction false} OneMore(o: seq<bool>, ok: bool, n: nat)
    requires EndsOnMisses(o, n)
    requires n < |o| ==> o[|o| - 1 - n]
    ensures var o' := o + [ok];
      && (EndsOnMisses(o', UNREACHABLE_AFTER) <==> !ok && n + 1 >= UNREACHABLE_AFTER)
      && (SucceededWithin(o', UNREACHABLE_AFTER) <==> ok || (n == 0 && o != []))
      && (n == 0 ==> !EndsOnMisses(o, UNREACHABLE_AFTER) && (SucceededWithin(o, UNREACHABLE_AFTER) <==> o != []))
      && var n' := if ok then 0 else n + 1;
      && EndsOnMisses(o', n') && (n' < |o'| ==> o'[|o'| - 1 - n'])
  {
    if n == 0 && o != [] {
      assert o[|o| - 1];
    }
    var o' := o + [ok];
    if ok {
      assert o'[|o|];
    } else if n == 0 && o != [] {
      assert o'[|o| - 1];
    } else if n > 0 {
      assert !o[|o| - 1];
    }
  }

  /** The unit's last success is at most one failure ago. */
  ghost predicate Answers(polls: seq<Poll>, sn: string) {
    SucceededWithin(Outcomes(polls, sn), UNREACHABLE_AFTER)
  }

  /** And the backend is usable exactly when some unit is reachable in that sense. */
  lemma {:induction false} UsableIffSomeUnitAnswers(polls: seq<Poll>)
    ensures Usable(AfterAll(polls).reachable) <==> exists sn :: Answers(polls, sn)
  {
    var r := AfterAll(polls).reachable;
    forall sn ensures sn in r && r[sn] <==> Answers(polls, sn) {
      HistoryIsDebounced(polls, sn);
    }
    hide AfterAll, Answers;
    if sn :| Answers(polls, sn) {
      assert sn in r && r[sn];
    }
    if sn :| sn in r && r[sn] {
      assert Answers(polls, sn);
    }
  }

  // ------------------------------------------- the calls made after the unlock

  /** A poll loop's report on its way: the unit's call first, then the upstream's. */
  datatype Calls = Both(report: Report) | UpstreamOnly(report: Report)

  /** What the observer last heard of each unit and of the upstream. */
  datatype System = System(memory: Memory, calls: map<string, Calls>, units: map<string, bool>, upstream: Option<bool>)

  /** Each unit has one poll loop, which polls again only after its calls. */
  datatype Move = Polls(sn: string, ok: bool) | TellsUnit(sn: string) | TellsUpstream(sn: string)

  const IDLE := System(Memory(map[], map[]), map[], map[], None)

  ghost predicate Can(s: System, m: Move) {
    match m
    case Polls(sn, _) => sn !in s.calls
    case TellsUnit(sn) => sn in s.calls && s.calls[sn].Both?
    case TellsUpstream(sn) => sn in s.calls && s.calls[sn].UpstreamOnly?
  }

  ghost function Moved(s: System, m: Move): System
    requires Can(s, m)
  {
    match m
    case Polls(sn, ok) =>
      var s' := s.(memory := After(s.memory, Poll(sn, ok)));
      (match Told(s.memory, Poll(sn, ok))
       case Some(r) => s'.(calls := s.calls[sn := Both(r)])
       case None => s')
    case TellsUnit(sn) =>
      var r := s.calls[sn].report;
      s.(calls := s.calls[sn := UpstreamOnly(r)], units := s.units[r.sn := r.reachable])
    case TellsUpstream(sn) =>
      s.(calls := s.calls - {sn}, upstream := Some(s.calls[sn].report.usable))
  }

  /** The system after the moves, if each of them could be made. */
  ghost function Run(moves: seq<Move>): Option<System> {
    if moves == [] then Some(IDLE)
    else
      var before, m := Run(moves[..|moves| - 1]), moves[|moves| - 1];
      if before.Some? && Can(before.value, m) then Some(Moved(before.value, m)) else None
  }

  ghost predicate Possible(moves: seq<Move>) {
    Run(moves).Some?
  }

  /** A unit whose report is not under way is known as it is. */
  ghost predicate UnitKnown(s: System, sn: string) {
    var r := s.memory.reachable;
    if sn in s.calls && s.calls[sn].Both?
    then sn in r && s.calls[sn].report.reachable == r[sn]
    else (sn in s.units <==> sn in r) && (sn in r ==> s.units[sn] == r[sn])
  }

  /** Reports of different units may overtake each other, a unit's own may not: the
      observer is always told the latest of each unit. */
  lemma {:induction false} UnitsAreKnown(moves: seq<Move>)
    requires Possible(moves)
    ensures var s := Run(moves).value;
      forall sn :: UnitKnown(s, sn) && (sn in s.calls ==> s.calls[sn].report.sn == sn)
  {
    if moves != [] {
      var front := moves[..|moves| - 1];
      UnitsAreKnown(front);
      assert Run(moves) == Some(Moved(Run(front).value, moves[|moves| - 1]));
      hide Run, Usable;
    }
  }

  ghost predicate Among(moves: seq<Move>, units: set<string>) {
    forall m :: m in moves ==> m.sn in units
  }

  /** The upstream's state as the observer knows it, once no call is under way. */
  ghost predicate UpstreamKnown(s: System) {
    s.upstream == if s.memory.reachable == map[] then None else Some(Usable(s.memory.reachable))
  }

  /** With one unit the upstream report is always the current one. */
  lemma {:induction false} OneUnitTellsInOrder(moves: seq<Move>, sn: string)
    requires Possible(moves) && Among(moves, {sn})
    ensures var s := Run(moves).value;
      && s.calls.Keys <= {sn}
      && (s.calls == map[] ==> UpstreamKnown(s))
      && (sn in s.calls ==> s.memory.reachable != map[] && s.calls[sn].report.usable == Usable(s.memory.reachable))
  {
    if moves != [] {
      var front := moves[..|moves| - 1];
      OneUnitTellsInOrder(front, sn);
      assert moves[|moves| - 1] in moves;
      assert Run(moves) == Some(Moved(Run(front).value, moves[|moves| - 1]));
      hide Run, Usable;
    }
  }

  /** Two units, a lost one and a returning one: b answers while a's loss is still to
      be told, and the loss is told last. */
  function Overtaken(a: string, b: string): seq<Move> {
    [Polls(a, false), Polls(a, false), TellsUnit(a),
     Polls(b, true), TellsUnit(b), TellsUpstream(b), TellsUpstream(a)]
  }

  /** a is lost, and the upstream is still to be told. */
  ghost function Lost(a: string): System {
    System(Memory(map[a := 2], map[a := false]), map[a := UpstreamOnly(Report(a, false, false))], map[a := false], None)
  }

  lemma {:induction false} LostRun(a: string)
    ensures Run([Polls(a, false), Polls(a, false), TellsUnit(a)]) == Some(Lost(a))
  {
    var s1, s2 := Moved(IDLE, Polls(a, false)), MissedTwice(a);
    OneMove([], Polls(a, false), IDLE);
    assert [] + [Polls(a, false)] == [Polls(a, false)];
    OneMove([Polls(a, false)], Polls(a, false), s1);
    assert [Polls(a, false)] + [Polls(a, false)] == [Polls(a, false), Polls(a, false)];
    hide Run;
    MissedTwiceComes(a);
    hide Moved;
    OneMove([Polls(a, false), Polls(a, false)], TellsUnit(a), s2);
    assert [Polls(a, false), Polls(a, false)] + [TellsUnit(a)] == [Polls(a, false), Polls(a, false), TellsUnit(a)];
  }

  ghost function MissedTwice(a: string): System {
    System(Memory(map[a := 2], map[a := false]), map[a := Both(Report(a, false, false))], map[], None)
  }

  lemma {:induction false} MissedTwiceComes(a: string)
    ensures var s1 := Moved(IDLE, Polls(a, false));
      && Can(s1, Polls(a, false)) && Moved(s1, Polls(a, false)) == MissedTwice(a)
      && Can(MissedTwice(a), TellsUnit(a)) && Moved(MissedTwice(a), TellsUnit(a)) == Lost(a)
  {
    var s1, s2 := Moved(IDLE, Polls(a, false)), MissedTwice(a);
    assert s1 == IDLE.(memory := Memory(map[a := 1], map[]));
    var gone: map<string, bool> := map[a := false];
    assert !Usable(gone);
    assert map[a := 1][a := 2] == map[a := 2] && map[][a := false] == gone;
    assert s2.calls[a := UpstreamOnly(Report(a, false, false))] == Lost(a).calls;
  }

  lemma {:induction false} OneMove(front: seq<Move>, m: Move, s: System)
    requires Run(front) == Some(s) && Can(s, m)
    ensures Run(front + [m]) == Some(Moved(s, m))
  {
    assert (front + [m])[..|front|] == front;
  }

  lemma {:induction false} OvertakenRun(a: string, b: string)
    requires a != b
    ensures Possible(Overtaken(a, b)) && Among(Overtaken(a, b), {a, b})
    ensures var s := Run(Overtaken(a, b)).value; s.calls == map[] && !UpstreamKnown(s)
  {
    var front := [Polls(a, false), Polls(a, false), TellsUnit(a)];
    LostRun(a);
    OneMove(front, Polls(b, true), Lost(a));
    var s4 := Moved(Lost(a), Polls(b, true));
    OneMove(front + [Polls(b, true)], TellsUnit(b), s4);
    var s5 := Moved(s4, TellsUnit(b));
    OneMove(front + [Polls(b, true)] + [TellsUnit(b)], TellsUpstream(b), s5);
    var s6 := Moved(s5, TellsUpstream(b));
    OneMove(front + [Polls(b, true)] + [TellsUnit(b)] + [TellsUpstream(b)], TellsUpstream(a), s6);
    assert front + [Polls(b, true)] + [TellsUnit(b)] + [TellsUpstream(b)] + [TellsUpstream(a)] == Overtaken(a, b);
    hide Run;
    var end := Moved(s6, TellsUpstream(a));
    assert b in end.memory.reachable && end.memory.reachable[b];
  }

  /** So the upstream is known after every run exactly when there is no second unit:
      with two, a run ends on a report that was overtaken. */
  lemma {:induction false} UpstreamKnownIffOneUnit(units: set<string>)
    ensures (forall moves: seq<Move> :: Possible(moves) && Among(moves, units) && Run(moves).value.calls == map[] ==>
              UpstreamKnown(Run(moves).value))
            <==> !exists a, b :: a in units && b in units && a != b
  {
    if a, b :| a in units && b in units && a != b {
      OvertakenRun(a, b);
    } else {
      forall moves: seq<Move> | Possible(moves) && Among(moves, units) && Run(moves).value.calls == map[]
        ensures UpstreamKnown(Run(moves).value)
      {
        if moves != [] {
          var sn := moves[0].sn;
          assert moves[0] in moves;
          assert forall m :: m in moves ==> m.sn in units;
          OneUnitTellsInOrder(moves, sn);
        }
      }
    }
  }

  // ------------------------------------------------------------------- spelled out

  /** One answer makes a unit reachable, the first miss after it does not make it
      unreachable, the second in a row does. */
  lemma {:induction false} SecondMissLosesAUnit(polls: seq<Poll>, sn: string)
    ensures Lookup(AfterAll(polls + [Poll(sn, true)]).reachable, sn) == Some(true)
    ensures Lookup(AfterAll(polls + [Poll(sn, true)] + [Poll(sn, false)]).reachable, sn) == Some(true)
    ensures Lookup(AfterAll(polls + [Poll(sn, false)] + [Poll(sn, false)]).reachable, sn) == Some(false)
  {
    var answered, missed := polls + [Poll(sn, true)], polls + [Poll(sn, false)];
    OutcomesOneMore(polls, sn, true);
    OutcomesOneMore(polls, sn, false);
    OutcomesOneMore(answered, sn, false);
    OutcomesOneMore(missed, sn, false);
    hide AfterAll, Outcomes;
    EndsDecide(answered, sn);
    EndsDecide(answered + [Poll(sn, false)], sn);
    EndsDecide(missed + [Poll(sn, false)], sn);
  }

  lemma {:induction false} OutcomesOneMore(polls: seq<Poll>, sn: string, ok: bool)
    ensures Outcomes(polls + [Poll(sn, ok)], sn) == Outcomes(polls, sn) + [ok]
  {
    assert (polls + [Poll(sn, ok)])[..|polls|] == polls;
  }

  lemma {:induction false} EndsDecide(polls: seq<Poll>, sn: string)
    ensures var o, r := Outcomes(polls, sn), Lookup(AfterAll(polls).reachable, sn);
      && (|o| >= 1 && o[|o| - 1] ==> r == Some(true))
      && (|o| >= 2 && o[|o| - 2] ==> r == Some(true))
      && (|o| >= 2 && !o[|o| - 2] && !o[|o| - 1] ==> r == Some(false))
  {
    HistoryIsDebounced(polls, sn);
    hide AfterAll, Outcomes, Counts;
  }

  /** After a poll the observer is told, with the unit's outcome and whether any unit
      answers, except after a first miss; that says nothing. */
  lemma {:induction false} ToldUnlessFirstMiss(polls: seq<Poll>, sn: string, ok: bool)
    ensures var o, told := Outcomes(polls, sn), Told(AfterAll(polls), Poll(sn, ok));
      && (told == None <==> !ok && (o == [] || o[|o| - 1]))
      && (told.Some? ==> told.value == Report(sn, ok, exists unit :: Answers(polls + [Poll(sn, ok)], unit)))
  {
    HistoryIsDebounced(polls, sn);
    UsableIffSomeUnitAnswers(polls + [Poll(sn, ok)]);
    assert (polls + [Poll(sn, ok)])[..|polls|] == polls;
    hide Usable, Answers, Debounces;
  }
}
