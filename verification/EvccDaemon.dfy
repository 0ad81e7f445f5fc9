/** The units, the serials the coordinator knows, and the fallback's ticker: whole
    courses in which readings and commands fall anywhere, also between a pass's scan
    and its turns (internal/coordinator/evcc.go, internal/coordinator/coordinator.go). */
module EvccDaemon {
  import opened Sequences
  import opened Evcc
  import opened EvccUnit
  import opened EvccPlane

  /** known: the serials of bySN, which only grows. turns: the units the scan of the
      pass under way listed and the pass has still to come to. */
  datatype Daemon = Daemon(known: set<string>, fleet: Fleet, turns: set<string>)

  /** The lock is taken anew for the scan and for every turn. */
  datatype Step =
    | Reading(sn: string, props: Props)
    | Set(sn: string, mode: Mode, at: int, accepted: bool)
    | Scan(now: int)
    | Turn(sn: string, at: int, accepted: bool)

  datatype Setup = Setup(timeout: int, chargeW: int)

  /** One pass at a time: the next scan comes after the last turn. */
  ghost predicate Can(d: Daemon, e: Step) {
    (e.Scan? ==> d.turns == {}) && (e.Turn? ==> e.sn in d.turns)
  }

  /** A reading makes its unit known first; a command for an unknown one is refused,
      and an unknown one's turn is passed over. */
  ghost function Stepped(d: Daemon, e: Step, c: Setup): Daemon
    requires Can(d, e)
  {
    match e
    case Reading(sn, props) =>
      d.(known := d.known + {sn}, fleet := d.fleet[sn := Merged(StateOf(d.fleet, sn), props)])
    case Set(sn, mode, at, accepted) =>
      if sn !in d.known then d else d.(fleet := AfterCommand(d.fleet, sn, mode, at, accepted, c))
    case Scan(now) => d.(turns := StaleUnits(d.fleet, now, c.timeout))
    case Turn(sn, at, accepted) =>
      var d' := d.(turns := d.turns - {sn});
      if sn !in d.known then d' else d'.(fleet := AfterCommand(d.fleet, sn, Normal, at, accepted, c))
  }

  ghost function AfterCommand(fleet: Fleet, sn: string, mode: Mode, at: int, accepted: bool, c: Setup): Fleet {
    fleet[sn := Commanded(StateOf(fleet, sn), mode, at, c.chargeW, accepted).state]
  }

  /** The daemon after the steps, if each of them could be made. */
  ghost function Course(d: Daemon, steps: seq<Step>, c: Setup): Option<Daemon> {
    if steps == [] then Some(d)
    else
      var before, e := Course(d, steps[..|steps| - 1], c), steps[|steps| - 1];
      if before.Some? && Can(before.value, e) then Some(Stepped(before.value, e, c)) else None
  }

  // ---------------------------------------------------------------- every course

  ghost predicate Ready(d: Daemon) {
    && d.turns <= d.fleet.Keys <= d.known
    && forall sn :: sn in d.fleet ==> Good(d.fleet[sn])
  }

  lemma {:induction false} StepStaysReady(d: Daemon, e: Step, c: Setup)
    requires Ready(d) && Can(d, e)
    ensures Ready(Stepped(d, e, c))
  {
    assert Good(INITIAL);
    match e
    case Reading(sn, _) => assert Good(StateOf(d.fleet, sn));
    case Set(sn, mode, at, accepted) =>
      CommandKeepsGood(StateOf(d.fleet, sn), mode, at, c.chargeW, accepted);
      hide Commanded, Good;
    case Scan(_) =>
    case Turn(sn, at, accepted) =>
      CommandKeepsGood(StateOf(d.fleet, sn), Normal, at, c.chargeW, accepted);
      hide Commanded, Good;
  }

  /** From a start without units, in every course: a unit with a state has a known
      serial, so the fallback never passes one over, and whatever is out of normal
      has something to go back to. */
  lemma {:induction false} EveryUnitIsKnown(known: set<string>, steps: seq<Step>, c: Setup)
    requires Course(Daemon(known, map[], {}), steps, c).Some?
    ensures Ready(Course(Daemon(known, map[], {}), steps, c).value)
  {
    if steps != [] {
      var front := steps[..|steps| - 1];
      EveryUnitIsKnown(known, front, c);
      StepStaysReady(Course(Daemon(known, map[], {}), front, c).value, steps[|steps| - 1], c);
    }
  }

  /** What a step does to one unit: a command for it stamps its time; anything else
      leaves its mode, what is saved and the time. */
  lemma {:induction false} StepOfUnit(d: Daemon, e: Step, c: Setup, sn: string)
    requires Ready(d) && Can(d, e)
    ensures var s, s' := StateOf(d.fleet, sn), StateOf(Stepped(d, e, c).fleet, sn);
      if ((e.Set? && sn in d.known) || e.Turn?) && e.sn == sn then s'.lastCmd == e.at
      else s'.mode == s.mode && s'.saved == s.saved && s'.lastCmd == s.lastCmd
  {
    if e.Set? {
      CommandStampsTime(StateOf(d.fleet, e.sn), e.mode, e.at, c.chargeW, e.accepted);
    }
    if e.Turn? {
      CommandStampsTime(StateOf(d.fleet, e.sn), Normal, e.at, c.chargeW, e.accepted);
    }
    hide Commanded;
  }

  // ------------------------------------------------------ one pass, disturbed at will

  /** No second scan, and the clock does not go back behind the first. */
  ghost predicate WithinPass(steps: seq<Step>, now: int) {
    forall i :: 0 <= i < |steps| ==>
      !steps[i].Scan? && (steps[i].Set? || steps[i].Turn? ==> steps[i].at >= now)
  }

  /** Reports and commands of any unit may fall between the scan and the turns: what
      is overdue all along is still to have its turn. */
  lemma {:induction false} OverdueIsListed(d: Daemon, now: int, steps: seq<Step>, c: Setup, sn: string)
    requires c.timeout > 0 && Ready(d) && d.turns == {} && WithinPass(steps, now)
    requires Course(Stepped(d, Scan(now), c), steps, c).Some?
    ensures var e := Course(Stepped(d, Scan(now), c), steps, c).value;
      && Ready(e)
      && (Stale(StateOf(e.fleet, sn), now, c.timeout) ==> sn in e.turns)
  {
    var d1 := Stepped(d, Scan(now), c);
    if steps == [] {
      StepStaysReady(d, Scan(now), c);
    } else {
      var front, e := steps[..|steps| - 1], steps[|steps| - 1];
      assert WithinPass(front, now);
      OverdueIsListed(d, now, front, c, sn);
      var before := Course(d1, front, c).value;
      StepStaysReady(before, e, c);
      StepOfUnit(before, e, c, sn);
      hide Commanded, Ready;
    }
  }

  /** So once every listed unit has had its turn, no unit is left in hold or charge with
      a last command as old as the timeout was at the scan, even when writes fail. */
  lemma {:induction false} NothingOverdueAfterAPass(d: Daemon, now: int, steps: seq<Step>, c: Setup, sn: string)
    requires c.timeout > 0 && Ready(d) && d.turns == {} && WithinPass(steps, now)
    requires Course(Stepped(d, Scan(now), c), steps, c).Some?
    requires Course(Stepped(d, Scan(now), c), steps, c).value.turns == {}
    ensures !Stale(StateOf(Course(Stepped(d, Scan(now), c), steps, c).value.fleet, sn), now, c.timeout)
  {
    OverdueIsListed(d, now, steps, c, sn);
  }

  ghost predicate NotCommanded(steps: seq<Step>, sn: string) {
    forall i :: 0 <= i < |steps| && steps[i].Set? ==> steps[i].sn != sn
  }

  /** A listed unit that has not had its turn is overdue exactly when no command for it
      has come since the scan. */
  lemma {:induction false} TurnFindsStaleIffUntouched(d: Daemon, steps: seq<Step>, now: int, c: Setup, sn: string)
    requires c.timeout > 0 && Ready(d) && sn in d.turns && Stale(StateOf(d.fleet, sn), now, c.timeout)
    requires WithinPass(steps, now) && Course(d, steps, c).Some? && sn in Course(d, steps, c).value.turns
    ensures var e := Course(d, steps, c).value;
      Ready(e) && (Stale(StateOf(e.fleet, sn), now, c.timeout) <==> NotCommanded(steps, sn))
  {
    if steps == [] {
    } else {
      var front, e := steps[..|steps| - 1], steps[|steps| - 1];
      assert WithinPass(front, now);
      var before := Course(d, front, c).value;
      TurnFindsStaleIffUntouched(d, front, now, c, sn);
      StepStaysReady(before, e, c);
      StepOfUnit(before, e, c, sn);
      assert NotCommanded(steps, sn) <==> NotCommanded(front, sn) && !(e.Set? && e.sn == sn);
      hide Commanded;
    }
  }

  /** The turn asks nothing again: whatever stands, a write that is taken ends it in
      normal, with everything that was saved in place. */
  lemma {:induction false} TurnEndsWhateverStands(d: Daemon, sn: string, at: int, c: Setup)
    requires Ready(d) && sn in d.turns
    ensures var s, s' := d.fleet[sn], Stepped(d, Turn(sn, at, true), c).fleet[sn];
      && s'.mode == Normal && s'.saved.None?
      && (s.saved.Some? ==> forall k :: k in s.saved.value ==> Reports(s'.props, k, s.saved.value[k]))
  {
    var s := d.fleet[sn];
    assert Commanded(s, Normal, at, c.chargeW, true).error.None?;
    SuccessSettles(s, Normal, at, c.chargeW, true);
    hide Commanded;
  }

  /** Hence a hold that evcc sends again between the scan and the turn, and that is
      taken, is ended all the same, although it is not overdue any more. */
  lemma {:induction false} ResentHoldIsEnded(d: Daemon, sn: string, sentAt: int, at: int, c: Setup)
    requires c.timeout > 0 && Ready(d) && sn in d.turns && d.fleet[sn].props != map[]
    ensures var again := Stepped(d, Set(sn, Hold, sentAt, true), c);
      && again.fleet[sn].mode == Hold && !Stale(again.fleet[sn], sentAt, c.timeout)
      && sn in again.turns
      && Stepped(again, Turn(sn, at, true), c).fleet[sn].mode == Normal
  {
    StepStaysReady(d, Set(sn, Hold, sentAt, true), c);
    var s := d.fleet[sn];
    assert Commanded(s, Hold, sentAt, c.chargeW, true).error.None?;
    SuccessSettles(s, Hold, sentAt, c.chargeW, true);
    CommandStampsTime(s, Hold, sentAt, c.chargeW, true);
    hide Commanded;
    TurnEndsWhateverStands(Stepped(d, Set(sn, Hold, sentAt, true), c), sn, at, c);
  }

  // ------------------------------------------------------------ when a hold ends

  /** The time of the last scan, or of the start. */
  ghost function LastScan(steps: seq<Step>, start: int): int {
    if steps == [] then start
    else if steps[|steps| - 1].Scan? then steps[|steps| - 1].now
    else LastScan(steps[..|steps| - 1], start)
  }

  /** Scans no further apart than a tick, and the unit's turn within the delay after its
      scan, with the write taken. */
  ghost predicate Ticks(steps: seq<Step>, start: int, tick: nat, delay: nat, sn: string) {
    forall i :: 0 <= i < |steps| ==> TickAt(steps[i], LastScan(steps[..i], start), tick, delay, sn)
  }

  ghost predicate TickAt(e: Step, last: int, tick: nat, delay: nat, sn: string) {
    && (e.Scan? ==> last <= e.now <= last + tick)
    && (e.Turn? && e.sn == sn ==> last <= e.at <= last + delay && e.accepted)
  }

  /** Where a hold nobody sends again stands: untouched before it is due; listed, once a
      scan has come that is at most a tick late; or over. */
  ghost predicate OnItsWay(held: State, s: State, listed: bool, last: int, timeout: int, tick: nat, delay: nat) {
    var due := held.lastCmd + timeout;
    var untouched := s.mode == held.mode && s.saved == held.saved && s.lastCmd == held.lastCmd;
    if last < due then untouched && !listed
    else if listed then untouched && last <= due + tick
    else s.mode == Normal && s.saved.None? && due <= s.lastCmd <= due + tick + delay
  }

  /** Left alone with the ticker running, a unit keeps its hold until a scan finds it as
      old as the timeout; it is back in normal at most one tick and one delay after
      the timeout. Reports, other units and what falls into a pass do not matter. */
  lemma {:induction false} HoldEndsInTime(
    d: Daemon, steps: seq<Step>, c: Setup, sn: string, start: int, tick: nat, delay: nat)
    requires Ready(d) && sn in d.fleet && sn !in d.turns && d.fleet[sn].mode != Normal
    requires start < d.fleet[sn].lastCmd + c.timeout
    requires Ticks(steps, start, tick, delay, sn) && NotCommanded(steps, sn) && Course(d, steps, c).Some?
    ensures var d' := Course(d, steps, c).value;
      && Ready(d') && sn in d'.fleet
      && OnItsWay(d.fleet[sn], d'.fleet[sn], sn in d'.turns, LastScan(steps, start), c.timeout, tick, delay)
  {
    if steps != [] {
      var front, e := steps[..|steps| - 1], steps[|steps| - 1];
      TicksBefore(steps, start, tick, delay, sn);
      HoldEndsInTime(d, front, c, sn, start, tick, delay);
      var before := Course(d, front, c).value;
      StepStaysReady(before, e, c);
      HoldStep(d.fleet[sn], before, e, c, sn, LastScan(front, start), tick, delay);
    }
  }

  lemma {:induction false} HoldStep(
    held: State, d: Daemon, e: Step, c: Setup, sn: string, last: int, tick: nat, delay: nat)
    requires Ready(d) && Can(d, e) && sn in d.fleet && held.mode != Normal
    requires OnItsWay(held, d.fleet[sn], sn in d.turns, last, c.timeout, tick, delay)
    requires TickAt(e, last, tick, delay, sn) && (e.Set? ==> e.sn != sn)
    ensures var d' := Stepped(d, e, c);
      && sn in d'.fleet
      && OnItsWay(held, d'.fleet[sn], sn in d'.turns, if e.Scan? then e.now else last, c.timeout, tick, delay)
  {
    StepOfUnit(d, e, c, sn);
    if e.Turn? && e.sn == sn {
      TurnEndsWhateverStands(d, sn, e.at, c);
    }
    hide Commanded, Ready;
  }

  lemma {:induction false} TicksBefore(steps: seq<Step>, start: int, tick: nat, delay: nat, sn: string)
    requires steps != [] && Ticks(steps, start, tick, delay, sn) && NotCommanded(steps, sn)
    ensures var front, e := steps[..|steps| - 1], steps[|steps| - 1];
      && Ticks(front, start, tick, delay, sn) && NotCommanded(front, sn)
      && (e.Set? ==> e.sn != sn)
      && LastScan(steps, start) == (if e.Scan? then e.now else LastScan(front, start))
      && TickAt(e, LastScan(front, start), tick, delay, sn)
  {
    var front := steps[..|steps| - 1];
    assert TickAt(steps[|front|], LastScan(steps[..|front|], start), tick, delay, sn);
    forall i | 0 <= i < |front| ensures TickAt(front[i], LastScan(front[..i], start), tick, delay, sn) {
      assert front[..i] == steps[..i];
      assert TickAt(steps[i], LastScan(steps[..i], start), tick, delay, sn);
    }
  }
}
