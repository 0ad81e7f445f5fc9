/** All units under one lock, and the fallback that ends a hold evcc has stopped
    re-sending (internal/coordinator/evcc.go). */
module EvccPlane {
  import opened Sequences
  import opened Evcc
  import opened EvccUnit

  type Fleet = map<string, State>

  function StateOf(fleet: Fleet, sn: string): State {
    if sn in fleet then fleet[sn] else INITIAL
  }

  /** What the world answers during one pass: the time of each command and
      whether the unit takes its write. */
  datatype Answers = Answers(at: string -> int, accepted: string -> bool)

  predicate Stale(s: State, now: int, timeout: int) {
    s.mode != Normal && now - s.lastCmd >= timeout
  }

  ghost function FallenBack(s: State, sn: string, chargeW: int, answers: Answers): State {
    Commanded(s, Normal, answers.at(sn), chargeW, answers.accepted(sn)).state
  }

  /** One pass: every stale unit that is known gets a `normal`. */
  ghost function Passed(
      fleet: Fleet, known: set<string>, now: int, timeout: int, chargeW: int, answers: Answers): Fleet {
    map sn | sn in fleet ::
      if Stale(fleet[sn], now, timeout) && sn in known then FallenBack(fleet[sn], sn, chargeW, answers) else fleet[sn]
  }

  class Plane {
    var units: map<string, Unit>

    /** No two serials share a unit. */
    ghost predicate Valid()
      reads this
    {
      forall a, b :: a in units && b in units && a != b ==> units[a] != units[b]
    }

    ghost function View(): Fleet
      reads this, units.Values
    {
      map sn | sn in units :: units[sn].View()
    }

    constructor ()
      ensures Valid() && View() == map[] && units == map[]
    {
      units := map[];
    }

    /** unit: the state of a serial, created in normal. */
    method UnitOf(sn: string) returns (u: Unit)
      requires Valid()
      modifies this
      ensures Valid()
      ensures sn in units && units[sn] == u && u.View() == StateOf(old(View()), sn)
      ensures fresh(units.Values - old(units.Values))
      ensures View() == old(View())[sn := StateOf(old(View()), sn)]
    {
      if sn in units {
        u := units[sn];
      } else {
        u := new Unit();
        units := units[sn := u];
      }
    }

    /** Where only the unit of one serial changed, only its state did. */
    twostate lemma OneUnitMoved(sn: string)
      requires old(Valid()) && units == old(units) && sn in units
      requires forall k :: k in units && units[k] != units[sn] ==> unchanged(units[k])
      ensures View() == old(View())[sn := units[sn].View()]
    {
    }

    /** publishEVCC: the merge under the lock, and what is then published. */
    method PublishEvcc(sn: string, report: Option<Props>) returns (values: seq<Value>, mode: Mode)
      requires Valid()
      modifies this, units.Values
      ensures Valid() && fresh(units.Values - old(units.Values))
      ensures var s := StateOf(old(View()), sn);
        var s' := if report.Some? then Merged(s, report.value) else s;
        View() == old(View())[sn := s'] && values == Derive(s'.props) && mode == s'.mode
    {
      hide Derive, Merged;
      var u := UnitOf(sn);
      label found:
      values, mode := u.Merge(report);
      OneUnitMoved@found(sn);
      hide View;
    }

    /** applyBatteryMode for one serial: no other unit moves. */
    method ApplyBatteryMode(sn: string, to: Mode, at: int, chargeW: int, accepted: bool)
      returns (write: Option<Settings>, error: Option<Error>)
      requires Valid()
      modifies this, units.Values
      ensures Valid() && fresh(units.Values - old(units.Values))
      ensures var o := Commanded(StateOf(old(View()), sn), to, at, chargeW, accepted);
        View() == old(View())[sn := o.state] && write == o.write && error == o.error
    {
      hide Commanded;
      var u := UnitOf(sn);
      label found:
      write, error := u.ApplyBatteryMode(to, at, chargeW, accepted);
      OneUnitMoved@found(sn);
      hide View;
    }

    /** The scan of evccFallback, under the lock. */
    method Scan(now: int, timeout: int) returns (stale: set<string>)
      ensures stale == StaleUnits(View(), now, timeout)
    {
      stale := set sn | sn in units && Stale(units[sn].View(), now, timeout);
    }

    /** evccFallback: scan, then one `normal` after the other. */
    method Fallback(known: set<string>, now: int, timeout: int, chargeW: int, answers: Answers)
      requires Valid()
      modifies this, units.Values
      ensures Valid() && fresh(units.Values - old(units.Values))
      ensures View() == Passed(old(View()), known, now, timeout, chargeW, answers)
    {
      ghost var before := View();
      var stale := Scan(now, timeout);
      ghost var done: set<string> := {};
      assert View() == Partly(before, known * done, chargeW, answers);
      hide Stale, StaleUnits, Partly, Commanded, View, Passed;
      while stale != {}
        invariant Valid() && fresh(units.Values - old(units.Values))
        invariant stale + done == StaleUnits(before, now, timeout) && stale !! done
        invariant View() == Partly(before, known * done, chargeW, answers)
        decreases stale
      {
        var sn :| sn in stale;
        stale := stale - {sn};
        PassStep(before, known, done, sn, chargeW, answers);
        done := done + {sn};
        if sn !in known {
          continue;
        }
        var write, error := ApplyBatteryMode(sn, Normal, answers.at(sn), chargeW, answers.accepted(sn));
      }
      PassEnds(before, known, now, timeout, chargeW, answers);
    }
  }

  ghost function StaleUnits(fleet: Fleet, now: int, timeout: int): (stale: set<string>)
    ensures stale <= fleet.Keys
  {
    set sn | sn in fleet && Stale(fleet[sn], now, timeout)
  }

  /** The fleet once these units have had their turn. */
  ghost function Partly(fleet: Fleet, served: set<string>, chargeW: int, answers: Answers): Fleet {
    map sn | sn in fleet :: if sn in served then FallenBack(fleet[sn], sn, chargeW, answers) else fleet[sn]
  }

  lemma {:induction false} PassStep(
      fleet: Fleet, known: set<string>, done: set<string>, sn: string, chargeW: int, answers: Answers)
    requires sn in fleet && sn !in done
    ensures var before := Partly(fleet, known * done, chargeW, answers);
      var after := Partly(fleet, known * (done + {sn}), chargeW, answers);
      && StateOf(before, sn) == fleet[sn]
      && after == if sn in known then before[sn := FallenBack(fleet[sn], sn, chargeW, answers)] else before
  {
    hide Commanded;
  }

  lemma {:induction false} PassEnds(
      fleet: Fleet, known: set<string>, now: int, timeout: int, chargeW: int, answers: Answers)
    ensures Partly(fleet, known * StaleUnits(fleet, now, timeout), chargeW, answers) ==
        Passed(fleet, known, now, timeout, chargeW, answers)
  {
    hide FallenBack;
  }

  // -------------------------------------------------------- what a pass achieves

  /** After a pass no known unit is in hold or charge with a last command as old
      as the timeout, whether the writes succeeded or not. */
  lemma {:induction false} NoStaleUnitAfterPass(
      fleet: Fleet, known: set<string>, now: int, timeout: int, chargeW: int, answers: Answers, sn: string)
    requires timeout > 0 && fleet.Keys <= known
    requires forall sn :: sn in fleet ==> answers.at(sn) >= now
    requires sn in fleet
    ensures !Stale(Passed(fleet, known, now, timeout, chargeW, answers)[sn], now, timeout)
  {
    if Stale(fleet[sn], now, timeout) {
      CommandStampsTime(fleet[sn], Normal, answers.at(sn), chargeW, answers.accepted(sn));
      hide Commanded;
    }
  }

  lemma {:induction false} CommandStampsTime(s: State, mode: Mode, at: int, chargeW: int, accepted: bool)
    ensures Commanded(s, mode, at, chargeW, accepted).state.lastCmd == at
  {
  }

  /** A stale unit whose write is taken is back in normal, with everything that
      was saved in place and nothing else moved; a fresh one is left alone. */
  lemma {:induction false} PassRestoresStaleUnits(
      fleet: Fleet, known: set<string>, now: int, timeout: int, chargeW: int, answers: Answers, sn: string)
    requires sn in fleet && Good(fleet[sn]) && sn in known
    ensures var after := Passed(fleet, known, now, timeout, chargeW, answers)[sn];
      if Stale(fleet[sn], now, timeout) && answers.accepted(sn) then
        && after.mode == Normal && after.saved.None?
        && (forall k :: k in fleet[sn].saved.value ==> Reports(after.props, k, fleet[sn].saved.value[k]))
        && (forall k :: k !in fleet[sn].saved.value && k in fleet[sn].props ==>
          k in after.props && after.props[k] == fleet[sn].props[k])
      else !Stale(fleet[sn], now, timeout) ==> after == fleet[sn]
  {
    if Stale(fleet[sn], now, timeout) && answers.accepted(sn) {
      assert Commanded(fleet[sn], Normal, answers.at(sn), chargeW, true).error.None?;
      SuccessSettles(fleet[sn], Normal, answers.at(sn), chargeW, true);
      hide Commanded;
    }
  }

  /** A unit whose serial is not known is left alone by a pass, and no unit comes or goes. */
  lemma {:induction false} UnknownUnitsStay(
      fleet: Fleet, known: set<string>, now: int, timeout: int, chargeW: int, answers: Answers, sn: string)
    ensures var after := Passed(fleet, known, now, timeout, chargeW, answers);
      && after.Keys == fleet.Keys
      && (sn !in known ==> Lookup(after, sn) == Lookup(fleet, sn))
  {
    hide Commanded;
  }
}
