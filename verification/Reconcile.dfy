/** When a unit's published documents are checked for orphans: the signature and
    the two gates of reconcileOrphans (internal/coordinator/coordinator.go). */
module Reconcile {
  import opened Sequences

  type Topics = set<string>

  /** sort.Strings over a set's topics: some arrangement of each set. */
  ghost predicate Arranges(order: Topics -> seq<string>) {
    forall topics :: forall t :: t in order(topics) <==> t in topics
  }

  /** discoverySignature. */
  function Signature(published: Topics, order: Topics -> seq<string>): string {
    Join(order(published), '\n')
  }

  ghost predicate OneLine(published: Topics) {
    forall t :: t in published ==> t != "" && '\n' !in t
  }

  /** Two sets of topics have the same signature exactly when they are the same. */
  lemma {:induction false} SignatureTellsSetsApart(a: Topics, b: Topics, order: Topics -> seq<string>)
    requires Arranges(order) && OneLine(a) && OneLine(b)
    ensures Signature(a, order) == Signature(b, order) <==> a == b
  {
    SignatureSplits(a, order);
    SignatureSplits(b, order);
    if Signature(a, order) == Signature(b, order) {
      assert forall t :: t in a <==> t in order(a);
      assert forall t :: t in b <==> t in order(b);
    }
  }

  lemma {:induction false} SignatureSplits(a: Topics, order: Topics -> seq<string>)
    requires Arranges(order) && OneLine(a)
    ensures Split(Signature(a, order), '\n') == if order(a) == [] then [""] else order(a)
    ensures "" !in order(a)
  {
    if order(a) != [] {
      SplitOfJoin(order(a), '\n');
    }
  }

  /** last: the latest signature, "" before the first. started: the sets checked. */
  datatype Gate = Gate(last: string, busy: bool, started: seq<Topics>)

  datatype Event = Published(topics: Topics) | Finished

  ghost function Idle(): Gate { Gate("", false, []) }

  ghost predicate IsChange(g: Gate, e: Event, order: Topics -> seq<string>) {
    e.Published? && Signature(e.topics, order) != g.last
  }

  /** reconcileOrphans, up to the goroutine; or the end of the check it started. */
  ghost function After(g: Gate, e: Event, order: Topics -> seq<string>): Gate {
    match e
    case Finished => g.(busy := false)
    case Published(topics) =>
      var g' := g.(last := Signature(topics, order));
      if !IsChange(g, e, order) || g.busy then g' else g'.(busy := true, started := g.started + [topics])
  }

  class Reconciler {
    var last: string
    var busy: bool
    var started: seq<Topics>

    constructor ()
      ensures Held() == Idle()
    {
      last, busy, started := "", false, [];
    }

    ghost function Held(): Gate
      reads this
    {
      Gate(last, busy, started)
    }

    /** The signature is stored before the busy check. */
    method ReconcileOrphans(published: Topics, order: Topics -> seq<string>)
      modifies this
      ensures Held() == After(old(Held()), Published(published), order)
    {
      var sig := Signature(published, order);
      var changed := last != sig;
      last := sig;
      if !changed {
        return;
      }
      if busy {
        return;
      }
      busy := true;
      started := started + [published];
    }
  }

  ghost function Run(events: seq<Event>, order: Topics -> seq<string>): Gate {
    if events == [] then Idle() else After(Run(events[..|events| - 1], order), events[|events| - 1], order)
  }

  /** The published sets that differ from the one before. */
  ghost function Changes(events: seq<Event>, order: Topics -> seq<string>): seq<Topics> {
    if events == [] then []
    else
      var front, e := events[..|events| - 1], events[|events| - 1];
      Changes(front, order) + if IsChange(Run(front, order), e, order) then [e.topics] else []
  }

  ghost predicate IdleAtChanges(events: seq<Event>, order: Topics -> seq<string>) {
    forall i :: 0 <= i < |events| && IsChange(Run(events[..i], order), events[i], order) ==>
        !Run(events[..i], order).busy
  }

  /** Every changed set is checked exactly when none arrives during a check. */
  lemma {:induction false} EveryChangeIsCheckedIff(events: seq<Event>, order: Topics -> seq<string>)
    ensures Run(events, order).started == Changes(events, order) <==> IdleAtChanges(events, order)
    ensures |Run(events, order).started| <= |Changes(events, order)|
  {
    if events != [] {
      var front, e := events[..|events| - 1], events[|events| - 1];
      var g, g' := Run(front, order), Run(events, order);
      EveryChangeIsCheckedIff(front, order);
      IdleAtOneMore(front, e, order);
      assert events == front + [e];
      if IsChange(g, e, order) {
        assert Changes(events, order) == Changes(front, order) + [e.topics];
        assert g'.started == if g.busy then g.started else g.started + [e.topics];
        hide Run, Changes, IdleAtChanges, IsChange;
        assert |g.started| == |Changes(front, order)| ==> g.busy ==> g'.started != Changes(events, order);
        assert !g.busy && g'.started == Changes(events, order) ==>
          && g'.started[..|g.started|] == g.started
          && Changes(events, order)[..|Changes(front, order)|] == Changes(front, order);
      } else {
        assert Changes(events, order) == Changes(front, order) + [] && g'.started == g.started;
        hide Run, Changes, IdleAtChanges, IsChange;
      }
    }
  }

  lemma {:induction false} IdleAtOneMore(front: seq<Event>, e: Event, order: Topics -> seq<string>)
    ensures IdleAtChanges(front + [e], order) <==>
            IdleAtChanges(front, order) && (IsChange(Run(front, order), e, order) ==> !Run(front, order).busy)
  {
    var events := front + [e];
    assert events[..|front|] == front && events[|front|] == e;
    assert forall i :: 0 <= i < |front| ==> front[..i] == events[..i] && front[i] == events[i];
    hide Run, IsChange;
    if IdleAtChanges(events, order) {
      forall i | 0 <= i < |front| && IsChange(Run(front[..i], order), front[i], order)
        ensures !Run(front[..i], order).busy
      {
        assert IsChange(Run(events[..i], order), events[i], order);
      }
    }
  }

  /** One that does is never checked while the unit keeps publishing it: its
      signature is already the stored one. */
  lemma {:induction false} AMissedChangeStaysMissed(
      events: seq<Event>, topics: Topics, later: seq<Event>, order: Topics -> seq<string>)
    requires IsChange(Run(events, order), Published(topics), order) && Run(events, order).busy
    requires forall e :: e in later ==> e == Finished || e == Published(topics)
    ensures var g := Run(events + [Published(topics)] + later, order);
      g.started == Run(events, order).started && g.last == Signature(topics, order)
  {
    var all := events + [Published(topics)] + later;
    if later == [] {
      assert all[..|all| - 1] == events;
    } else {
      var less := later[..|later| - 1];
      assert all[..|all| - 1] == events + [Published(topics)] + less;
      assert later[|later| - 1] in later && forall e :: e in less ==> e in later;
      AMissedChangeStaysMissed(events, topics, less, order);
    }
  }

  // ------------------------------------------------------------------- spelled out

  /** A published set is a change exactly when it is not the one published before, checked
      or not; the first is one unless it is empty. */
  lemma {:induction false} ChangeIff(
      events: seq<Event>, last: Topics, ends: seq<Event>, topics: Topics, order: Topics -> seq<string>)
    requires Arranges(order) && OneLine(last) && OneLine(topics)
    requires forall i :: 0 <= i < |ends| ==> ends[i] == Finished
    ensures IsChange(Run(events + [Published(last)] + ends, order), Published(topics), order) <==> topics != last
    ensures IsChange(Run(ends, order), Published(topics), order) <==> topics != {}
  {
    EndsKeepLast(events + [Published(last)], ends, order);
    EndsKeepLast([], ends, order);
    assert (events + [Published(last)])[..|events|] == events;
    assert [] + ends == ends;
    SignatureTellsSetsApart(topics, last, order);
    SignatureTellsSetsApart(topics, {}, order);
    FirstIsIn(order({}));
    assert order({}) == [];
    hide Arranges, OneLine;
  }

  lemma {:induction false} FirstIsIn(s: seq<string>)
    ensures s == [] || s[0] in s
  {
  }

  lemma {:induction false} EndsKeepLast(events: seq<Event>, ends: seq<Event>, order: Topics -> seq<string>)
    requires forall i :: 0 <= i < |ends| ==> ends[i] == Finished
    ensures Run(events + ends, order).last == Run(events, order).last
  {
    if ends == [] {
      assert events + ends == events;
    } else {
      var front := ends[..|ends| - 1];
      assert (events + ends)[..|events + ends| - 1] == events + front;
      EndsKeepLast(events, front, order);
    }
  }

  /** A changed set is checked at once unless a check is under way, and one is until it
      ends; an unchanged one starts nothing. */
  lemma {:induction false} CheckStartsIff(events: seq<Event>, topics: Topics, order: Topics -> seq<string>)
    ensures var before, after := Run(events, order), Run(events + [Published(topics)], order);
      var starts := IsChange(before, Published(topics), order) && !before.busy;
      && after.started == before.started + (if starts then [topics] else [])
      && (after.busy <==> before.busy || starts)
    ensures var before, after := Run(events, order), Run(events + [Finished], order);
      after.started == before.started && !after.busy
    ensures !Run([], order).busy && Run([], order).started == []
  {
    assert (events + [Published(topics)])[..|events|] == events;
    assert (events + [Finished])[..|events|] == events;
    hide IsChange;
  }
}
