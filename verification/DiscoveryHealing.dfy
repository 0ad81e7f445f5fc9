/** What a lost document is worth: when the next report puts it back, the runs in
    which it does not, and what a run of sweeps and reports never touches. */
module DiscoveryHealing {
  import opened Sequences
  import opened HaRuntime
  import opened Discovery
  import opened DiscoveryLaws
  import opened DiscoveryRuns

  // ------------------------------------------------------ the steps, undisturbed

  /** With nothing in between, the moves of one document do what PublishOne does. */
  lemma {:induction false} UndisturbedPublish(s: System, c: nat, b: Bundle) returns (moves: seq<Move>)
    requires c !in s.publishes
    ensures Possible(s, moves) && End(s, moves) == s.(plane := PublishedOne(s.plane, b))
  {
    OneMove(s, [], Checks(c, b));
    moves := [] + [Checks(c, b)];
    var s1 := Moved(s, Checks(c, b));
    if Fresh(s.plane.sent, b) {
      OneMove(s, moves, Writes(c));
      moves := moves + [Writes(c)];
      var s2 := Moved(s1, Writes(c));
      if Published(s.plane.link, b).1 {
        OneMove(s, moves, Notes(c));
        moves := moves + [Notes(c)];
        hide Run, Published, Fresh;
        assert s.publishes[c := Publish(b, false)][c := Publish(b, true)] - {c} == s.publishes;
      } else {
        hide Run, Published, Fresh;
        assert s.publishes[c := Publish(b, false)] - {c} == s.publishes;
      }
    }
  }

  /** And the moves of a sweep what SweepOrphans does. */
  lemma {:induction false} UndisturbedSweep(s: System, w: nat, seen: seq<string>, published: set<string>)
    returns (moves: seq<Move>)
    requires w !in s.sweeps
    ensures Possible(s, moves) && End(s, moves) == s.(plane := Swept(s.plane, seen, published))
  {
    var orphans := Orphans(s.plane, seen, published);
    OneMove(s, [], Claims(w, seen, published));
    moves := [] + [Claims(w, seen, published)];
    if orphans != [] {
      var s1 := Moved(s, Claims(w, seen, published));
      var clears := ClearsAll(s1, w);
      RunInParts(s, moves, clears);
      OneMove(s, moves + clears, Forgets(w));
      moves := moves + clears + [Forgets(w)];
      hide Run, Cleared, Forgotten, Orphans;
      assert s.sweeps[w := Sweep(orphans, orphans)][w := Sweep([], orphans)] - {w} == s.sweeps;
    }
  }

  lemma {:induction false} ClearsAll(s: System, w: nat) returns (moves: seq<Move>)
    requires w in s.sweeps
    ensures Possible(s, moves)
    ensures End(s, moves) == s.(
      plane := s.plane.(link := Cleared(s.plane.link, s.sweeps[w].todo)),
      sweeps := s.sweeps[w := s.sweeps[w].(todo := [])])
    decreases |s.sweeps[w].todo|
  {
    if s.sweeps[w].todo == [] {
      moves := [];
      assert s.sweeps[w := s.sweeps[w].(todo := [])] == s.sweeps;
    } else {
      var s1 := Moved(s, Clears(w));
      var rest := ClearsAll(s1, w);
      RunFromNext(s, Clears(w), rest);
      moves := [Clears(w)] + rest;
      hide Run, ClearedOne;
      assert s1.sweeps[w := s1.sweeps[w].(todo := [])] == s.sweeps[w := s.sweeps[w].(todo := [])];
    }
  }

  // ----------------------------------------------------- exactly when it comes back

  /** A missing document that is reported is retained again exactly when it carries an
      id that does not count as sent, and its body does not count as written; with no
      unsent id nothing happens at all. */
  lemma {:induction false} ReportRestoresIff(p: Plane, b: Bundle)
    requires Lossless(p.link) && b.topic !in b.legacy && b.topic !in p.link.retained
    ensures b.topic in PublishedOne(p, b).link.retained <==>
            Fresh(p.sent, b) && Lookup(p.link.gate, b.topic) != Some(b.body)
    ensures b.topic in PublishedOne(p, b).link.retained ==> PublishedOne(p, b).link.retained[b.topic] == b.body
    ensures !Fresh(p.sent, b) ==> PublishedOne(p, b) == p
  {
    LosslessRetractions(p.link, b.legacy);
    hide Retracted, Fresh;
  }

  /** Once the connection was reset the body of a missing document never does. */
  lemma {:induction false} ReportRestoresIffFresh(p: Plane, b: Bundle)
    requires Lossless(p.link) && Remembered(p.link, b.topic) && b.topic !in b.legacy
    requires b.topic !in p.link.retained
    ensures b.topic in PublishedOne(p, b).link.retained <==> Fresh(p.sent, b)
    ensures Fresh(p.sent, b) ==> PublishedOne(p, b).link.retained[b.topic] == b.body
    ensures !Fresh(p.sent, b) ==> PublishedOne(p, b) == p
  {
    ReportRestoresIff(p, b);
    hide PublishedOne, Fresh;
  }

  // ------------------------------------------------------------------ three runs

  /** The process declared what it likes so far, but not the topic. */
  ghost function Begun(topic: string, stale: string, declared: set<string>, fates: nat -> Fate): System {
    System(Plane(Link(map[topic := stale], [], fates, {}, map[], declared), {}, map[]), map[], map[])
  }

  /** After the sweep took its claims, a report writes the document it lists. */
  ghost function WrittenInSweep(b: Bundle, declared: set<string>, fates: nat -> Fate): System {
    System(Plane(Link(map[b.topic := b.body], [Write(b.topic, Some(b.body), Delivered)], fates,
                      {}, map[b.topic := b.body], declared + {b.topic}), {}, map[]),
           map[0 := Publish(b, true)], map[0 := Sweep([b.topic], [b.topic])])
  }

  /** A document, and a sweep of whatever report came before, that meet. */
  ghost predicate Meeting(b: Bundle, published: set<string>, declared: set<string>, fates: nat -> Fate) {
    && b.legacy == [] && b.ids != [] && b.topic !in published && b.topic !in declared
    && forall n: nat :: fates(n) == Delivered
  }

  lemma {:induction false} SweepMeetsReport(
      b: Bundle, stale: string, published: set<string>, declared: set<string>, fates: nat -> Fate)
    requires Meeting(b, published, declared, fates)
    ensures Run(Begun(b.topic, stale, declared, fates), [Claims(0, [b.topic], published), Checks(0, b), Writes(0)]) ==
            Some(WrittenInSweep(b, declared, fates))
  {
    var s, claims := Begun(b.topic, stale, declared, fates), Claims(0, [b.topic], published);
    var s1 := s.(sweeps := map[0 := Sweep([b.topic], [b.topic])]);
    assert Orphans(s.plane, [b.topic], published) == [b.topic];
    OneMove(s, [], claims);
    assert [] + [claims] == [claims];
    assert b.ids[0] in b.ids;
    OneMove(s, [claims], Checks(0, b));
    var s2 := s1.(publishes := map[0 := Publish(b, false)]);
    assert [claims] + [Checks(0, b)] == [claims, Checks(0, b)];
    assert Moved(s1, Checks(0, b)) == s2;
    OneMove(s, [claims, Checks(0, b)], Writes(0));
    assert [claims, Checks(0, b)] + [Writes(0)] == [claims, Checks(0, b), Writes(0)];
    hide Run;
    assert Moved(s2, Writes(0)) == WrittenInSweep(b, declared, fates);
  }

  /** A sweep finds a document of an earlier process that the report it follows does not
      render, and takes its claims; the next report writes it; the sweep clears it.
      Noted before the sweep forgets, it comes back with the report after. */
  lemma {:induction false} SweptWhileReported(
      b: Bundle, stale: string, published: set<string>, declared: set<string>, fates: nat -> Fate)
    requires Meeting(b, published, declared, fates)
    ensures var e := Run(Begun(b.topic, stale, declared, fates),
        [Claims(0, [b.topic], published), Checks(0, b), Writes(0)] + [Notes(0)] + [Clears(0)] + [Forgets(0)]);
      && e.Some? && Missing(e.value, b.topic)
      && b.topic in PublishedOne(e.value.plane, b).link.retained
  {
    SweepMeetsReport(b, stale, published, declared, fates);
    var s, front := Begun(b.topic, stale, declared, fates), [Claims(0, [b.topic], published), Checks(0, b), Writes(0)];
    var s3 := WrittenInSweep(b, declared, fates);
    OneMove(s, front, Notes(0));
    OneMove(s, front + [Notes(0)], Clears(0));
    var s5 := Moved(Moved(s3, Notes(0)), Clears(0));
    assert s5.sweeps[0] == Sweep([], [b.topic]);
    OneMove(s, front + [Notes(0)] + [Clears(0)], Forgets(0));
    hide Run;
    var p := Moved(s5, Forgets(0)).plane;
    ForgottenOne(s5.plane, b.topic);
    assert b.ids[0] in b.ids && b.ids[0] !in p.sent;
    ReportRestoresIffFresh(p, b);
  }

  lemma {:induction false} ForgottenOne(p: Plane, topic: string)
    ensures Forgotten(p, [topic]) == p.(sent := p.sent - Recorded(p.byTopic, topic), byTopic := p.byTopic - {topic})
  {
    assert [topic][1..] == [];
  }

  /** Noted after the sweep has forgotten, it counts as sent although the broker has
      it no longer: every report is a no-op, until a reconnect. */
  lemma {:induction false} SweptForGood(
      b: Bundle, stale: string, published: set<string>, declared: set<string>, fates: nat -> Fate)
    requires Meeting(b, published, declared, fates)
    ensures var e := Run(Begun(b.topic, stale, declared, fates),
        [Claims(0, [b.topic], published), Checks(0, b), Writes(0)] + [Clears(0)] + [Forgets(0)] + [Notes(0)]);
      && e.Some? && Missing(e.value, b.topic)
      && PublishedOne(e.value.plane, b) == e.value.plane
      && b.topic in Online(e.value.plane, [b]).link.retained
  {
    SweepMeetsReport(b, stale, published, declared, fates);
    var s, front := Begun(b.topic, stale, declared, fates), [Claims(0, [b.topic], published), Checks(0, b), Writes(0)];
    var s3 := WrittenInSweep(b, declared, fates);
    OneMove(s, front, Clears(0));
    var s4 := Moved(s3, Clears(0));
    assert s4.sweeps[0] == Sweep([], [b.topic]);
    OneMove(s, front + [Clears(0)], Forgets(0));
    ForgottenOne(s4.plane, b.topic);
    OneMove(s, front + [Clears(0)] + [Forgets(0)], Notes(0));
    hide Run;
    var p := Moved(Moved(s4, Forgets(0)), Notes(0)).plane;
    assert b.topic !in p.link.retained && p.sent == Ids(b);
    var q := Plane(ResetLink(p.link), {}, p.byTopic);
    assert b.ids[0] in b.ids && Fresh(q.sent, b);
    ReportRestoresIffFresh(q, b);
    hide PublishedOne;
    assert [b][1..] == [] && PublishedAll(PublishedOne(q, b), []) == PublishedOne(q, b);
  }

  /** A write that was lost with the old connection, or skipped on the new one because the
      old one's is still remembered, and that is noted after Reopen: the reconnect's own
      publish of the document then does nothing. */
  lemma {:induction false} NotedAcrossReconnect(s: System, c: nat)
    requires c in s.publishes && s.publishes[c].written && s.plane.sent == {}
    requires Missing(s, s.publishes[c].b.topic)
    ensures var e := Moved(s, Notes(c));
      Missing(e, s.publishes[c].b.topic) && PublishedOne(e.plane, s.publishes[c].b) == e.plane
  {
    hide Published;
  }

  // -------------------------------------------- what sweeps and reports do not touch

  /** No window delivers the topic. */
  ghost predicate NeverSeen(moves: seq<Move>, topic: string) {
    forall i :: 0 <= i < |moves| && moves[i].Claims? ==> topic !in moves[i].seen
  }

  lemma {:induction false} RetractElsewhere(l: Link, topics: seq<string>, topic: string)
    requires topic !in topics
    ensures Lookup(Retracted(l, topics).0.retained, topic) == Lookup(l.retained, topic)
    decreases |topics|
  {
    if topics != [] {
      var (l1, ok) := Sent(l, topics[0], None);
      if topics[0] in l.superseded {
        RetractElsewhere(l, topics[1..], topic);
      } else if ok {
        RetractElsewhere(l1.(superseded := l1.superseded + {topics[0]}), topics[1..], topic);
      }
    }
  }

  lemma {:induction false} WriteElsewhere(l: Link, b: Bundle, topic: string)
    requires topic !in b.legacy
    ensures var l' := Published(l, b).0;
      && (topic in l.retained ==> topic in l'.retained)
      && (b.topic != topic ==> Lookup(l'.retained, topic) == Lookup(l.retained, topic))
  {
    RetractElsewhere(l, b.legacy, topic);
    hide Retracted;
  }

  lemma {:induction false} UnseenStep(s: System, m: Move, topic: string)
    requires Can(s, m) && Unsuperseded(s, topic) && forall w: nat :: !Listed(s, w, topic)
    requires SteadyFor([m], topic) && NeverSeen([m], topic)
    ensures var s' := Moved(s, m);
      && Unsuperseded(s', topic) && (forall w: nat :: !Listed(s', w, topic))
      && (topic in s.plane.link.retained ==> topic in s'.plane.link.retained)
      && (!WritesNow(s, m, topic) ==> Lookup(s'.plane.link.retained, topic) == Lookup(s.plane.link.retained, topic))
  {
    assert [m][0] == m;
    var s' := Moved(s, m);
    forall w: nat ensures !Listed(s', w, topic) {
      assert !Listed(s, w, topic);
      if m.Claims? {
        OrphansUnclaimed(s.plane, m.seen, m.published, topic);
      }
      hide Published, Fresh, ClearedOne, Forgotten, Orphans;
    }
    match m
    case Writes(c) =>
      WriteElsewhere(s.plane.link, s.publishes[c].b, topic);
      hide Published;
    case Forgets(w) =>
      ForgettingKeepsLink(s.plane, s.sweeps[w].orphans);
      hide Forgotten;
    case Clears(w) =>
      assert Listed(s, w, s.sweeps[w].todo[0]);
      assert !Listed(s, w, topic);
    case _ =>
  }

  /** In every run, on any connection: a retained topic no window delivers stays
      retained, and unless a document is written to it, as it is. */
  lemma {:induction false} UnseenIsKept(s: System, moves: seq<Move>, topic: string)
    requires Unsuperseded(s, topic) && forall w: nat :: !Listed(s, w, topic)
    requires Possible(s, moves) && SteadyFor(moves, topic) && NeverSeen(moves, topic)
    ensures var e := End(s, moves);
      && Unsuperseded(e, topic) && (forall w: nat :: !Listed(e, w, topic))
      && (topic in s.plane.link.retained ==> topic in e.plane.link.retained)
      && (NotWritten(s, moves, topic) ==> Lookup(e.plane.link.retained, topic) == Lookup(s.plane.link.retained, topic))
  {
    if moves != [] {
      var front, m := moves[..|moves| - 1], moves[|moves| - 1];
      assert SteadyFor(front, topic) && NeverSeen(front, topic);
      if NotWritten(s, moves, topic) {
        NotWrittenBefore(s, moves, topic);
      }
      UnseenIsKept(s, front, topic);
      UnseenStep(End(s, front), m, topic);
    }
  }

  /** An undisturbed sweep forgets nothing while what is recorded is declared: its
      Forget is for what is noted while it runs. */
  lemma {:induction false} UndisturbedSweepForgetsNothing(p: Plane, seen: seq<string>, published: set<string>)
    requires p.byTopic.Keys <= p.link.declared
    ensures var q := Swept(p, seen, published);
      q.sent == p.sent && q.byTopic == p.byTopic && q.link.declared == p.link.declared
  {
    var orphans := Orphans(p, seen, published);
    forall t | t in orphans ensures t !in p.link.declared {
      OrphansUnclaimed(p, seen, published, t);
    }
    NothingForgotten(p.(link := Cleared(p.link, orphans)), orphans);
    UndeclaredCleared(p.link, orphans);
    hide Orphans, Cleared, Forgotten;
  }

  lemma {:induction false} NothingForgotten(p: Plane, topics: seq<string>)
    requires forall t :: t in topics ==> t !in p.byTopic
    ensures Forgotten(p, topics) == p
    decreases |topics|
  {
    if topics != [] {
      assert topics[0] in topics;
      assert p.byTopic - {topics[0]} == p.byTopic && p.sent - {} == p.sent;
      NothingForgotten(p, topics[1..]);
    }
  }

  lemma {:induction false} UndeclaredCleared(l: Link, topics: seq<string>)
    requires forall t :: t in topics ==> t !in l.declared
    ensures Cleared(l, topics).declared == l.declared
    decreases |topics|
  {
    if topics != [] {
      assert topics[0] in topics;
      UndeclaredCleared(ClearedOne(l, topics[0]), topics[1..]);
    }
  }
}
