/** What a new connection inherits. PublishOnline resets the runtime only after the link
    is up, and a report may come first: which documents then go out before what they
    supersede is retracted, which superseded configs stay, and until when
    (internal/coordinator/coordinator.go, internal/hass/discovery.go). */
module DiscoveryReconnect {
  import opened Sequences
  import opened HaRuntime
  import opened Discovery
  import opened DiscoveryLaws
  import opened DiscoveryRuns
  import opened DiscoverySent

  ghost predicate OneConnection(moves: seq<Move>) {
    forall i :: 0 <= i < |moves| ==> !moves[i].Reconnects?
  }

  ghost predicate NoReset(moves: seq<Move>) {
    forall i :: 0 <= i < |moves| ==> !moves[i].Resets?
  }

  /** From its last reconnect on a run is a run on one connection, which begins with the
      store it found, an empty log and all that was remembered and under way before. */
  lemma {:induction false} LastConnection(s: System, moves: seq<Move>, c: nat)
    requires Possible(s, moves) && c < |moves| && moves[c].Reconnects? && OneConnection(moves[c + 1..])
    ensures Possible(s, moves[..c]) && Possible(s, moves[..c + 1])
    ensures var before, here := End(s, moves[..c]), End(s, moves[..c + 1]);
      && here.plane.link == Reconnected(before.plane.link, moves[c].retained, moves[c].fates)
      && here.plane.link.log == [] && here.plane.link.superseded == before.plane.link.superseded
      && Possible(here, moves[c + 1..]) && End(here, moves[c + 1..]) == End(s, moves)
  {
    PrefixPossible(s, moves, c);
    PrefixPossible(s, moves, c + 1);
    assert moves[..c + 1][..c] == moves[..c];
    TailPart(s, moves, c + 1, |moves|);
    assert moves[c + 1..][..|moves| - (c + 1)] == moves[c + 1..] && moves[..|moves|] == moves;
  }

  // ------------------------------------------------------ remembered, but not of here

  /** Remembered as retracted, but not by a retraction on this connection. */
  ghost predicate Unbacked(l: Link, t: string) {
    t in l.superseded && !RetractedIn(l.log, t)
  }

  ghost predicate Extends(log: seq<Write>, log': seq<Write>) {
    |log| <= |log'| && log'[..|log|] == log
  }

  lemma {:induction false} StillRetracted(log: seq<Write>, log': seq<Write>, t: string)
    requires Extends(log, log') && RetractedIn(log, t)
    ensures RetractedIn(log', t)
  {
    RetractedStays(log, log'[|log|..], t);
    assert log + log'[|log|..] == log';
  }

  /** What is added to the log retracts what was not remembered, and nothing else. */
  ghost predicate AddsRetractions(l: Link, log': seq<Write>) {
    && Extends(l.log, log')
    && forall n :: |l.log| <= n < |log'| ==> log'[n].body.None? && log'[n].topic !in l.superseded
  }

  lemma {:induction false} RetractionsExact(l: Link, topics: seq<string>)
    ensures var (l', ok) := Retracted(l, topics);
      && AddsRetractions(l, l'.log)
      && l.superseded <= l'.superseded
      && (forall t :: t in l'.superseded && t !in l.superseded ==> RetractedIn(l'.log, t))
      && (ok ==> forall t :: t in topics ==> t in l'.superseded)
    decreases |topics|
  {
    if topics == [] {
      assert l.log[..|l.log|] == l.log;
    } else if topics[0] in l.superseded {
      RetractionsExact(l, topics[1..]);
      assert forall t :: t in topics ==> t == topics[0] || t in topics[1..];
    } else {
      var (l1, ok) := Sent(l, topics[0], None);
      assert l1.log[..|l.log|] == l.log;
      if ok {
        var l2 := l1.(superseded := l1.superseded + {topics[0]});
        RetractionsExact(l2, topics[1..]);
        var l' := Retracted(l2, topics[1..]).0;
        assert Retracts(l1.log[|l.log|], topics[0]);
        StillRetracted(l2.log, l'.log, topics[0]);
        assert l'.log[..|l.log|] == l'.log[..|l2.log|][..|l.log|];
        assert l'.log[|l.log|] == l'.log[..|l2.log|][|l.log|];
        assert forall t :: t in topics ==> t == topics[0] || t in topics[1..];
        hide Retracted;
      }
    }
  }

  lemma {:induction false} AddedDoNotConcern(l: Link, log': seq<Write>, t: string)
    requires AddsRetractions(l, log') && t in l.superseded
    ensures RetractedIn(log', t) <==> RetractedIn(l.log, t)
  {
    if RetractedIn(log', t) {
      var i :| 0 <= i < |log'| && Retracts(log'[i], t);
      assert i < |l.log|;
      assert l.log[i] == log'[..|l.log|][i];
    }
    if RetractedIn(l.log, t) {
      StillRetracted(l.log, log', t);
    }
  }

  /** A document's turn at the runtime: nothing gets unbacked, and where its body goes on
      the log, what it supersedes lacks a retraction exactly when it is unbacked. */
  lemma {:induction false} PublishedExactly(l: Link, b: Bundle, t: string)
    ensures var l' := Published(l, b).0;
      && Extends(l.log, l'.log)
      && (Unbacked(l', t) <==> Unbacked(l, t) && !RetractedIn(l'.log, t))
      && forall n :: |l.log| <= n < |l'.log| && l'.log[n].body.Some? && t in b.legacy ==>
           (!RetractedIn(l'.log[..n], t) <==> Unbacked(l, t))
  {
    var (l1, ok) := Retracted(l, b.legacy);
    RetractionsExact(l, b.legacy);
    hide Retracted;
    var l' := Published(l, b).0;
    if l'.log != l1.log {
      var w := l'.log[|l1.log|];
      assert l'.log == l1.log + [w] && l'.log[..|l1.log|] == l1.log;
      assert l'.log[..|l.log|] == l1.log[..|l.log|];
      BodyRetractsNothing(l1.log, w, t);
      forall n | |l.log| <= n < |l1.log| ensures l'.log[n].body.None? {
        assert l'.log[n] == l1.log[n];
      }
    }
    if t in l.superseded {
      AddedDoNotConcern(l, l1.log, t);
    }
  }

  lemma {:induction false} BodyRetractsNothing(log: seq<Write>, w: Write, t: string)
    requires w.body.Some?
    ensures RetractedIn(log + [w], t) <==> RetractedIn(log, t)
  {
    if RetractedIn(log, t) {
      RetractedStays(log, [w], t);
    }
    if RetractedIn(log + [w], t) {
      var i :| 0 <= i < |log + [w]| && Retracts((log + [w])[i], t);
      assert i < |log|;
      assert Retracts(log[i], t);
    }
  }

  lemma {:induction false} UnbackedStep(s: System, m: Move, t: string)
    requires Can(s, m) && !m.Reconnects?
    ensures var l, l' := s.plane.link, Moved(s, m).plane.link;
      && Extends(l.log, l'.log)
      && (Unbacked(l', t) <==> !m.Resets? && Unbacked(l, t) && !RetractedIn(l'.log, t))
  {
    var l := s.plane.link;
    assert l.log[..|l.log|] == l.log;
    match m
    case Writes(c) =>
      PublishedExactly(l, s.publishes[c].b, t);
      hide Published, RetractedIn;
    case Clears(w) =>
      var l' := ClearedOne(l, s.sweeps[w].todo[0]);
      assert l'.log[..|l.log|] == l.log;
      if RetractedIn(l.log, t) { StillRetracted(l.log, l'.log, t); }
    case Forgets(w) =>
      ForgettingKeepsLink(s.plane, s.sweeps[w].orphans);
      hide Forgotten;
    case _ =>
  }

  /** What is unbacked at any moment of a connection is what was when it began, as long
      as there was no Reset and no retraction of it since. */
  lemma {:induction false} UnbackedIff(s: System, moves: seq<Move>, t: string)
    requires Possible(s, moves) && OneConnection(moves)
    ensures var l, l' := s.plane.link, End(s, moves).plane.link;
      && Extends(l.log, l'.log)
      && (Unbacked(l', t) <==> NoReset(moves) && Unbacked(l, t) && !RetractedIn(l'.log, t))
  {
    var l := s.plane.link;
    if moves == [] {
      assert l.log[..|l.log|] == l.log;
    } else {
      var front, m := moves[..|moves| - 1], moves[|moves| - 1];
      UnbackedIff(s, front, t);
      var before, e := End(s, front), End(s, moves);
      assert e == Moved(before, m);
      UnbackedStep(before, m, t);
      assert NoReset(moves) <==> NoReset(front) && !m.Resets?;
      var l1, l' := before.plane.link, e.plane.link;
      assert l'.log[..|l.log|] == l'.log[..|l1.log|][..|l.log|];
      if RetractedIn(l1.log, t) { StillRetracted(l1.log, l'.log, t); }
      hide Run, Unbacked, RetractedIn;
    }
  }

  // ------------------------------------------------- (a) a document before a retraction

  /** On a connection that refuses or loses what it likes: where a document goes out, a
      config it supersedes has no retraction before it on this connection exactly when
      that config was remembered from an earlier one, no Reset has come yet, and nothing
      has retracted it here. */
  lemma {:induction false} OutBeforeRetractionIff(s: System, moves: seq<Move>, i: nat, n: nat, t: string)
    requires Possible(s, moves) && OneConnection(moves) && i < |moves| && moves[i].Writes?
    requires Possible(s, moves[..i]) && Can(End(s, moves[..i]), moves[i])
    requires var before := End(s, moves[..i]);
      var l, l' := before.plane.link, Moved(before, moves[i]).plane.link;
      && |l.log| <= n < |l'.log| && l'.log[n].body.Some?
      && t in before.publishes[moves[i].c].b.legacy
    ensures var before := End(s, moves[..i]);
      !RetractedIn(Moved(before, moves[i]).plane.link.log[..n], t) <==>
      Unbacked(s.plane.link, t) && NoReset(moves[..i]) && !RetractedIn(before.plane.link.log, t)
  {
    var before := End(s, moves[..i]);
    UnbackedIff(s, moves[..i], t);
    PublishedExactly(before.plane.link, before.publishes[moves[i].c].b, t);
    hide Run, Published, Unbacked, RetractedIn;
  }

  /** So from the first Reset on, or where a connection begins with nothing remembered
      from another, every document goes out behind all retractions it asks for. */
  lemma {:induction false} WrittenAfterRetractions(s: System, moves: seq<Move>, i: nat)
    requires Possible(s, moves) && OneConnection(moves) && i < |moves| && moves[i].Writes?
    requires MemoBacked(s.plane.link) || !NoReset(moves[..i])
    ensures Possible(s, moves[..i]) && Can(End(s, moves[..i]), moves[i])
    ensures var before := End(s, moves[..i]);
      var l, l' := before.plane.link, Moved(before, moves[i]).plane.link;
      && Extends(l.log, l'.log)
      && forall n :: |l.log| <= n < |l'.log| && l'.log[n].body.Some? ==>
           AllRetracted(l'.log[..n], before.publishes[moves[i].c].b.legacy)
  {
    PrefixPossible(s, moves, i);
    var before := End(s, moves[..i]);
    var b := before.publishes[moves[i].c].b;
    var l, l' := before.plane.link, Moved(before, moves[i]).plane.link;
    PublishedExactly(l, b, "");
    forall n | |l.log| <= n < |l'.log| && l'.log[n].body.Some? ensures AllRetracted(l'.log[..n], b.legacy) {
      forall t | t in b.legacy ensures RetractedIn(l'.log[..n], t) {
        OutBeforeRetractionIff(s, moves, i, n, t);
      }
    }
    hide Run, Published;
  }

  // --------------------------------------------------- (b) a superseded config that stays

  /** The topic is an old config's and no document's. */
  ghost predicate ConfigOnly(s: System, moves: seq<Move>, t: string) {
    && (forall c :: c in s.publishes ==> s.publishes[c].b.topic != t)
    && (forall i :: 0 <= i < |moves| && moves[i].Checks? ==> moves[i].b.topic != t)
  }

  /** A document that supersedes the topic is written. */
  ghost predicate SupersedesAt(s: System, moves: seq<Move>, i: nat, t: string) {
    && i < |moves| && Possible(s, moves[..i]) && moves[i].Writes? && Can(End(s, moves[..i]), moves[i])
    && t in End(s, moves[..i]).publishes[moves[i].c].b.legacy
  }

  /** That retracts it, unless it was remembered as retracted when the connection began
      and no Reset has come. */
  ghost predicate RetractsAt(s: System, moves: seq<Move>, i: nat, t: string) {
    SupersedesAt(s, moves, i, t) && !(t in s.plane.link.superseded && NoReset(moves[..i]))
  }

  ghost predicate Removed(s: System, moves: seq<Move>, t: string) {
    || (exists k: nat, w: nat :: ClearedAt(s, moves, k, w, t))
    || (exists i: nat :: RetractsAt(s, moves, i, t))
  }

  ghost predicate RemovesNow(s: System, moves: seq<Move>, t: string)
    requires moves != [] && Possible(s, moves[..|moves| - 1])
  {
    ClearsNow(End(s, moves[..|moves| - 1]), moves[|moves| - 1], t) || RetractsAt(s, moves, |moves| - 1, t)
  }

  lemma {:induction false} RemovedOneMore(s: System, moves: seq<Move>, t: string)
    requires moves != [] && Possible(s, moves)
    ensures Removed(s, moves, t) <==> Removed(s, moves[..|moves| - 1], t) || RemovesNow(s, moves, t)
  {
    var front, last := moves[..|moves| - 1], |moves| - 1;
    forall i: nat ensures i < last ==> (RetractsAt(s, moves, i, t) <==> RetractsAt(s, front, i, t)) {
      assert i < last ==> front[..i] == moves[..i];
    }
    forall i: nat, w: nat ensures i < last ==> (ClearedAt(s, moves, i, w, t) <==> ClearedAt(s, front, i, w, t)) {
      assert i < last ==> front[..i] == moves[..i];
    }
    assert RemovesNow(s, moves, t) <==>
      RetractsAt(s, moves, last, t) || exists w: nat :: ClearedAt(s, moves, last, w, t) by {
      if ClearsNow(End(s, front), moves[last], t) {
        assert ClearedAt(s, moves, last, moves[last].w, t);
      }
    }
    assert forall i: nat :: i >= |moves| ==> !RetractsAt(s, moves, i, t);
    hide Run, RetractsAt, ClearedAt, RemovesNow;
    RemovedIndex(s, moves, front, t, last);
  }

  lemma {:induction false} RemovedIndex(s: System, moves: seq<Move>, front: seq<Move>, t: string, last: nat)
    requires |moves| == last + 1 && |front| == last
    requires forall i: nat :: i < last ==> (RetractsAt(s, moves, i, t) <==> RetractsAt(s, front, i, t))
    requires forall i: nat, w: nat :: i < last ==> (ClearedAt(s, moves, i, w, t) <==> ClearedAt(s, front, i, w, t))
    ensures Removed(s, moves, t) <==>
            || Removed(s, front, t) || RetractsAt(s, moves, last, t) || exists w: nat :: ClearedAt(s, moves, last, w, t)
  {
    assert forall i: nat :: RetractsAt(s, moves, i, t) ==> i <= last;
    assert forall i: nat :: RetractsAt(s, front, i, t) ==> i < last;
    assert forall i: nat, w: nat :: ClearedAt(s, moves, i, w, t) ==> i <= last;
    assert forall i: nat, w: nat :: ClearedAt(s, front, i, w, t) ==> i < last;
    hide RetractsAt, ClearedAt;
    if i: nat :| RetractsAt(s, front, i, t) { assert RetractsAt(s, moves, i, t); }
    if i: nat, w: nat :| ClearedAt(s, front, i, w, t) { assert ClearedAt(s, moves, i, w, t); }
    if i: nat :| RetractsAt(s, moves, i, t) && i != last { assert RetractsAt(s, front, i, t); }
    if i: nat, w: nat :| ClearedAt(s, moves, i, w, t) && i != last { assert ClearedAt(s, front, i, w, t); }
  }

  /** One document's turn on a lossless link, for a config. */
  lemma {:induction false} ConfigStep(l: Link, b: Bundle, t: string)
    requires Lossless(l) && b.topic != t
    ensures var l' := Published(l, b).0;
      && Lossless(l')
      && (t in l'.retained <==> t in l.retained && !(t in b.legacy && t !in l.superseded))
      && (t in l'.superseded <==> t in l.superseded || t in b.legacy)
  {
    LosslessRetractions(l, b.legacy);
    hide Retracted;
  }

  lemma {:induction false} ConfigMove(s: System, m: Move, t: string)
    requires Can(s, m) && !m.Reconnects? && Lossless(s.plane.link) && ConfigOnly(s, [m], t)
    ensures var s' := Moved(s, m);
      var l, l' := s.plane.link, s'.plane.link;
      var supersedes := m.Writes? && t in s.publishes[m.c].b.legacy;
      && Lossless(l') && ConfigOnly(s', [], t)
      && (t in l'.retained <==> t in l.retained && !ClearsNow(s, m, t) && !(supersedes && t !in l.superseded))
      && (t in l'.superseded <==> !m.Resets? && (t in l.superseded || supersedes))
  {
    assert [m][0] == m;
    match m
    case Writes(c) =>
      ConfigStep(s.plane.link, s.publishes[c].b, t);
      hide Published;
    case Forgets(w) =>
      ForgettingKeepsLink(s.plane, s.sweeps[w].orphans);
      hide Forgotten;
    case _ => hide Published, Fresh;
  }

  /** What a lossless connection has done about a config: the broker still retains it
      exactly when it did at the beginning, no sweep came to it, and every document
      superseding it was written before the first Reset while it was remembered as
      retracted on an earlier connection. */
  lemma {:induction false} SupersededStaysIff(s: System, moves: seq<Move>, t: string)
    requires Possible(s, moves) && OneConnection(moves) && ConfigOnly(s, moves, t)
    requires Lossless(s.plane.link)
    ensures var l, l' := s.plane.link, End(s, moves).plane.link;
      && Lossless(l') && ConfigOnly(End(s, moves), [], t)
      && (t in l'.retained <==> t in l.retained && !Removed(s, moves, t))
      && (t in l.superseded && NoReset(moves) ==> t in l'.superseded)
      && (t in l'.superseded && !(t in l.superseded && NoReset(moves)) ==> t !in l'.retained)
  {
    if moves == [] {
      assert !Removed(s, [], t);
    } else {
      var front, m := moves[..|moves| - 1], moves[|moves| - 1];
      var before := End(s, front);
      SupersededStaysIff(s, front, t);
      assert ConfigOnly(before, [m], t) by { assert [m][0] == moves[|moves| - 1]; }
      ConfigMove(before, m, t);
      RemovedOneMore(s, moves, t);
      assert End(s, moves) == Moved(before, m);
      assert NoReset(moves) <==> NoReset(front) && !m.Resets?;
      assert RetractsAt(s, moves, |front|, t) <==>
        m.Writes? && t in before.publishes[m.c].b.legacy && !(t in s.plane.link.superseded && NoReset(front));
      hide Run, Removed, NoReset, ConfigOnly, Lossless, RetractsAt;
    }
  }

  /** A retained config is removed by the next report of a document superseding it
      exactly when that carries an unsent id and the config is not remembered. */
  lemma {:induction false} ReportRemovesIff(p: Plane, b: Bundle, t: string)
    requires Lossless(p.link) && t in b.legacy && b.topic != t && t in p.link.retained
    ensures t !in PublishedOne(p, b).link.retained <==> Fresh(p.sent, b) && t !in p.link.superseded
  {
    if Fresh(p.sent, b) {
      ConfigStep(p.link, b, t);
    }
    hide Published, Fresh;
  }

  /** The whole story of a superseded config that is still retained at the end of a run
      whose last connection, which began after n moves, is lossless: the next report
      removes it exactly when that connection was reset or did not begin with it
      remembered, and some id of the report's document does not count as sent. */
  lemma {:induction false} SupersededIsRemovedIff(s: System, moves: seq<Move>, n: nat, b: Bundle, t: string)
    requires Possible(s, moves) && n <= |moves| && Possible(s, moves[..n]) && OneConnection(moves[n..])
    requires Lossless(End(s, moves[..n]).plane.link) && ConfigOnly(End(s, moves[..n]), moves[n..], t)
    requires t in b.legacy && b.topic != t && t in End(s, moves).plane.link.retained
    ensures var p := End(s, moves).plane;
      t !in PublishedOne(p, b).link.retained <==>
      && !(t in End(s, moves[..n]).plane.link.superseded && NoReset(moves[n..]))
      && exists id :: id in b.ids && !CountsAsSent(s, moves, id)
  {
    TailPart(s, moves, n, |moves|);
    assert moves[n..][..|moves| - n] == moves[n..] && moves[..|moves|] == moves;
    SupersededStaysIff(End(s, moves[..n]), moves[n..], t);
    ReportRemovesIff(End(s, moves).plane, b, t);
    FreshIff(s, moves, b);
    hide Run, PublishedOne, Fresh, CountsAsSent, Removed, NoReset;
  }

  // ------------------------------------------------- (c) a document that is not written

  /** No sweep has come to the topic, and no document with another body was written. */
  ghost predicate Untouched(s: System, moves: seq<Move>, topic: string, body: string)
    requires Possible(s, moves)
  {
    moves == [] ||
    var front, m := moves[..|moves| - 1], moves[|moves| - 1];
    var before := End(s, front);
    && Untouched(s, front, topic, body)
    && !ClearsNow(before, m, topic)
    && (WritesNow(before, m, topic) ==> before.publishes[m.c].b.body == body)
  }

  /** The broker does not retain the topic, but this body counts as written to it. */
  ghost predicate TakenForWritten(l: Link, topic: string, body: string) {
    topic !in l.retained && Lookup(l.gate, topic) == Some(body)
  }

  lemma {:induction false} WriteTakenForWritten(l: Link, b: Bundle, topic: string, body: string)
    requires Lossless(l) && topic !in b.legacy
    ensures var l' := Published(l, b).0;
      && Lossless(l')
      && (TakenForWritten(l', topic, body) <==>
          TakenForWritten(l, topic, body) && (b.topic == topic ==> b.body == body))
      && (b.topic == topic ==> (topic !in l'.retained <==> TakenForWritten(l, topic, b.body)))
  {
    LosslessRetractions(l, b.legacy);
    hide Retracted;
  }

  lemma {:induction false} TakenForWrittenStep(s: System, m: Move, topic: string, body: string)
    requires Can(s, m) && Lossless(s.plane.link) && Unsuperseded(s, topic) && SteadyMove(m, topic)
    ensures var s' := Moved(s, m);
      && Lossless(s'.plane.link) && Unsuperseded(s', topic)
      && (TakenForWritten(s'.plane.link, topic, body) <==>
          && TakenForWritten(s.plane.link, topic, body) && !m.Resets? && !ClearsNow(s, m, topic)
          && (WritesNow(s, m, topic) ==> s.publishes[m.c].b.body == body))
  {
    match m
    case Writes(c) =>
      WriteTakenForWritten(s.plane.link, s.publishes[c].b, topic, body);
      hide Published;
    case Forgets(w) =>
      ForgettingKeepsLink(s.plane, s.sweeps[w].orphans);
      hide Forgotten;
    case _ => hide Published, Fresh;
  }

  /** A body is taken for written although the broker lacks it exactly when that was so
      as the connection began, no Reset has come, and nothing has touched the topic. */
  lemma {:induction false} TakenForWrittenIff(s: System, moves: seq<Move>, topic: string, body: string)
    requires Possible(s, moves) && SteadyFor(moves, topic)
    requires Lossless(s.plane.link) && Unsuperseded(s, topic)
    ensures var e := End(s, moves);
      && Lossless(e.plane.link) && Unsuperseded(e, topic)
      && (TakenForWritten(e.plane.link, topic, body) <==>
          TakenForWritten(s.plane.link, topic, body) && NoReset(moves) && Untouched(s, moves, topic, body))
  {
    if moves != [] {
      var front, m := moves[..|moves| - 1], moves[|moves| - 1];
      assert SteadyFor(front, topic) && SteadyMove(m, topic);
      TakenForWrittenIff(s, front, topic, body);
      TakenForWrittenStep(End(s, front), m, topic, body);
      assert NoReset(moves) <==> NoReset(front) && !m.Resets?;
      hide NoReset, TakenForWritten;
    }
  }

  /** On a lossless connection a document is missing right after its own write exactly
      when the broker lacked it as the connection began while its body counted as
      written from an earlier one, no Reset has come yet, and nothing has touched it. */
  lemma {:induction false} WriteIsSkippedIff(s: System, moves: seq<Move>, i: nat, topic: string)
    requires Possible(s, moves) && WrittenAt(s, moves, i, topic) && SteadyFor(moves[..i], topic)
    requires Lossless(s.plane.link) && Unsuperseded(s, topic)
    ensures var before := End(s, moves[..i]);
      var body := before.publishes[moves[i].c].b.body;
      Missing(Moved(before, moves[i]), topic) <==>
      TakenForWritten(s.plane.link, topic, body) && NoReset(moves[..i]) && Untouched(s, moves[..i], topic, body)
  {
    var before := End(s, moves[..i]);
    var b := before.publishes[moves[i].c].b;
    TakenForWrittenIff(s, moves[..i], topic, b.body);
    WriteTakenForWritten(before.plane.link, b, topic, b.body);
    hide Run, Published, TakenForWritten, NoReset, Untouched;
  }

  // ------------------------------------------------------- a report before the Reset

  ghost predicate LossyThenGood(lossy: nat -> Fate, good: nat -> Fate) {
    lossy(0) == Lost && lossy(1) == Refused && forall n: nat :: good(n) == Delivered
  }

  /** On the first connection the retraction is lost and the document refused. */
  ghost function Dropped(b: Bundle, t: string, retained: Retained, lossy: nat -> Fate): System {
    System(Plane(Link(retained, [Write(t, None, Lost), Write(b.topic, Some(b.body), Refused)], lossy,
                      {t}, map[], {}), {}, map[]), map[], map[])
  }

  ghost function Begins(retained: Retained, lossy: nat -> Fate): System {
    System(Plane(Link(retained, [], lossy, {}, map[], {}), {}, map[]), map[], map[])
  }

  lemma {:induction false} DroppedRun(b: Bundle, t: string, retained: Retained, lossy: nat -> Fate, good: nat -> Fate)
    requires b.legacy == [t] && b.ids != [] && b.topic != t && LossyThenGood(lossy, good)
    ensures Run(Begins(retained, lossy), [Checks(0, b), Writes(0)]) == Some(Dropped(b, t, retained, lossy))
  {
    var s := Begins(retained, lossy);
    assert b.ids[0] in b.ids;
    OneMove(s, [], Checks(0, b));
    assert [] + [Checks(0, b)] == [Checks(0, b)];
    var s1 := s.(publishes := map[0 := Publish(b, false)]);
    assert Moved(s, Checks(0, b)) == s1;
    OneMove(s, [Checks(0, b)], Writes(0));
    assert [Checks(0, b)] + [Writes(0)] == [Checks(0, b), Writes(0)];
    assert [t][1..] == [];
    hide Run;
    assert s1.publishes - {0} == s.publishes;
    LostThenRefused(s.plane.link, b, t);
    hide Published;
    assert Moved(s1, Writes(0)) == Dropped(b, t, retained, lossy);
  }

  lemma {:induction false} LostThenRefused(l: Link, b: Bundle, t: string)
    requires b.legacy == [t] && l.log == [] && l.superseded == {} && l.gate == map[]
    requires l.fates(0) == Lost && l.fates(1) == Refused
    ensures Published(l, b) ==
            (l.(log := [Write(t, None, Lost), Write(b.topic, Some(b.body), Refused)], superseded := {t}), false)
  {
    var l1 := l.(log := [Write(t, None, Lost)]);
    assert l.log + [Write(t, None, Lost)] == [Write(t, None, Lost)];
    assert Sent(l, t, None) == (l1, true);
    var l2 := l1.(superseded := {t});
    assert [t][1..] == [] && l1.superseded + {t} == {t};
    assert Retracted(l, [t]) == Retracted(l2, []) == (l2, true);
    hide Retracted;
    assert l2.log + [Write(b.topic, Some(b.body), Refused)] ==
           [Write(t, None, Lost), Write(b.topic, Some(b.body), Refused)];
  }

  /** On the next, lossless one a report writes the document before Reset forgets the
      lost retraction, and it is noted after Reopen. The document is out with no
      retraction before it on this connection; it and the config it supersedes are both
      retained; the reconnect's own publish and every later report do nothing. Only the
      next reconnect removes the config. */
  lemma {:induction false} ReportBeforeReset(
      b: Bundle, t: string, retained: Retained, found: Retained, lossy: nat -> Fate, good: nat -> Fate)
    requires b.legacy == [t] && b.ids != [] && b.topic != t && t in found && LossyThenGood(lossy, good)
    ensures var e := Run(Begins(retained, lossy),
        [Checks(0, b), Writes(0)] + [Reconnects(found, good)] + [Checks(0, b)] + [Writes(0)]
        + [Resets] + [Reopens] + [Notes(0)]);
      && e.Some?
      && e.value.plane.link.log == [Write(b.topic, Some(b.body), Delivered)]
      && b.topic in e.value.plane.link.retained && t in e.value.plane.link.retained
      && PublishedOne(e.value.plane, b) == e.value.plane
      && t !in Online(e.value.plane, [b]).link.retained
  {
    DroppedRun(b, t, retained, lossy, good);
    var s, m2 := Begins(retained, lossy), [Checks(0, b), Writes(0)];
    var s2 := Dropped(b, t, retained, lossy);
    OneMove(s, m2, Reconnects(found, good));
    var m3, s3 := m2 + [Reconnects(found, good)], Moved(s2, Reconnects(found, good));
    assert b.ids[0] in b.ids;
    OneMove(s, m3, Checks(0, b));
    var m4, s4 := m3 + [Checks(0, b)], Moved(s3, Checks(0, b));
    assert s4 == s3.(publishes := map[0 := Publish(b, false)]);
    OneMove(s, m4, Writes(0));
    var m5, s5 := m4 + [Writes(0)], Moved(s4, Writes(0));
    WrittenUnretracted(s3, s4, b, t, found, good);
    OneMove(s, m5, Resets);
    OneMove(s, m5 + [Resets], Reopens);
    OneMove(s, m5 + [Resets] + [Reopens], Notes(0));
    hide Run;
    var p := Moved(Moved(Moved(s5, Resets), Reopens), Notes(0)).plane;
    assert p.sent == Ids(b);
    OnlineRemoves(p, b, t);
  }

  lemma {:induction false} WrittenUnretracted(
      s3: System, s4: System, b: Bundle, t: string, found: Retained, good: nat -> Fate)
    requires b.legacy == [t] && b.topic != t && forall n: nat :: good(n) == Delivered
    requires s3.plane.link == Link(found, [], good, {t}, map[], {})
    requires s4 == s3.(publishes := map[0 := Publish(b, false)])
    ensures var s5 := Moved(s4, Writes(0));
      && s5.plane == s3.plane.(link := Link(found[b.topic := b.body], [Write(b.topic, Some(b.body), Delivered)],
                                            good, {t}, map[b.topic := b.body], {b.topic}))
      && s5.publishes == map[0 := Publish(b, true)]
  {
    var l := s3.plane.link;
    assert [t][1..] == [];
    assert Retracted(l, [t]) == Retracted(l, []) == (l, true);
    hide Retracted;
    assert l.log + [Write(b.topic, Some(b.body), Delivered)] == [Write(b.topic, Some(b.body), Delivered)];
    assert l.declared + {b.topic} == {b.topic};
    assert s4.publishes[0 := Publish(b, true)] == map[0 := Publish(b, true)];
  }

  lemma {:induction false} OnlineRemoves(p: Plane, b: Bundle, t: string)
    requires Lossless(p.link) && t in b.legacy && b.topic != t && b.ids != []
    ensures t !in Online(p, [b]).link.retained
  {
    var q := Plane(ResetLink(p.link), {}, p.byTopic);
    assert b.ids[0] in b.ids && Fresh(q.sent, b);
    ConfigStep(q.link, b, t);
    hide Published, Fresh;
    assert [b][1..] == [] && PublishedAll(PublishedOne(q, b), []) == PublishedOne(q, b);
  }
}
