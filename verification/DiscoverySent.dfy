/** Which ids count as sent after any run, which are recorded for a topic, and what the
    next report does about a document that is missing (internal/hass/discovery.go).
    Reports of one document may render different ids, and documents may share them. */
module DiscoverySent {
  import opened Sequences
  import opened HaRuntime
  import opened Discovery
  import opened DiscoveryLaws
  import opened DiscoveryRuns
  import opened DiscoveryHealing

  // ------------------------------------------------------------------ what happened

  ghost predicate NotedAt(s: System, moves: seq<Move>, i: nat) {
    i < |moves| && Possible(s, moves[..i]) && moves[i].Notes? && Can(End(s, moves[..i]), moves[i])
  }

  ghost function DocumentAt(s: System, moves: seq<Move>, i: nat): Bundle
    requires NotedAt(s, moves, i)
  {
    End(s, moves[..i]).publishes[moves[i].c].b
  }

  /** A document carrying the id is noted. */
  ghost predicate NotesId(s: System, moves: seq<Move>, i: nat, id: string) {
    NotedAt(s, moves, i) && id in DocumentAt(s, moves, i).ids
  }

  /** A document on the topic is noted. */
  ghost predicate NotesTopic(s: System, moves: seq<Move>, i: nat, topic: string) {
    NotedAt(s, moves, i) && DocumentAt(s, moves, i).topic == topic
  }

  /** A sweep forgets the topic. */
  ghost predicate ForgetsAt(s: System, moves: seq<Move>, i: nat, topic: string) {
    && i < |moves| && Possible(s, moves[..i]) && moves[i].Forgets? && Can(End(s, moves[..i]), moves[i])
    && topic in End(s, moves[..i]).sweeps[moves[i].w].orphans
  }

  /** Everything stops counting as sent, or a topic is forgotten while the id is recorded
      for it. */
  ghost predicate ReleasesId(s: System, moves: seq<Move>, i: nat, id: string) {
    && i < |moves| && Possible(s, moves[..i])
    && (moves[i].Reopens? ||
        exists t :: ForgetsAt(s, moves, i, t) && id in Recorded(End(s, moves[..i]).plane.byTopic, t))
  }

  /** The id is on the list that is recorded for the topic. */
  ghost predicate RecordsId(s: System, moves: seq<Move>, i: nat, topic: string, id: string) {
    NotesTopic(s, moves, i, topic) && NotesId(s, moves, i, id)
  }

  /** What is recorded for the topic is replaced by a list without the id, or dropped. */
  ghost predicate UnrecordsId(s: System, moves: seq<Move>, i: nat, topic: string, id: string) {
    (NotesTopic(s, moves, i, topic) && !NotesId(s, moves, i, id)) || ForgetsAt(s, moves, i, topic)
  }

  // -------------------------------------------------------------- what holds of it

  /** Noted and not released since; or so from the beginning. */
  ghost predicate CountsAsSent(s: System, moves: seq<Move>, id: string) {
    || (exists i: nat :: NotesId(s, moves, i, id) && forall j: nat :: j > i ==> !ReleasesId(s, moves, j, id))
    || (id in s.plane.sent && forall j: nat :: !ReleasesId(s, moves, j, id))
  }

  /** Carried by the document last noted on the topic since the topic was last forgotten;
      or so from the beginning. */
  ghost predicate IsRecorded(s: System, moves: seq<Move>, topic: string, id: string) {
    || (exists i: nat :: RecordsId(s, moves, i, topic, id) && StaysRecorded(s, moves, i, topic, id))
    || (id in Recorded(s.plane.byTopic, topic) && forall j: nat :: !UnrecordsId(s, moves, j, topic, id))
  }

  ghost predicate StaysRecorded(s: System, moves: seq<Move>, i: nat, topic: string, id: string) {
    forall j: nat :: j > i ==> !UnrecordsId(s, moves, j, topic, id)
  }

  /** Set by some index and unset by none behind it; or so from the beginning. */
  ghost predicate Since(begun: bool, sets: nat -> bool, unsets: nat -> bool) {
    || (exists i: nat :: sets(i) && forall j: nat :: j > i ==> !unsets(j))
    || (begun && forall j: nat :: !unsets(j))
  }

  lemma {:induction false} OneMoreIndex(
      begun: bool, sets: nat -> bool, unsets: nat -> bool, sets': nat -> bool, unsets': nat -> bool, last: nat)
    requires forall i: nat :: i < last ==> (sets'(i) <==> sets(i)) && (unsets'(i) <==> unsets(i))
    requires forall i: nat :: i >= last ==> !sets(i) && !unsets(i)
    requires forall i: nat :: i > last ==> !sets'(i) && !unsets'(i)
    requires !(sets'(last) && unsets'(last))
    ensures Since(begun, sets', unsets') <==> sets'(last) || (Since(begun, sets, unsets) && !unsets'(last))
  {
    if i: nat :| sets(i) && (forall j: nat :: j > i ==> !unsets(j)) && !unsets'(last) {
      assert sets'(i);
      forall j: nat | j > i ensures !unsets'(j) { assert !unsets(j); }
    }
    if i: nat :| sets'(i) && (forall j: nat :: j > i ==> !unsets'(j)) && i != last {
      assert sets(i);
      forall j: nat | j > i ensures !unsets(j) { assert !unsets'(j); }
    }
    if begun && (forall j: nat :: !unsets(j)) && !unsets'(last) {
      forall j: nat ensures !unsets'(j) { assert !unsets(j); }
    }
    if begun && forall j: nat :: !unsets'(j) {
      forall j: nat ensures !unsets(j) { assert !unsets'(j); }
    }
  }

  // --------------------------------------------------------------- one move further

  lemma {:induction false} SameBefore(s: System, moves: seq<Move>, i: nat, topic: string, id: string)
    requires moves != [] && i < |moves| - 1
    ensures var front := moves[..|moves| - 1];
      && (NotesId(s, moves, i, id) <==> NotesId(s, front, i, id))
      && (NotesTopic(s, moves, i, topic) <==> NotesTopic(s, front, i, topic))
      && (ForgetsAt(s, moves, i, topic) <==> ForgetsAt(s, front, i, topic))
      && (ReleasesId(s, moves, i, id) <==> ReleasesId(s, front, i, id))
      && (RecordsId(s, moves, i, topic, id) <==> RecordsId(s, front, i, topic, id))
      && (UnrecordsId(s, moves, i, topic, id) <==> UnrecordsId(s, front, i, topic, id))
  {
    var front := moves[..|moves| - 1];
    assert front[..i] == moves[..i] && front[i] == moves[i];
    assert NotedAt(s, moves, i) <==> NotedAt(s, front, i);
    assert forall t :: ForgetsAt(s, moves, i, t) <==> ForgetsAt(s, front, i, t);
    hide Run, ForgetsAt, Recorded;
  }

  lemma {:induction false} NothingBehind(s: System, moves: seq<Move>, i: nat, topic: string, id: string)
    requires i >= |moves|
    ensures !NotesId(s, moves, i, id) && !ReleasesId(s, moves, i, id)
    ensures !RecordsId(s, moves, i, topic, id) && !UnrecordsId(s, moves, i, topic, id)
  {
  }

  lemma {:induction false} SentOneMore(s: System, moves: seq<Move>, id: string)
    requires moves != []
    ensures var front, last := moves[..|moves| - 1], |moves| - 1;
      CountsAsSent(s, moves, id) <==>
      NotesId(s, moves, last, id) || (CountsAsSent(s, front, id) && !ReleasesId(s, moves, last, id))
  {
    var front, last := moves[..|moves| - 1], |moves| - 1;
    forall i: nat ensures
      && (i < last ==> (NotesId(s, moves, i, id) <==> NotesId(s, front, i, id)))
      && (i < last ==> (ReleasesId(s, moves, i, id) <==> ReleasesId(s, front, i, id)))
      && (i >= last ==> !NotesId(s, front, i, id) && !ReleasesId(s, front, i, id))
      && (i > last ==> !NotesId(s, moves, i, id) && !ReleasesId(s, moves, i, id))
    {
      if i < last { SameBefore(s, moves, i, "", id); }
      if i >= last { NothingBehind(s, front, i, "", id); }
      if i > last { NothingBehind(s, moves, i, "", id); }
    }
    assert !(NotesId(s, moves, last, id) && ReleasesId(s, moves, last, id));
    hide NotesId, ReleasesId;
    var sets, unsets := (i: nat) => NotesId(s, front, i, id), (i: nat) => ReleasesId(s, front, i, id);
    var sets', unsets' := (i: nat) => NotesId(s, moves, i, id), (i: nat) => ReleasesId(s, moves, i, id);
    OneMoreIndex(id in s.plane.sent, sets, unsets, sets', unsets', last);
    SentSince(s, front, id, sets, unsets);
    SentSince(s, moves, id, sets', unsets');
  }

  lemma {:induction false} SentSince(
      s: System, moves: seq<Move>, id: string, sets: nat -> bool, unsets: nat -> bool)
    requires forall i: nat :: sets(i) <==> NotesId(s, moves, i, id)
    requires forall i: nat :: unsets(i) <==> ReleasesId(s, moves, i, id)
    ensures CountsAsSent(s, moves, id) <==> Since(id in s.plane.sent, sets, unsets)
  {
    hide NotesId, ReleasesId;
    if i: nat :| NotesId(s, moves, i, id) && forall j: nat :: j > i ==> !ReleasesId(s, moves, j, id) {
      assert sets(i);
    }
    if i: nat :| sets(i) && forall j: nat :: j > i ==> !unsets(j) {
      assert NotesId(s, moves, i, id);
      forall j: nat | j > i ensures !ReleasesId(s, moves, j, id) { assert !unsets(j); }
    }
    if forall j: nat :: !unsets(j) {
      forall j: nat ensures !ReleasesId(s, moves, j, id) { assert !unsets(j); }
    }
  }

  lemma {:induction false} RecordedOneMore(s: System, moves: seq<Move>, topic: string, id: string)
    requires moves != []
    ensures var front, last := moves[..|moves| - 1], |moves| - 1;
      IsRecorded(s, moves, topic, id) <==>
      || RecordsId(s, moves, last, topic, id)
      || (IsRecorded(s, front, topic, id) && !UnrecordsId(s, moves, last, topic, id))
  {
    var front, last := moves[..|moves| - 1], |moves| - 1;
    forall i: nat ensures
      && (i < last ==> (RecordsId(s, moves, i, topic, id) <==> RecordsId(s, front, i, topic, id)))
      && (i < last ==> (UnrecordsId(s, moves, i, topic, id) <==> UnrecordsId(s, front, i, topic, id)))
      && (i >= last ==> !RecordsId(s, front, i, topic, id) && !UnrecordsId(s, front, i, topic, id))
      && (i > last ==> !RecordsId(s, moves, i, topic, id) && !UnrecordsId(s, moves, i, topic, id))
    {
      hide RecordsId, UnrecordsId;
      if i < last { SameBefore(s, moves, i, topic, id); }
      if i >= last { NothingBehind(s, front, i, topic, id); }
      if i > last { NothingBehind(s, moves, i, topic, id); }
    }
    assert !(RecordsId(s, moves, last, topic, id) && UnrecordsId(s, moves, last, topic, id));
    hide RecordsId, UnrecordsId, IsRecorded, Recorded;
    var sets, unsets := (i: nat) => RecordsId(s, front, i, topic, id), (i: nat) => UnrecordsId(s, front, i, topic, id);
    var sets' := (i: nat) => RecordsId(s, moves, i, topic, id);
    var unsets' := (i: nat) => UnrecordsId(s, moves, i, topic, id);
    OneMoreIndex(id in Recorded(s.plane.byTopic, topic), sets, unsets, sets', unsets', last);
    RecordedSince(s, front, topic, id, sets, unsets);
    RecordedSince(s, moves, topic, id, sets', unsets');
  }

  lemma {:induction false} RecordedSince(
      s: System, moves: seq<Move>, topic: string, id: string, sets: nat -> bool, unsets: nat -> bool)
    requires forall i: nat :: sets(i) <==> RecordsId(s, moves, i, topic, id)
    requires forall i: nat :: unsets(i) <==> UnrecordsId(s, moves, i, topic, id)
    ensures IsRecorded(s, moves, topic, id) <==> Since(id in Recorded(s.plane.byTopic, topic), sets, unsets)
  {
    hide RecordsId, UnrecordsId, Recorded;
    if i: nat :| RecordsId(s, moves, i, topic, id) && StaysRecorded(s, moves, i, topic, id) {
      assert sets(i);
    }
    if i: nat :| sets(i) && forall j: nat :: j > i ==> !unsets(j) {
      assert RecordsId(s, moves, i, topic, id);
      forall j: nat | j > i ensures !UnrecordsId(s, moves, j, topic, id) { assert !unsets(j); }
    }
    if forall j: nat :: !unsets(j) {
      forall j: nat ensures !UnrecordsId(s, moves, j, topic, id) { assert !unsets(j); }
    }
  }

  /** Forgetting goes by what is recorded for a topic. */
  lemma {:induction false} ForgottenIff(p: Plane, topics: seq<string>, topic: string, id: string)
    ensures var q := Forgotten(p, topics);
      && (id in q.sent <==> id in p.sent && !exists t :: t in topics && id in Recorded(p.byTopic, t))
      && (id in Recorded(q.byTopic, topic) <==> id in Recorded(p.byTopic, topic) && topic !in topics)
    decreases |topics|
  {
    if topics != [] {
      var t := topics[0];
      var p1 := p.(sent := p.sent - Recorded(p.byTopic, t), byTopic := p.byTopic - {t});
      assert forall u :: u in topics <==> u == t || u in topics[1..];
      forall u ensures Recorded(p1.byTopic, u) == if u == t then {} else Recorded(p.byTopic, u) {
      }
      hide Recorded;
      ForgottenIff(p1, topics[1..], topic, id);
    }
  }

  lemma {:induction false} NotedIff(p: Plane, b: Bundle, topic: string, id: string)
    ensures var q := Noted(p, b);
      && (id in q.sent <==> id in p.sent || id in b.ids)
      && (id in Recorded(q.byTopic, topic) <==>
          if b.topic == topic then id in b.ids else id in Recorded(p.byTopic, topic))
  {
  }

  lemma {:induction false} LastMove(s: System, moves: seq<Move>, topic: string, id: string)
    requires moves != [] && Possible(s, moves)
    ensures var last, p, q := |moves| - 1, End(s, moves[..|moves| - 1]).plane, End(s, moves).plane;
      && (id in q.sent <==> NotesId(s, moves, last, id) || (id in p.sent && !ReleasesId(s, moves, last, id)))
      && (id in Recorded(q.byTopic, topic) <==>
          || RecordsId(s, moves, last, topic, id)
          || (id in Recorded(p.byTopic, topic) && !UnrecordsId(s, moves, last, topic, id)))
  {
    var last, before := |moves| - 1, End(s, moves[..|moves| - 1]);
    var m := moves[last];
    assert End(s, moves) == Moved(before, m);
    match m
    case Notes(c) =>
      assert NotedAt(s, moves, last) && DocumentAt(s, moves, last) == before.publishes[c].b;
      NotedIff(before.plane, before.publishes[c].b, topic, id);
      hide Run, Noted, Recorded;
    case Forgets(w) =>
      var orphans := before.sweeps[w].orphans;
      assert forall t :: ForgetsAt(s, moves, last, t) <==> t in orphans;
      ForgottenIff(before.plane, orphans, topic, id);
      hide Run, Forgotten, Recorded, ForgetsAt;
    case Writes(_) => hide Run, Published, Recorded;
    case _ => hide Run, Published, Fresh, Recorded, ClearedOne, Orphans, ResetLink;
  }

  /** After any run, over any connections and whatever the reports rendered, an id counts
      as sent exactly when a document carrying it was noted and it was not released
      since, where a Forget releases what was recorded for its topics at that moment. */
  lemma {:induction false} SentIff(s: System, moves: seq<Move>, id: string)
    requires Possible(s, moves)
    ensures id in End(s, moves).plane.sent <==> CountsAsSent(s, moves, id)
  {
    if moves == [] {
      assert forall i: nat :: !NotesId(s, [], i, id) && !ReleasesId(s, [], i, id);
    } else {
      SentIff(s, moves[..|moves| - 1], id);
      LastMove(s, moves, "", id);
      SentOneMore(s, moves, id);
      hide Run, CountsAsSent, NotesId, ReleasesId;
    }
  }

  /** And what is recorded for a topic is what its last note since its last Forget carried. */
  lemma {:induction false} RecordedIff(s: System, moves: seq<Move>, topic: string, id: string)
    requires Possible(s, moves)
    ensures id in Recorded(End(s, moves).plane.byTopic, topic) <==> IsRecorded(s, moves, topic, id)
  {
    if moves == [] {
      assert forall i: nat :: !RecordsId(s, [], i, topic, id) && !UnrecordsId(s, [], i, topic, id);
    } else {
      RecordedIff(s, moves[..|moves| - 1], topic, id);
      LastMove(s, moves, topic, id);
      RecordedOneMore(s, moves, topic, id);
      hide Run, IsRecorded, RecordsId, UnrecordsId, Recorded;
    }
  }

  /** A Forget releases an id exactly when the document last noted on one of its topics,
      since that was last forgotten, carried it. */
  lemma {:induction false} ReleasedIff(s: System, moves: seq<Move>, i: nat, id: string)
    requires Possible(s, moves) && i < |moves| && moves[i].Forgets?
    ensures ReleasesId(s, moves, i, id) <==>
            exists t :: ForgetsAt(s, moves, i, t) && IsRecorded(s, moves[..i], t, id)
  {
    PrefixPossible(s, moves, i);
    forall t ensures id in Recorded(End(s, moves[..i]).plane.byTopic, t) <==> IsRecorded(s, moves[..i], t, id) {
      RecordedIff(s, moves[..i], t, id);
    }
    hide Run, IsRecorded, Recorded, ForgetsAt;
  }

  // ----------------------------------------------------------- what the next report does

  lemma {:induction false} FreshIff(s: System, moves: seq<Move>, b: Bundle)
    requires Possible(s, moves)
    ensures Fresh(End(s, moves).plane.sent, b) <==> exists id :: id in b.ids && !CountsAsSent(s, moves, id)
  {
    forall id ensures id in End(s, moves).plane.sent <==> CountsAsSent(s, moves, id) {
      SentIff(s, moves, id);
    }
    hide Run, CountsAsSent;
  }

  /** The whole story of a document that is missing at the end of any run whose present
      connection is lossless: the next report that renders it puts it back exactly when
      some id of it was not noted, or was released since, and its body does not count as
      written; with no such id the report does nothing. */
  lemma {:induction false} MissingIsRestoredIff(s: System, moves: seq<Move>, b: Bundle)
    requires Possible(s, moves) && Lossless(End(s, moves).plane.link)
    requires Missing(End(s, moves), b.topic) && b.topic !in b.legacy
    ensures var p := End(s, moves).plane;
      var unsent := exists id :: id in b.ids && !CountsAsSent(s, moves, id);
      && (b.topic in PublishedOne(p, b).link.retained <==> unsent && Lookup(p.link.gate, b.topic) != Some(b.body))
      && (!unsent ==> PublishedOne(p, b) == p)
      && (b.topic in PublishedOne(p, b).link.retained ==> PublishedOne(p, b).link.retained[b.topic] == b.body)
  {
    FreshIff(s, moves, b);
    ReportRestoresIff(End(s, moves).plane, b);
    hide Run, PublishedOne, Fresh, CountsAsSent;
  }

  /** Right after a Forget a report is published exactly when it carries an id that did
      not count as sent, or that was recorded for a forgotten topic. */
  lemma {:induction false} ForgottenIsFreshIff(p: Plane, topics: seq<string>, b: Bundle)
    ensures Fresh(Forgotten(p, topics).sent, b) <==>
            exists id :: id in b.ids && (id !in p.sent || exists t :: t in topics && id in Recorded(p.byTopic, t))
  {
    forall id ensures id in Forgotten(p, topics).sent <==>
      id in p.sent && !exists t :: t in topics && id in Recorded(p.byTopic, t)
    {
      ForgottenIff(p, topics, "", id);
    }
    hide Forgotten, Recorded;
  }

  /** An id last noted with move i on the topic, and the topic not forgotten since: the
      document last noted on the topic lacks it exactly when another was noted on the
      topic after that. */
  lemma {:induction false} DroppedIffNotedAgain(s: System, moves: seq<Move>, i: nat, topic: string, id: string)
    requires Possible(s, moves) && RecordsId(s, moves, i, topic, id)
    requires forall j: nat :: j > i ==> !RecordsId(s, moves, j, topic, id) && !ForgetsAt(s, moves, j, topic)
    ensures id !in Recorded(End(s, moves).plane.byTopic, topic) <==>
            exists j: nat :: j > i && NotesTopic(s, moves, j, topic)
  {
    RecordedIff(s, moves, topic, id);
    hide Run, Recorded, NotesTopic, NotesId, ForgetsAt;
    if j: nat :| j > i && NotesTopic(s, moves, j, topic) {
      assert UnrecordsId(s, moves, j, topic, id);
    }
  }

  // ------------------------------------------------------------------------ two runs

  /** One report, undisturbed, of a document that supersedes nothing. */
  lemma {:induction false} PlainPublish(p: Plane, b: Bundle)
    requires Lossless(p.link) && Remembered(p.link, b.topic) && b.legacy == [] && Fresh(p.sent, b)
    ensures var q := PublishedOne(p, b);
      && Lossless(q.link) && Remembered(q.link, b.topic)
      && Lookup(q.link.retained, b.topic) == Some(b.body)
      && q.sent == p.sent + Ids(b) && q.byTopic == p.byTopic[b.topic := b.ids]
  {
    WriteStep(p.link, b, b.topic);
    hide Published, Fresh;
  }

  /** A second rendering without an entity overwrites the document; the entity's id counts
      as sent, so a third report that renders it again does nothing. */
  lemma {:induction false} OverwrittenEntityStaysAway(p: Plane, b: Bundle, c: Bundle, again: Bundle, id: string)
    requires Lossless(p.link) && Remembered(p.link, b.topic) && b.legacy == [] && c.legacy == []
    requires c.topic == b.topic && Fresh(p.sent, b) && Fresh(p.sent + Ids(b), c)
    requires id in b.ids && id !in c.ids
    requires again.topic == b.topic && id in again.ids && Ids(again) <= p.sent + Ids(b) + Ids(c)
    ensures var q := PublishedOne(PublishedOne(p, b), c);
      && PublishedOne(q, again) == q && Lookup(q.link.retained, b.topic) == Some(c.body)
      && id in q.sent && id !in Recorded(q.byTopic, b.topic)
  {
    PlainPublish(p, b);
    PlainPublish(PublishedOne(p, b), c);
    var q := PublishedOne(PublishedOne(p, b), c);
    assert forall i :: i in again.ids ==> i in Ids(again);
    assert q.sent == p.sent + Ids(b) + Ids(c);
    hide Published;
  }

  /** A sweep has listed the topic; two reports write and note it with different ids; the
      sweep clears and forgets it. What only the first carried still counts as sent,
      though the bookkeeping was done before the Forget: a report that renders no more
      than that does nothing, and the document stays missing. */
  lemma {:induction false} ForgottenButSent(
      topic: string, x: string, y: string, z: string, first: string, second: string,
      stale: string, published: set<string>, declared: set<string>, fates: nat -> Fate)
    returns (moves: seq<Move>)
    requires x != y && y != z && x != z && topic !in published && topic !in declared
    requires forall n: nat :: fates(n) == Delivered
    ensures var s := Begun(topic, stale, declared, fates);
      && Possible(s, moves) && moves != [] && moves[|moves| - 1] == Forgets(0)
      && Missing(End(s, moves), topic)
      && End(s, moves).plane.sent == {y} && End(s, moves).plane.byTopic == map[]
      && forall body :: PublishedOne(End(s, moves).plane, Bundle(topic, body, [y], [])) == End(s, moves).plane
  {
    var s := Begun(topic, stale, declared, fates);
    var b, c := Bundle(topic, first, [x, y], []), Bundle(topic, second, [x, z], []);
    moves := ReportedTwice(s, b, c, published);
    var s1 := Moved(s, Claims(0, [topic], published));
    TwoReports(s1.plane, b, c, x, y, z);
    var s3 := End(s, moves);
    hide PublishedOne, Orphans;
    OneMove(s, moves, Clears(0));
    OneMove(s, moves + [Clears(0)], Forgets(0));
    moves := moves + [Clears(0)] + [Forgets(0)];
    hide Run;
    SweepEnds(s3, topic, x, y, z);
  }

  lemma {:induction false} SweepEnds(s: System, topic: string, x: string, y: string, z: string)
    requires x != y && y != z && x != z && Lossless(s.plane.link)
    requires s.plane.sent == {x, y, z} && s.plane.byTopic == map[topic := [x, z]]
    requires s.sweeps == map[0 := Sweep([topic], [topic])]
    ensures Can(Moved(s, Clears(0)), Forgets(0))
    ensures var p := Moved(Moved(s, Clears(0)), Forgets(0)).plane;
      && topic !in p.link.retained && p.sent == {y} && p.byTopic == map[]
      && forall body :: PublishedOne(p, Bundle(topic, body, [y], [])) == p
  {
    var s4 := Moved(s, Clears(0));
    assert s4.sweeps[0].todo == [];
    ForgottenOne(s4.plane, topic);
    var p := Moved(s4, Forgets(0)).plane;
    assert Recorded(s4.plane.byTopic, topic) == {x, z};
    assert p.sent == {y};
    hide PublishedOne;
    forall body ensures PublishedOne(p, Bundle(topic, body, [y], [])) == p {
      ReportOfSent(p, Bundle(topic, body, [y], []));
    }
  }

  lemma {:induction false} ReportedTwice(s: System, b: Bundle, c: Bundle, published: set<string>)
    returns (moves: seq<Move>)
    requires s.publishes == map[] && s.sweeps == map[]
    requires b.topic !in published && b.topic !in s.plane.link.declared
    ensures Possible(s, moves) && Can(s, Claims(0, [b.topic], published))
    ensures var s1 := Moved(s, Claims(0, [b.topic], published));
      && s1.plane == s.plane && s1.sweeps == map[0 := Sweep([b.topic], [b.topic])]
      && End(s, moves) == s1.(plane := PublishedOne(PublishedOne(s1.plane, b), c))
  {
    var claims := Claims(0, [b.topic], published);
    assert Orphans(s.plane, [b.topic], published) == [b.topic];
    OneMove(s, [], claims);
    moves := [] + [claims];
    var s1 := Moved(s, claims);
    hide PublishedOne, Orphans;
    var report := UndisturbedPublish(s1, 0, b);
    RunInParts(s, moves, report);
    moves := moves + report;
    var s2 := s1.(plane := PublishedOne(s1.plane, b));
    report := UndisturbedPublish(s2, 0, c);
    RunInParts(s, moves, report);
    moves := moves + report;
  }

  lemma {:induction false} TwoReports(p: Plane, b: Bundle, c: Bundle, x: string, y: string, z: string)
    requires Lossless(p.link) && p.link.gate == map[] && p.sent == {} && p.byTopic == map[]
    requires x != y && y != z && x != z && b.ids == [x, y] && c.ids == [x, z]
    requires b.topic == c.topic && b.legacy == [] && c.legacy == []
    ensures var q := PublishedOne(PublishedOne(p, b), c);
      Lossless(q.link) && q.sent == {x, y, z} && q.byTopic == map[b.topic := [x, z]]
  {
    assert b.ids[0] in b.ids && Fresh(p.sent, b);
    PlainPublish(p, b);
    assert c.ids[1] in c.ids && z !in p.sent + Ids(b);
    PlainPublish(PublishedOne(p, b), c);
    assert Ids(b) == {x, y} && Ids(c) == {x, z};
    hide PublishedOne;
  }

  lemma {:induction false} ReportOfSent(p: Plane, b: Bundle)
    requires forall id :: id in b.ids ==> id in p.sent
    ensures PublishedOne(p, b) == p
  {
    hide Published;
  }
}
