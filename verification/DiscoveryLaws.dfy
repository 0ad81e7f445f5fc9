/** What the discovery plane promises: a reconnect restores every document and
    leaves no superseded config behind, a document never goes out before what it
    supersedes. Here nothing disturbs a step; DiscoveryRuns has the rest. */
module DiscoveryLaws {
  import opened Sequences
  import opened HaRuntime
  import opened Discovery

  // ------------------------------------------- after a reconnect, on a good link

  /** No two documents share a topic, and none stands where another one's
      superseded configs stand. */
  ghost predicate Placed(docs: seq<Bundle>) {
    && (forall i, j :: 0 <= i < j < |docs| ==> docs[i].topic != docs[j].topic)
    && (forall i, j :: 0 <= i < |docs| && 0 <= j < |docs| ==> docs[i].topic !in docs[j].legacy)
  }

  ghost predicate Placed1(b: Bundle, rest: seq<Bundle>) {
    && (forall j :: 0 <= j < |rest| ==>
      b.topic != rest[j].topic && b.topic !in rest[j].legacy && rest[j].topic !in b.legacy)
    && b.topic !in b.legacy
  }

  /** Each document in its turn carries an id that no earlier one carried. */
  ghost predicate AllFresh(sent: set<string>, docs: seq<Bundle>)
    decreases |docs|
  {
    docs == [] || (Fresh(sent, docs[0]) && AllFresh(sent + Ids(docs[0]), docs[1..]))
  }

  function LegacyTopics(docs: seq<Bundle>): set<string> {
    if docs == [] then {} else Topics(docs[0].legacy) + LegacyTopics(docs[1..])
  }

  function Documents(docs: seq<Bundle>): Retained {
    if docs == [] then map[] else map[docs[0].topic := docs[0].body] + Documents(docs[1..])
  }

  lemma {:induction false} PlacedHead(docs: seq<Bundle>)
    requires docs != [] && Placed(docs)
    ensures Placed1(docs[0], docs[1..]) && Placed(docs[1..])
  {
  }

  lemma {:induction false} DocumentsKeys(docs: seq<Bundle>, t: string)
    ensures t in Documents(docs) <==> exists i :: 0 <= i < |docs| && docs[i].topic == t
    ensures t in LegacyTopics(docs) <==> exists i :: 0 <= i < |docs| && t in docs[i].legacy
  {
    if docs == [] {
    } else {
      DocumentsKeys(docs[1..], t);
      if i :| 0 <= i < |docs[1..]| && docs[1..][i].topic == t { assert docs[i + 1].topic == t; }
      if i :| 0 <= i < |docs| && docs[i].topic == t { assert i == 0 || docs[1..][i - 1].topic == t; }
      if i :| 0 <= i < |docs[1..]| && t in docs[1..][i].legacy { assert t in docs[i + 1].legacy; }
      if i :| 0 <= i < |docs| && t in docs[i].legacy { assert i == 0 || t in docs[1..][i - 1].legacy; }
    }
  }

  /** Publishing documents on a lossless link: the store afterwards is the store
      before, less what they supersede and had not been retracted yet, plus the
      documents. */
  lemma {:induction false} LosslessDocuments(p: Plane, docs: seq<Bundle>)
    requires Lossless(p.link) && Placed(docs) && AllFresh(p.sent, docs)
    requires forall i :: 0 <= i < |docs| ==> docs[i].topic !in p.link.gate
    ensures var l, l' := p.link, PublishedAll(p, docs).link;
      && Lossless(l')
      && l'.retained == l.retained - (LegacyTopics(docs) - l.superseded) + Documents(docs)
      && l'.declared == l.declared + Documents(docs).Keys
    decreases |docs|
  {
    if docs == [] {
      assert p.link.retained - ({} - p.link.superseded) + map[] == p.link.retained;
    } else {
      var b, rest := docs[0], docs[1..];
      PlacedHead(docs);
      LosslessPublish(p.link, b);
      var p1 := PublishedOne(p, b);
      hide Published;
      forall i | 0 <= i < |rest| ensures rest[i].topic !in p1.link.gate {
        assert rest[i] == docs[i + 1];
      }
      LosslessDocuments(p1, rest);
      DocumentsKeys(rest, b.topic);
      assert b.topic !in LegacyTopics(rest) && b.topic !in Documents(rest);
      StoreStep(p.link.retained, p.link.superseded, b, LegacyTopics(rest), Documents(rest));
    }
  }

  lemma {:induction false} StoreStep(
      retained: Retained, superseded: set<string>, b: Bundle, legacy: set<string>, more: Retained)
    requires b.topic !in legacy && b.topic !in b.legacy && b.topic !in more
    ensures (retained - (Topics(b.legacy) - superseded))[b.topic := b.body]
              - (legacy - (superseded + Topics(b.legacy))) + more ==
            retained - (Topics(b.legacy) + legacy - superseded) + (map[b.topic := b.body] + more)
  {
  }

  /** "Every document carries an id of its own" is enough for each to be fresh. */
  lemma {:induction false} OwnIdsAreFresh(docs: seq<Bundle>, sent: set<string>, own: seq<string>)
    requires |own| == |docs|
    requires forall i :: 0 <= i < |docs| ==> own[i] in docs[i].ids && own[i] !in sent
    requires forall i, j :: 0 <= j < i < |docs| ==> own[i] !in docs[j].ids
    ensures AllFresh(sent, docs)
    decreases |docs|
  {
    if docs != [] {
      assert Fresh(sent, docs[0]);
      OwnIdsAreFresh(docs[1..], sent + Ids(docs[0]), own[1..]);
    }
  }

  lemma {:induction false} DocumentBody(docs: seq<Bundle>, i: nat)
    requires i < |docs| && Placed(docs)
    ensures docs[i].topic in Documents(docs) && Documents(docs)[docs[i].topic] == docs[i].body
    decreases |docs|
  {
    PlacedHead(docs);
    DocumentsKeys(docs[1..], docs[0].topic);
    if i > 0 { DocumentBody(docs[1..], i - 1); }
  }

  /** PublishOnline on a lossless connection, whatever the broker held and
      whatever the process remembered: exactly the latest documents are added and
      exactly the configs they supersede are gone. */
  lemma {:induction false} OnlineRestores(p: Plane, docs: seq<Bundle>)
    requires Lossless(p.link) && Placed(docs) && AllFresh({}, docs)
    ensures Online(p, docs).link.retained == p.link.retained - LegacyTopics(docs) + Documents(docs)
    ensures forall i :: 0 <= i < |docs| ==>
      && docs[i].topic in Online(p, docs).link.retained
      && Online(p, docs).link.retained[docs[i].topic] == docs[i].body
      && forall t :: t in docs[i].legacy ==> t !in Online(p, docs).link.retained
  {
    var q := Plane(ResetLink(p.link), {}, p.byTopic);
    LosslessDocuments(q, docs);
    assert LegacyTopics(docs) - {} == LegacyTopics(docs);
    hide PublishedAll;
    forall i | 0 <= i < |docs|
      ensures docs[i].topic in Documents(docs) && Documents(docs)[docs[i].topic] == docs[i].body
      ensures forall t :: t in docs[i].legacy ==> t !in Online(p, docs).link.retained
    {
      DocumentBody(docs, i);
      forall t | t in docs[i].legacy ensures t in LegacyTopics(docs) && t !in Documents(docs) {
        DocumentsKeys(docs, t);
      }
    }
  }

  // ------------------------------------------------ exactly when all are restored

  lemma {:induction false} OnlyOwnTopics(p: Plane, docs: seq<Bundle>, t: string)
    requires Lossless(p.link) && t !in p.link.retained
    requires forall i :: 0 <= i < |docs| ==> docs[i].topic != t
    ensures t !in PublishedAll(p, docs).link.retained
    decreases |docs|
  {
    if docs != [] {
      OnlyOwnTopic(p.link, docs[0], t);
      hide Published;
      OnlyOwnTopics(PublishedOne(p, docs[0]), docs[1..], t);
    }
  }

  lemma {:induction false} OnlyOwnTopic(l: Link, b: Bundle, t: string)
    requires Lossless(l) && t !in l.retained && b.topic != t
    ensures Lossless(Published(l, b).0) && t !in Published(l, b).0.retained
  {
    LosslessRetractions(l, b.legacy);
    hide Retracted;
  }

  lemma {:induction false} StaleDocumentIsMissing(p: Plane, docs: seq<Bundle>)
    requires Lossless(p.link) && Placed(docs) && !AllFresh(p.sent, docs)
    requires forall i :: 0 <= i < |docs| ==> docs[i].topic !in p.link.gate
    requires forall i :: 0 <= i < |docs| ==> docs[i].topic !in p.link.retained
    ensures exists i :: 0 <= i < |docs| && docs[i].topic !in PublishedAll(p, docs).link.retained
    decreases |docs|
  {
    var b, rest := docs[0], docs[1..];
    PlacedHead(docs);
    var p1 := PublishedOne(p, b);
    if !Fresh(p.sent, b) {
      forall i | 0 <= i < |rest| ensures rest[i].topic != b.topic { }
      OnlyOwnTopics(p1, rest, b.topic);
      assert docs[0].topic !in PublishedAll(p, docs).link.retained;
    } else {
      LosslessPublish(p.link, b);
      hide Published;
      forall i | 0 <= i < |rest| ensures rest[i].topic !in p1.link.gate && rest[i].topic !in p1.link.retained {
        assert rest[i] == docs[i + 1];
      }
      StaleDocumentIsMissing(p1, rest);
      var i :| 0 <= i < |rest| && rest[i].topic !in PublishedAll(p1, rest).link.retained;
      assert docs[i + 1].topic !in PublishedAll(p, docs).link.retained;
    }
  }

  /** A reconnect to a broker that lost its store brings every document back if
      and only if each carries an id that none before it carried. */
  lemma {:induction false} OnlineRestoresIffFresh(p: Plane, docs: seq<Bundle>)
    requires Lossless(p.link) && Placed(docs) && p.link.retained == map[]
    ensures AllFresh({}, docs) <==>
            forall i :: 0 <= i < |docs| ==> docs[i].topic in Online(p, docs).link.retained
  {
    if AllFresh({}, docs) {
      OnlineRestores(p, docs);
    } else {
      StaleDocumentIsMissing(Plane(ResetLink(p.link), {}, p.byTopic), docs);
    }
  }

  /** Without Reset: a config whose retraction was remembered from a connection
      that lost it survives, and only such a config does. */
  lemma {:induction false} WithoutResetRememberedConfigsSurvive(p: Plane, docs: seq<Bundle>, t: string)
    requires Lossless(p.link) && Placed(docs) && AllFresh({}, docs)
    requires forall i :: 0 <= i < |docs| ==> docs[i].topic !in p.link.gate
    requires t in LegacyTopics(docs)
    ensures t in PublishedAll(p.(sent := {}), docs).link.retained <==> t in p.link.retained && t in p.link.superseded
  {
    LosslessDocuments(p.(sent := {}), docs);
    DocumentsKeys(docs, t);
  }

  // -------------------------------------------------- order, on any connection

  /** Every document on the log follows all retractions it asks for. */
  ghost predicate InOrder(log: seq<Write>, docs: seq<Bundle>) {
    forall i, k :: 0 <= i < |log| && 0 <= k < |docs| && log[i].body.Some? && log[i].topic == docs[k].topic ==>
      AllRetracted(log[..i], docs[k].legacy)
  }

  lemma {:induction false} PublishedInOrder(l: Link, b: Bundle, docs: seq<Bundle>)
    requires MemoBacked(l) && InOrder(l.log, docs) && b in docs
    requires forall i, j :: 0 <= i < j < |docs| ==> docs[i].topic != docs[j].topic
    ensures var (l', ok) := Published(l, b);
      MemoBacked(l') && InOrder(l'.log, docs)
  {
    var (l1, ok) := Retracted(l, b.legacy);
    RetractionsBacked(l, b.legacy);
    RetractionsKeepOrder(l.log, l1.log, docs);
    hide Retracted;
    if ok && !(b.topic in l1.gate && l1.gate[b.topic] == b.body) {
      var l2 := Sent(l1, b.topic, Some(b.body)).0;
      var w := l2.log[|l1.log|];
      assert l2.log == l1.log + [w];
      forall t | t in l1.superseded ensures RetractedIn(l2.log, t) { RetractedStays(l1.log, [w], t); }
      forall i, k | 0 <= i < |l2.log| && 0 <= k < |docs| && l2.log[i].body.Some? && l2.log[i].topic == docs[k].topic
        ensures AllRetracted(l2.log[..i], docs[k].legacy)
      {
        if i < |l1.log| {
          assert l2.log[..i] == l1.log[..i];
        } else {
          assert l2.log[..i] == l1.log;
          assert docs[k] == b;
        }
      }
    }
  }

  lemma {:induction false} RetractionsKeepOrder(log: seq<Write>, log': seq<Write>, docs: seq<Bundle>)
    requires InOrder(log, docs)
    requires |log| <= |log'| && log'[..|log|] == log
    requires forall i :: |log| <= i < |log'| ==> log'[i].body.None?
    ensures InOrder(log', docs)
  {
    forall i, k | 0 <= i < |log'| && 0 <= k < |docs| && log'[i].body.Some? && log'[i].topic == docs[k].topic
      ensures AllRetracted(log'[..i], docs[k].legacy)
    {
      assert log'[i] == log'[..|log|][i];
      assert log'[..i] == log[..i];
    }
  }

  lemma {:induction false} AllInOrder(p: Plane, todo: seq<Bundle>, docs: seq<Bundle>)
    requires MemoBacked(p.link) && InOrder(p.link.log, docs)
    requires forall b :: b in todo ==> b in docs
    requires forall i, j :: 0 <= i < j < |docs| ==> docs[i].topic != docs[j].topic
    ensures InOrder(PublishedAll(p, todo).link.log, docs)
    decreases |todo|
  {
    if todo != [] {
      assert todo[0] in todo;
      if Fresh(p.sent, todo[0]) {
        PublishedInOrder(p.link, todo[0], docs);
      }
      hide Published, InOrder, MemoBacked;
      AllInOrder(PublishedOne(p, todo[0]), todo[1..], docs);
    }
  }

  /** A reconnect on any connection, refusing or losing whatever it likes: on its
      log no document goes out before every config it supersedes was retracted
      on that same connection. */
  lemma {:induction false} OnlineInOrder(p: Plane, retained: Retained, fates: nat -> Fate, docs: seq<Bundle>)
    requires forall i, j :: 0 <= i < j < |docs| ==> docs[i].topic != docs[j].topic
    ensures InOrder(Online(p.(link := Reconnected(p.link, retained, fates)), docs).link.log, docs)
  {
    var q := Plane(ResetLink(Reconnected(p.link, retained, fates)), {}, p.byTopic);
    AllInOrder(q, docs, docs);
  }

  // --------------------------------------------- reports and sweeps, undisturbed

  /** What was written on this connection is declared, and the broker holds it. */
  ghost predicate Held(l: Link) {
    forall t :: t in l.gate ==> t in l.declared && t in l.retained && l.retained[t] == l.gate[t]
  }

  /** No document of the run stands where superseded configs of another stand. */
  ghost predicate Apart(topics: set<string>, docs: seq<Bundle>) {
    forall i :: 0 <= i < |docs| ==> docs[i].topic in topics && topics !! Topics(docs[i].legacy)
  }

  lemma {:induction false} ReportsHold(p: Plane, docs: seq<Bundle>, topics: set<string>)
    requires Lossless(p.link) && Held(p.link) && p.link.gate.Keys <= topics && Apart(topics, docs)
    ensures var l' := PublishedAll(p, docs).link;
      Lossless(l') && Held(l') && p.link.gate.Keys <= l'.gate.Keys <= topics
    decreases |docs|
  {
    if docs != [] {
      if Fresh(p.sent, docs[0]) {
        OneHeld(p.link, docs[0], topics);
      }
      hide Published, Held;
      ReportsHold(PublishedOne(p, docs[0]), docs[1..], topics);
    }
  }

  lemma {:induction false} OneHeld(l: Link, b: Bundle, topics: set<string>)
    requires Lossless(l) && Held(l) && l.gate.Keys <= topics && b.topic in topics && topics !! Topics(b.legacy)
    ensures var l' := Published(l, b).0;
      Lossless(l') && Held(l') && l.gate.Keys <= l'.gate.Keys <= topics
  {
    LosslessRetractions(l, b.legacy);
    hide Retracted;
  }

  lemma {:induction false} OrphansUnclaimed(p: Plane, seen: seq<string>, published: set<string>, t: string)
    ensures t in Orphans(p, seen, published) <==> t in seen && t !in published && t !in p.link.declared
  {
    if seen != [] { OrphansUnclaimed(p, seen[1..], published, t); }
  }

  lemma {:induction false} LosslessClearing(l: Link, topics: seq<string>)
    requires Lossless(l)
    ensures var l' := Cleared(l, topics);
      && Lossless(l')
      && l'.retained == l.retained - Topics(topics)
      && l'.declared == l.declared - Topics(topics)
      && l'.gate == l.gate - Topics(topics)
      && l'.superseded == l.superseded
    decreases |topics|
  {
    if topics == [] {
    } else {
      LosslessClearing(ClearedOne(l, topics[0]), topics[1..]);
      assert Topics(topics) == {topics[0]} + Topics(topics[1..]);
      assert l.retained - {topics[0]} - Topics(topics[1..]) == l.retained - Topics(topics);
      assert l.gate - {topics[0]} - Topics(topics[1..]) == l.gate - Topics(topics);
    }
  }

  lemma {:induction false} ForgettingKeepsLink(p: Plane, topics: seq<string>)
    ensures Forgotten(p, topics).link == p.link
    decreases |topics|
  {
    if topics != [] {
      var p1 := p.(sent := p.sent - Recorded(p.byTopic, topics[0]), byTopic := p.byTopic - {topics[0]});
      ForgettingKeepsLink(p1, topics[1..]);
    }
  }

  /** A sweep on a lossless link removes exactly what its window saw and neither
      the report nor the process claims. */
  lemma {:induction false} SweepIsExact(p: Plane, seen: seq<string>, published: set<string>)
    requires Lossless(p.link)
    ensures var orphans := set t | t in seen && t !in published && t !in p.link.declared;
      var l' := Swept(p, seen, published).link;
      && Lossless(l')
      && l'.retained == p.link.retained - orphans
      && l'.declared == p.link.declared
      && l'.gate == p.link.gate - orphans
  {
    var orphans := Orphans(p, seen, published);
    forall t ensures t in orphans <==> t in seen && t !in published && t !in p.link.declared {
      OrphansUnclaimed(p, seen, published, t);
    }
    assert Topics(orphans) == set t | t in seen && t !in published && t !in p.link.declared;
    LosslessClearing(p.link, orphans);
    ForgettingKeepsLink(p.(link := Cleared(p.link, orphans)), orphans);
    hide Cleared, Forgotten, Orphans;
    assert p.link.retained - {} == p.link.retained && p.link.gate - {} == p.link.gate;
  }

  /** So it is after every undisturbed reconnect. */
  lemma {:induction false} OnlineIsHeld(p: Plane, docs: seq<Bundle>, topics: set<string>)
    requires Lossless(p.link) && Apart(topics, docs)
    ensures var l' := Online(p, docs).link;
      Lossless(l') && Held(l') && l'.gate.Keys <= topics
  {
    ReportsHold(Plane(ResetLink(p.link), {}, p.byTopic), docs, topics);
  }
}
