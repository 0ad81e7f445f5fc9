/** The discovery plane: which device documents are published and when
    (internal/hass/discovery.go), and what a reconnect and an orphan sweep do
    with them (internal/coordinator/coordinator.go). */
module Discovery {
  import opened Sequences
  import opened HaRuntime

  /** The link, the unique_ids whose document was sent, and which ids the last
      document on a topic carried. */
  datatype Plane = Plane(link: Link, sent: set<string>, byTopic: map<string, seq<string>>)

  function Ids(b: Bundle): set<string> {
    set id | id in b.ids
  }

  /** The document carries an id never published in this process. */
  predicate Fresh(sent: set<string>, b: Bundle) {
    exists id :: id in b.ids && id !in sent
  }

  /** The bookkeeping after a success. */
  function Noted(p: Plane, b: Bundle): Plane {
    p.(sent := p.sent + Ids(b), byTopic := p.byTopic[b.topic := b.ids])
  }

  /** The guard, the write and the bookkeeping with nothing in between. */
  function PublishedOne(p: Plane, b: Bundle): Plane {
    if !Fresh(p.sent, b) then p
    else
      var (link', ok) := Published(p.link, b);
      if ok then Noted(p.(link := link'), b) else p.(link := link')
  }

  function PublishedAll(p: Plane, docs: seq<Bundle>): Plane
    decreases |docs|
  {
    if docs == [] then p else PublishedAll(PublishedOne(p, docs[0]), docs[1..])
  }

  /** The owners that rendered to a document. */
  function Rendered(owners: seq<Option<Bundle>>): seq<Bundle> {
    if owners == [] then []
    else (if owners[0].Some? then [owners[0].value] else []) + Rendered(owners[1..])
  }

  function DocTopics(docs: seq<Bundle>): set<string> {
    set b | b in docs :: b.topic
  }

  /** The ids recorded for a topic, none for a topic this process never wrote. */
  function Recorded(byTopic: map<string, seq<string>>, topic: string): set<string> {
    if topic in byTopic then set id | id in byTopic[topic] else {}
  }

  /** The ids recorded for these topics are no longer sent, nor the topics recorded. */
  function Forgotten(p: Plane, topics: seq<string>): Plane
    decreases |topics|
  {
    if topics == [] then p
    else
      Forgotten(p.(sent := p.sent - Recorded(p.byTopic, topics[0]), byTopic := p.byTopic - {topics[0]}), topics[1..])
  }

  /** A reconnect: forget the connection's half, then every device's documents again. */
  function Online(p: Plane, docs: seq<Bundle>): Plane {
    PublishedAll(Plane(ResetLink(p.link), {}, p.byTopic), docs)
  }

  class Discovery {
    const runtime: Runtime
    var sent: set<string>
    var byTopic: map<string, seq<string>>

    function View(): Plane
      reads this, runtime
    {
      Plane(runtime.link, sent, byTopic)
    }

    constructor (runtime: Runtime)
      ensures this.runtime == runtime && View() == Plane(runtime.link, {}, map[])
    {
      this.runtime := runtime;
      sent, byTopic := {}, map[];
    }

    /** The section under the lock before the write. */
    method IsFresh(b: Bundle) returns (fresh': bool)
      ensures fresh' == Fresh(sent, b)
    {
      fresh' := false;
      for i := 0 to |b.ids|
        invariant !fresh' && forall k :: 0 <= k < i ==> b.ids[k] in sent
      {
        if b.ids[i] !in sent {
          return true;
        }
      }
    }

    /** The section under the lock after it. */
    method Note(b: Bundle)
      modifies this
      ensures View() == Noted(old(View()), b)
    {
      for i := 0 to |b.ids|
        invariant sent == old(sent) + set id | id in b.ids[..i]
        invariant byTopic == old(byTopic)
      {
        assert b.ids[..i + 1] == b.ids[..i] + [b.ids[i]];
        sent := sent + {b.ids[i]};
      }
      assert b.ids[..|b.ids|] == b.ids;
      byTopic := byTopic[b.topic := b.ids];
    }

    /** One rendered document, undisturbed: guard, write, bookkeeping. */
    method PublishOne(b: Bundle)
      modifies this, runtime
      ensures View() == PublishedOne(old(View()), b)
    {
      hide Published, Fresh;
      var fresh' := IsFresh(b);
      if !fresh' {
        return;
      }
      var ok := runtime.PublishBundle(b);
      if ok {
        Note(b);
      }
    }

    /** Publish: every owner's document, and the topics of them all. */
    method Publish(owners: seq<Option<Bundle>>) returns (published: set<string>)
      modifies this, runtime
      ensures View() == PublishedAll(old(View()), Rendered(owners))
      ensures published == DocTopics(Rendered(owners))
    {
      hide PublishedOne;
      published := {};
      for i := 0 to |owners|
        invariant PublishedAll(old(View()), Rendered(owners)) == PublishedAll(View(), Rendered(owners[i..]))
        invariant DocTopics(Rendered(owners)) == published + DocTopics(Rendered(owners[i..]))
      {
        var rest := Rendered(owners[i + 1..]);
        assert owners[i..][1..] == owners[i + 1..];
        if owners[i].None? {
          assert [] + rest == rest;
          continue;
        }
        var b := owners[i].value;
        assert ([b] + rest)[1..] == rest;
        DocTopicsCons(b, rest);
        published := published + {b.topic};
        PublishOne(b);
      }
    }

    /** Forget: the next report publishes these documents again. */
    method Forget(topics: seq<string>)
      modifies this
      ensures View() == Forgotten(old(View()), topics)
    {
      for i := 0 to |topics|
        invariant Forgotten(old(View()), topics) == Forgotten(View(), topics[i..])
      {
        assert topics[i..][1..] == topics[i + 1..];
        label turn:
        ghost var before := sent;
        var ids := if topics[i] in byTopic then byTopic[topics[i]] else [];
        for k := 0 to |ids|
          invariant sent == before - (set id | id in ids[..k])
          invariant byTopic == old@turn(byTopic)
        {
          assert ids[..k + 1] == ids[..k] + [ids[k]];
          sent := sent - {ids[k]};
        }
        assert ids[..|ids|] == ids;
        assert sent == before - Recorded(byTopic, topics[i]);
        byTopic := byTopic - {topics[i]};
      }
    }

    /** Reopen: nothing counts as sent any more. */
    method Reopen()
      modifies this
      ensures View() == old(View()).(sent := {})
    {
      sent := {};
    }
  }

  lemma {:induction false} DocTopicsCons(b: Bundle, rest: seq<Bundle>)
    ensures DocTopics([b] + rest) == {b.topic} + DocTopics(rest)
  {
    assert b in [b] + rest;
    assert forall c :: c in [b] + rest <==> c == b || c in rest;
    forall t | t in DocTopics(rest) ensures t in DocTopics([b] + rest) {
      var c :| c in rest && c.topic == t;
      assert c in [b] + rest;
    }
  }

  /** All documents of all devices, device after device. */
  function AllRendered(fleet: seq<seq<Option<Bundle>>>): seq<Bundle> {
    if fleet == [] then [] else Rendered(fleet[0]) + AllRendered(fleet[1..])
  }

  lemma {:induction false} PublishedInParts(p: Plane, a: seq<Bundle>, b: seq<Bundle>)
    ensures PublishedAll(p, a + b) == PublishedAll(PublishedAll(p, a), b)
    decreases |a|
  {
    if a == [] {
      assert a + b == b;
    } else {
      assert (a + b)[1..] == a[1..] + b;
      PublishedInParts(PublishedOne(p, a[0]), a[1..], b);
    }
  }

  /** The discovery half of PublishOnline: Reset, Reopen, and every known device's
      latest report again. */
  method PublishOnline(d: Discovery, fleet: seq<seq<Option<Bundle>>>)
    modifies d, d.runtime
    ensures d.View() == Online(old(d.View()), AllRendered(fleet))
  {
    hide PublishedOne, Rendered;
    d.runtime.Reset();
    d.Reopen();
    for i := 0 to |fleet|
      invariant Online(old(d.View()), AllRendered(fleet)) == PublishedAll(d.View(), AllRendered(fleet[i..]))
    {
      assert fleet[i..][1..] == fleet[i + 1..];
      PublishedInParts(d.View(), Rendered(fleet[i]), AllRendered(fleet[i + 1..]));
      var published := d.Publish(fleet[i]);
    }
  }

  /** What the window saw and neither the report nor the process claims. */
  function Orphans(p: Plane, seen: seq<string>, published: set<string>): seq<string> {
    if seen == [] then []
    else (if seen[0] in published + p.link.declared then [] else [seen[0]]) + Orphans(p, seen[1..], published)
  }

  function Swept(p: Plane, seen: seq<string>, published: set<string>): Plane {
    var orphans := Orphans(p, seen, published);
    if orphans == [] then p else Forgotten(p.(link := Cleared(p.link, orphans)), orphans)
  }

  /** The two claim sets, read after the window. */
  method ClaimOrphans(d: Discovery, seen: seq<string>, published: set<string>) returns (orphans: seq<string>)
    ensures orphans == Orphans(d.View(), seen, published)
  {
    var claimed := published + d.runtime.link.declared;
    orphans := [];
    for i := 0 to |seen|
      invariant Orphans(d.View(), seen, published) == orphans + Orphans(d.View(), seen[i..], published)
    {
      assert seen[i..][1..] == seen[i + 1..];
      if seen[i] !in claimed {
        orphans := orphans + [seen[i]];
      }
    }
    assert orphans + [] == orphans;
  }

  /** The last part of sweepOrphans, undisturbed. */
  method SweepOrphans(d: Discovery, seen: seq<string>, published: set<string>)
    modifies d, d.runtime
    ensures d.View() == Swept(old(d.View()), seen, published)
  {
    hide Cleared, Forgotten, Orphans;
    var orphans := ClaimOrphans(d, seen, published);
    if |orphans| == 0 {
      return;
    }
    d.runtime.Retract(orphans);
    d.Forget(orphans);
  }
}
