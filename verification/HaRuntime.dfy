/** The publisher runtime of the MQTT library, as internal/hass/discovery.go and
    internal/coordinator/coordinator.go document it: a retained write may reach
    the broker, be refused, or be lost although it looked fine, and a device
    document is written only after the per-entity configs it supersedes have
    been retracted. */
module HaRuntime {
  import opened Sequences

  /** What becomes of one retained write. At QoS 0 a lost one is not noticed. */
  datatype Fate = Delivered | Refused | Lost

  /** A write as attempted on this connection; no body retracts the topic. */
  datatype Write = Write(topic: string, body: Option<string>, fate: Fate)

  /** One device's document: its topic, its body, the unique_ids it carries and
      the per-entity config topics it supersedes. */
  datatype Bundle = Bundle(topic: string, body: string, ids: seq<string>, legacy: seq<string>)

  type Retained = map<string, string>

  /** The broker's store, the writes attempted since the connection was made and
      what becomes of each, and what the runtime remembers: the superseded topics
      it retracted and the bodies it wrote, both for this connection, and the
      document topics it declared in this process. */
  datatype Link = Link(
    retained: Retained,
    log: seq<Write>,
    fates: nat -> Fate,
    superseded: set<string>,
    gate: map<string, string>,
    declared: set<string>)

  function Applied(retained: Retained, w: Write): Retained {
    if !w.fate.Delivered? then retained
    else if w.body.Some? then retained[w.topic := w.body.value]
    else retained - {w.topic}
  }

  /** One retained write; the flag is false when it is refused. */
  function Sent(l: Link, topic: string, body: Option<string>): (Link, bool) {
    var w := Write(topic, body, l.fates(|l.log|));
    (l.(retained := Applied(l.retained, w), log := l.log + [w]), !w.fate.Refused?)
  }

  /** Retract the topics not yet remembered as retracted, stopping at a refusal. */
  function Retracted(l: Link, topics: seq<string>): (Link, bool)
    decreases |topics|
  {
    if topics == [] then (l, true)
    else if topics[0] in l.superseded then Retracted(l, topics[1..])
    else
      var (l', ok) := Sent(l, topics[0], None);
      if !ok then (l', false)
      else Retracted(l'.(superseded := l'.superseded + {topics[0]}), topics[1..])
  }

  /** Retractions first, then the document; a failure anywhere leaves the rest undone. */
  function Published(l: Link, b: Bundle): (Link, bool) {
    var (l', ok) := Retracted(l, b.legacy);
    if !ok then (l', false)
    else if b.topic in l'.gate && l'.gate[b.topic] == b.body then (l', true)
    else
      var (l'', taken) := Sent(l', b.topic, Some(b.body));
      if !taken then (l'', false)
      else (l''.(gate := l''.gate[b.topic := b.body], declared := l''.declared + {b.topic}), true)
  }

  /** Reset: forget what is true of a connection, keep what is true of the process. */
  function ResetLink(l: Link): Link {
    l.(superseded := {}, gate := map[])
  }

  /** A new connection to a broker with this store. */
  function Reconnected(l: Link, retained: Retained, fates: nat -> Fate): Link {
    l.(retained := retained, log := [], fates := fates)
  }

  /** One topic is cleared, and leaves the declared set unless that is refused. */
  function ClearedOne(l: Link, topic: string): Link {
    var (l', ok) := Sent(l, topic, None);
    if ok then l'.(declared := l'.declared - {topic}, gate := l'.gate - {topic}) else l'
  }

  /** Retract: orphans are cleared one by one. A refused one does not stop the others. */
  function Cleared(l: Link, topics: seq<string>): Link
    decreases |topics|
  {
    if topics == [] then l else Cleared(ClearedOne(l, topics[0]), topics[1..])
  }

  class Runtime {
    var link: Link

    constructor (retained: Retained, fates: nat -> Fate)
      ensures link == Link(retained, [], fates, {}, map[], {})
    {
      link := Link(retained, [], fates, {}, map[], {});
    }

    method Send(topic: string, body: Option<string>) returns (ok: bool)
      modifies this
      ensures (link, ok) == Sent(old(link), topic, body)
    {
      var w := Write(topic, body, link.fates(|link.log|));
      link := link.(retained := Applied(link.retained, w), log := link.log + [w]);
      ok := !w.fate.Refused?;
    }

    method PublishBundle(b: Bundle) returns (ok: bool)
      modifies this
      ensures (link, ok) == Published(old(link), b)
    {
      hide Sent;
      for i := 0 to |b.legacy|
        invariant Retracted(old(link), b.legacy) == Retracted(link, b.legacy[i..])
      {
        var t := b.legacy[i];
        assert b.legacy[i..][1..] == b.legacy[i + 1..];
        if t in link.superseded {
          continue;
        }
        ok := Send(t, None);
        if !ok {
          return;
        }
        link := link.(superseded := link.superseded + {t});
      }
      if b.topic in link.gate && link.gate[b.topic] == b.body {
        ok := true;
        return;
      }
      ok := Send(b.topic, Some(b.body));
      if ok {
        link := link.(gate := link.gate[b.topic := b.body], declared := link.declared + {b.topic});
      }
    }

    method Reset()
      modifies this
      ensures link == ResetLink(old(link))
    {
      link := link.(superseded := {}, gate := map[]);
    }

    method Retract(topics: seq<string>)
      modifies this
      ensures link == Cleared(old(link), topics)
    {
      hide ClearedOne;
      for i := 0 to |topics|
        invariant Cleared(old(link), topics) == Cleared(link, topics[i..])
      {
        assert topics[i..][1..] == topics[i + 1..];
        RetractOne(topics[i]);
      }
    }

    method RetractOne(topic: string)
      modifies this
      ensures link == ClearedOne(old(link), topic)
    {
      var ok := Send(topic, None);
      if ok {
        link := link.(declared := link.declared - {topic}, gate := link.gate - {topic});
      }
    }
  }

  // ------------------------------------------------------- retraction comes first

  /** The write retracted this topic, as far as the runtime could tell. */
  predicate Retracts(w: Write, topic: string) {
    w.topic == topic && w.body.None? && !w.fate.Refused?
  }

  ghost predicate RetractedIn(log: seq<Write>, topic: string) {
    exists i :: 0 <= i < |log| && Retracts(log[i], topic)
  }

  /** What is remembered as retracted was retracted on this connection. */
  ghost predicate MemoBacked(l: Link) {
    forall t :: t in l.superseded ==> RetractedIn(l.log, t)
  }

  ghost predicate AllRetracted(log: seq<Write>, topics: seq<string>) {
    forall t :: t in topics ==> RetractedIn(log, t)
  }

  lemma {:induction false} RetractedStays(log: seq<Write>, more: seq<Write>, topic: string)
    requires RetractedIn(log, topic)
    ensures RetractedIn(log + more, topic)
  {
    var i :| 0 <= i < |log| && Retracts(log[i], topic);
    assert (log + more)[i] == log[i];
  }

  /** What retracting adds to the log: retractions only, one for every topic that
      was not remembered, so that afterwards all of them are backed. */
  lemma {:induction false} RetractionsBacked(l: Link, topics: seq<string>)
    requires MemoBacked(l)
    ensures var (l', ok) := Retracted(l, topics);
      && MemoBacked(l')
      && |l.log| <= |l'.log| && l'.log[..|l.log|] == l.log
      && (forall i :: |l.log| <= i < |l'.log| ==> l'.log[i].body.None? && l'.log[i].topic in topics)
      && l'.fates == l.fates && l'.gate == l.gate && l'.declared == l.declared
      && (ok ==> AllRetracted(l'.log, topics))
    decreases |topics|
  {
    if topics == [] {
      assert l.log[..|l.log|] == l.log;
    } else if topics[0] in l.superseded {
      RetractionsBacked(l, topics[1..]);
      BackedStep(l.log, Retracted(l, topics[1..]).0.log, topics);
    } else {
      var (l1, ok) := Sent(l, topics[0], None);
      forall t | t in l.superseded ensures RetractedIn(l1.log, t) {
        RetractedStays(l.log, [l1.log[|l.log|]], t);
      }
      if ok {
        assert Retracts(l1.log[|l.log|], topics[0]);
        var l2 := l1.(superseded := l1.superseded + {topics[0]});
        RetractionsBacked(l2, topics[1..]);
        BackedStep(l2.log, Retracted(l2, topics[1..]).0.log, topics);
      }
    }
  }

  lemma {:induction false} BackedStep(log: seq<Write>, log': seq<Write>, topics: seq<string>)
    requires topics != [] && RetractedIn(log, topics[0])
    requires |log| <= |log'| && log'[..|log|] == log
    ensures RetractedIn(log', topics[0])
    ensures AllRetracted(log', topics[1..]) ==> AllRetracted(log', topics)
  {
    RetractedStays(log, log'[|log|..], topics[0]);
    assert log + log'[|log|..] == log';
    assert forall t :: t in topics ==> t == topics[0] || t in topics[1..];
  }

  // ------------------------------------------------------------ a lossless link

  ghost predicate Lossless(l: Link) {
    forall n: nat :: l.fates(n) == Delivered
  }

  function Topics(topics: seq<string>): set<string> {
    set t | t in topics
  }

  lemma {:induction false} LosslessRetractions(l: Link, topics: seq<string>)
    requires Lossless(l)
    ensures var (l', ok) := Retracted(l, topics);
      && ok && Lossless(l')
      && l'.retained == l.retained - (Topics(topics) - l.superseded)
      && l'.superseded == l.superseded + Topics(topics)
      && l'.gate == l.gate && l'.declared == l.declared
    decreases |topics|
  {
    if topics == [] {
      assert l.superseded + {} == l.superseded;
    } else {
      assert Topics(topics) == {topics[0]} + Topics(topics[1..]);
      if topics[0] in l.superseded {
        LosslessRetractions(l, topics[1..]);
      } else {
        var (l1, ok) := Sent(l, topics[0], None);
        var l2 := l1.(superseded := l1.superseded + {topics[0]});
        LosslessRetractions(l2, topics[1..]);
        RemoveBoth(l.retained, topics[0], Topics(topics[1..]), l.superseded);
        assert l2.superseded + Topics(topics[1..]) == l.superseded + Topics(topics);
      }
    }
  }

  lemma {:induction false} RemoveBoth(retained: Retained, t: string, rest: set<string>, known: set<string>)
    requires t !in known
    ensures (retained - {t}) - (rest - (known + {t})) == retained - ({t} + rest - known)
  {
  }

  /** On a lossless link a document is in place afterwards, and of what it
      supersedes only what was remembered as retracted can remain. */
  lemma {:induction false} LosslessPublish(l: Link, b: Bundle)
    requires Lossless(l) && b.topic !in l.gate
    ensures var (l', ok) := Published(l, b);
      && ok && Lossless(l')
      && l'.retained == (l.retained - (Topics(b.legacy) - l.superseded))[b.topic := b.body]
      && l'.superseded == l.superseded + Topics(b.legacy)
      && l'.gate == l.gate[b.topic := b.body]
      && l'.declared == l.declared + {b.topic}
  {
    LosslessRetractions(l, b.legacy);
    hide Retracted;
  }

  /** What becomes of one write: only a delivered one changes the store, on its own topic
      only, and only a refused one is noticed. */
  lemma {:induction false} OneWrite(l: Link, topic: string, body: Option<string>, other: string)
    ensures var (l', ok) := Sent(l, topic, body);
      && |l'.log| == |l.log| + 1
      && (l.fates(|l.log|) == Delivered ==> Lookup(l'.retained, topic) == body)
      && (l.fates(|l.log|) != Delivered || other != topic ==> Lookup(l'.retained, other) == Lookup(l.retained, other))
      && (ok <==> l.fates(|l.log|) == Delivered || l.fates(|l.log|) == Lost)
  {
  }

  /** The writes from n on are l's next ones, with the fates it has for them. */
  ghost predicate Continues(l: Link, l': Link) {
    && |l.log| <= |l'.log| && l'.log[..|l.log|] == l.log && l'.fates == l.fates
    && forall i :: |l.log| <= i < |l'.log| ==> l'.log[i].fate == l.fates(i)
  }

  /** Retracting, whatever becomes of the writes: only these topics are written to, with no
      body; it stops at the first refusal and only there, and remembers what was not
      refused. */
  lemma {:induction false} RetractionFates(l: Link, topics: seq<string>)
    ensures var (l', ok) := Retracted(l, topics);
      && Continues(l, l') && l'.gate == l.gate && l'.declared == l.declared
      && (forall i :: |l.log| <= i < |l'.log| ==> l'.log[i].body == None && l'.log[i].topic in topics)
      && (forall i :: |l.log| <= i < |l'.log| ==> (l.fates(i) == Refused <==> !ok && i == |l'.log| - 1))
      && (!ok ==> |l'.log| > |l.log|)
      && (ok ==> l'.superseded == l.superseded + Topics(topics))
    decreases |topics|
  {
    if topics != [] {
      if topics[0] in l.superseded {
        RetractionFates(l, topics[1..]);
      } else {
        var (l1, ok) := Sent(l, topics[0], None);
        assert Continues(l, l1);
        if ok {
          var l2 := l1.(superseded := l1.superseded + {topics[0]});
          RetractionFates(l2, topics[1..]);
          hide Applied;
          assert forall i :: 0 <= i < |l1.log| ==> Retracted(l2, topics[1..]).0.log[i] == l1.log[i];
        }
      }
    }
  }

  /** Publishing, whatever becomes of the writes: it fails exactly with a refusal, which
      ends it; then nothing counts as written or declared. A success counts the body as
      written; at most the last write has one, and it is the document's. */
  lemma {:induction false} PublishFates(l: Link, b: Bundle)
    ensures var (l', ok) := Published(l, b);
      && Continues(l, l')
      && (forall i :: |l.log| <= i < |l'.log| ==> (l.fates(i) == Refused <==> !ok && i == |l'.log| - 1))
      && (!ok ==> |l'.log| > |l.log| && l'.gate == l.gate && l'.declared == l.declared)
      && (ok ==> l'.gate == l.gate[b.topic := b.body] && l.declared <= l'.declared <= l.declared + {b.topic})
      && (ok ==> Topics(b.legacy) <= l'.superseded)
    ensures var (l', ok) := Published(l, b);
      forall i :: |l.log| <= i < |l'.log| && l'.log[i].body.Some? ==>
        && i == |l'.log| - 1 && l'.log[i].topic == b.topic && l'.log[i].body == Some(b.body)
        && (ok ==> b.topic in l'.declared)
    ensures var (l', ok) := Published(l, b);
      ok && Lookup(l.gate, b.topic) != Some(b.body) ==> |l'.log| > |l.log| && l'.log[|l'.log| - 1].body == Some(b.body)
  {
    RetractionFates(l, b.legacy);
    hide Retracted, Applied;
    var (l1, ok) := Retracted(l, b.legacy);
    if ok && Lookup(l1.gate, b.topic) != Some(b.body) {
      var l2 := Sent(l1, b.topic, Some(b.body)).0;
      assert forall i :: 0 <= i < |l1.log| ==> l2.log[i] == l1.log[i];
      assert l2.log[..|l.log|] == l1.log[..|l.log|];
    } else if ok {
      assert l.gate[b.topic := b.body] == l.gate;
    }
  }

  /** Some turn of the topic, the first turn being the write at from, is delivered. */
  ghost predicate SomeDelivered(fates: nat -> Fate, from: nat, topics: seq<string>, t: string) {
    exists i :: 0 <= i < |topics| && topics[i] == t && fates(from + i) == Delivered
  }

  ghost predicate AllRefused(fates: nat -> Fate, from: nat, topics: seq<string>, t: string) {
    forall i :: 0 <= i < |topics| && topics[i] == t ==> fates(from + i) == Refused
  }

  lemma {:induction false} FatesOfRest(fates: nat -> Fate, from: nat, topics: seq<string>, t: string)
    requires topics != []
    ensures SomeDelivered(fates, from, topics, t) <==>
            (topics[0] == t && fates(from) == Delivered) || SomeDelivered(fates, from + 1, topics[1..], t)
    ensures AllRefused(fates, from, topics, t) <==>
            (topics[0] == t ==> fates(from) == Refused) && AllRefused(fates, from + 1, topics[1..], t)
  {
    var rest := topics[1..];
    forall i | 0 <= i < |rest| ensures rest[i] == topics[i + 1] && from + 1 + i == from + (i + 1) {
    }
    if i :| 0 <= i < |topics| && topics[i] == t && fates(from + i) == Delivered {
      if i > 0 {
        assert rest[i - 1] == t && fates(from + 1 + (i - 1)) == Delivered;
      }
    }
    if AllRefused(fates, from, topics, t) {
      forall i | 0 <= i < |rest| && rest[i] == t ensures fates(from + 1 + i) == Refused {
        assert topics[i + 1] == t;
      }
    }
    if AllRefused(fates, from + 1, rest, t) && (topics[0] == t ==> fates(from) == Refused) {
      forall i | 0 <= i < |topics| && topics[i] == t ensures fates(from + i) == Refused {
        assert i > 0 ==> rest[i - 1] == t && from + 1 + (i - 1) == from + i;
      }
    }
  }

  lemma {:induction false} ClearedOnce(l: Link, topic: string, t: string)
    ensures var l', fate := ClearedOne(l, topic), l.fates(|l.log|);
      && Continues(l, l') && l'.log == l.log + [Write(topic, None, fate)] && l'.superseded == l.superseded
      && Lookup(l'.retained, t) == (if t == topic && fate == Delivered then None else Lookup(l.retained, t))
      && (t in l'.declared <==> t in l.declared && (t == topic ==> fate == Refused))
      && Lookup(l'.gate, t) == (if t == topic && fate != Refused then None else Lookup(l.gate, t))
  {
  }

  /** Clearing, whatever becomes of the writes: every topic has its turn, and the n-th turn
      is the n-th write. */
  lemma {:induction false} EveryTopicHasItsTurn(l: Link, topics: seq<string>)
    ensures var l' := Cleared(l, topics);
      && Continues(l, l') && |l'.log| == |l.log| + |topics| && l'.superseded == l.superseded
      && forall i :: 0 <= i < |topics| ==> l'.log[|l.log| + i] == Write(topics[i], None, l.fates(|l.log| + i))
    decreases |topics|
  {
    if topics != [] {
      var first, rest := ClearedOne(l, topics[0]), topics[1..];
      ClearedOnce(l, topics[0], "");
      EveryTopicHasItsTurn(first, rest);
      ContinuesOn(l, first, Cleared(first, rest));
      var last := Cleared(first, rest);
      hide ClearedOne, Cleared;
      assert last.log[|l.log|] == last.log[..|first.log|][|l.log|] == first.log[|l.log|];
      forall i | 0 <= i < |topics| ensures last.log[|l.log| + i] == Write(topics[i], None, l.fates(|l.log| + i)) {
        if i > 0 {
          assert |first.log| + (i - 1) == |l.log| + i && rest[i - 1] == topics[i];
        }
      }
    }
  }

  /** What is delivered is gone; what is not refused is no longer declared or remembered as
      written; what is refused every time stays as it is. */
  lemma {:induction false} ClearingFates(l: Link, topics: seq<string>, t: string)
    ensures var l' := Cleared(l, topics);
      && Lookup(l'.retained, t) ==
         (if SomeDelivered(l.fates, |l.log|, topics, t) then None else Lookup(l.retained, t))
      && (t in l'.declared <==> t in l.declared && AllRefused(l.fates, |l.log|, topics, t))
      && Lookup(l'.gate, t) == (if AllRefused(l.fates, |l.log|, topics, t) then Lookup(l.gate, t) else None)
    decreases |topics|
  {
    if topics != [] {
      var first, rest := ClearedOne(l, topics[0]), topics[1..];
      ClearedOnce(l, topics[0], t);
      FatesOfRest(l.fates, |l.log|, topics, t);
      assert first.fates == l.fates && |first.log| == |l.log| + 1;
      hide SomeDelivered, AllRefused, Continues, ClearedOne;
      ClearingFates(first, rest, t);
    }
  }

  lemma {:induction false} ContinuesOn(l: Link, l': Link, l'': Link)
    requires Continues(l, l')
    ensures Continues(l', l'') ==> Continues(l, l'')
  {
    if Continues(l', l'') {
      assert forall i :: 0 <= i < |l'.log| ==> l''.log[i] == l''.log[..|l'.log|][i] == l'.log[i];
    }
  }
}
