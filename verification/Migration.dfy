/** The sweep of the retained topics older releases left
    (internal/coordinator/migrate.go): an exact test of their shape, and a
    collect-then-clear pass over what the broker delivers. */
module Migration {
  import opened Sequences
  import Ownership

  const SUFFIXES := {"state", "set"}
  const BATTERY := "battery"

  /** The shape test; functions are the second levels the new layout uses. */
  predicate OldLayoutTopic(functions: set<string>, root: string, sn: string, t: string) {
    var prefix := root + "/" + sn + "/";
    if sn in functions || !(prefix <= t) then false
    else
      var levels := Split(t[|prefix|..], '/');
      if exists level :: level in levels && level == "" then false
      else if |levels| == 3 then levels[2] in SUFFIXES
      else if |levels| == 4 then levels[0] == BATTERY && levels[3] in SUFFIXES
      else false
  }

  // -------------------------------------------------------- the shapes, spelled out

  predicate Level(s: string) {
    s != "" && '/' !in s
  }

  function Path(levels: seq<string>): string {
    Join(levels, '/')
  }

  /** <root>/<sn>/<group>/<topic>/<suffix> */
  ghost predicate ItemShape(root: string, sn: string, t: string, levels: seq<string>) {
    && |levels| == 3 && Level(levels[0]) && Level(levels[1]) && levels[2] in SUFFIXES
    && t == root + "/" + sn + "/" + Path(levels)
  }

  /** <root>/<sn>/battery/<packSN>/<topic>/<suffix> */
  ghost predicate PackShape(root: string, sn: string, t: string, levels: seq<string>) {
    && |levels| == 4 && levels[0] == BATTERY && Level(levels[1]) && Level(levels[2]) && levels[3] in SUFFIXES
    && t == root + "/" + sn + "/" + Path(levels)
  }

  ghost predicate AllLevels(levels: seq<string>) {
    forall level :: level in levels ==> Level(level)
  }

  lemma {:induction false} ShapeLevels(root: string, sn: string, t: string, levels: seq<string>)
    requires ItemShape(root, sn, t, levels) || PackShape(root, sn, t, levels)
    ensures AllLevels(levels)
    ensures var prefix := root + "/" + sn + "/"; prefix <= t && Split(t[|prefix|..], '/') == levels
  {
    assert BATTERY == "battery" && Level("battery") && Level("state") && Level("set");
    forall level | level in levels ensures Level(level) && Free(level, '/') {
      var i :| 0 <= i < |levels| && levels[i] == level;
    }
    assert AllFree(levels, '/');
    SplitOfJoin(levels, '/');
  }

  /** The test accepts exactly the two shapes. */
  lemma {:induction false} OldLayoutIsTwoShapes(functions: set<string>, root: string, sn: string, t: string)
    ensures OldLayoutTopic(functions, root, sn, t) <==>
            sn !in functions && exists levels :: ItemShape(root, sn, t, levels) || PackShape(root, sn, t, levels)
  {
    var prefix := root + "/" + sn + "/";
    if OldLayoutTopic(functions, root, sn, t) {
      var levels := Split(t[|prefix|..], '/');
      JoinOfSplit(t[|prefix|..], '/');
      SplitPartsFree(t[|prefix|..], '/');
      assert t == prefix + Path(levels);
      forall i | 0 <= i < |levels| ensures Level(levels[i]) {
        assert levels[i] in levels;
        assert Free(levels[i], '/');
      }
      assert ItemShape(root, sn, t, levels) || PackShape(root, sn, t, levels);
    }
    if levels :| sn !in functions && (ItemShape(root, sn, t, levels) || PackShape(root, sn, t, levels)) {
      ShapeLevels(root, sn, t, levels);
    }
  }

  /** Up to the next slash a topic has one level and no other. */
  lemma {:induction false} LevelUnique(root: string, a: string, b: string, t: string)
    requires '/' !in a && '/' !in b
    requires root + "/" + a + "/" <= t && root + "/" + b + "/" <= t
    ensures a == b
  {
    var rest := t[|root| + 1..];
    assert root + "/" + a + "/" == (root + "/") + (a + "/") && root + "/" + b + "/" == (root + "/") + (b + "/");
    assert t == (root + "/") + rest;
    Ownership.PrefixUnderCommon(root + "/", rest, a + "/");
    Ownership.PrefixUnderCommon(root + "/", rest, b + "/");
    Ownership.PrefixChars(rest, a, '/');
    Ownership.PrefixChars(rest, b, '/');
  }

  /** No topic is an old topic of two devices. */
  lemma {:induction false} OldTopicOfOneDevice(functions: set<string>, root: string, a: string, b: string, t: string)
    requires '/' !in a && '/' !in b
    requires OldLayoutTopic(functions, root, a, t) && OldLayoutTopic(functions, root, b, t)
    ensures a == b
  {
    LevelUnique(root, a, b, t);
  }

  /** Nothing below a function level of this instance's name is an old topic. */
  lemma {:induction false} NewLayoutIsNeverOld(
      functions: set<string>, name: string, root: string, sn: string, function': string, rest: string)
    requires Ownership.InstancePair(name, root)
    requires '/' !in sn && function' in functions && '/' !in function'
    ensures !OldLayoutTopic(functions, root, sn, name + "/" + function' + "/" + rest)
  {
    var t := name + "/" + function' + "/" + rest;
    if OldLayoutTopic(functions, root, sn, t) {
      if name == root {
        assert root + "/" + function' + "/" <= t;
        LevelUnique(root, sn, function', t);
      } else {
        assert t == ("zendure" + "/") + (function' + "/" + rest);
        assert t == ("zendure2mqtt" + "/") + t[13..];
        Ownership.PrefixChars(t, "zendure", '/');
        Ownership.PrefixChars(t, "zendure2mqtt", '/');
      }
    }
  }

  // ------------------------------------------------------------------- the sweep

  type Store = map<string, string>

  /** One message delivered while the window is open. */
  datatype Delivery = Delivery(topic: string, payload: string, retained: bool)

  predicate Collects(d: Delivery, owned: string -> bool) {
    d.retained && d.payload != "" && owned(d.topic)
  }

  /** The topics collected, each once, in the order they first came. */
  function Found(deliveries: seq<Delivery>, owned: string -> bool): seq<string> {
    if deliveries == [] then []
    else
      var found, last := Found(deliveries[..|deliveries| - 1], owned), deliveries[|deliveries| - 1];
      if Collects(last, owned) && last.topic !in found then found + [last.topic] else found
  }

  /** The broker behind the transport, and which clears it takes: a sweep clears
      no topic twice, so this may depend on the topic. */
  class Transport {
    var store: Store
    const accepts: string -> bool

    constructor (store: Store, accepts: string -> bool)
      ensures this.store == store && this.accepts == accepts
    {
      this.store, this.accepts := store, accepts;
    }

    method Clear(topic: string) returns (ok: bool)
      modifies this
      ensures ok == accepts(topic)
      ensures store == if ok then old(store) - {topic} else old(store)
    {
      ok := accepts(topic);
      if ok {
        store := store - {topic};
      }
    }
  }

  function Set(topics: seq<string>): set<string> {
    set t | t in topics
  }

  /** sweepRetained: what the window collected is cleared one by one, up to the
      first refusal; a window cut short clears nothing. */
  method SweepRetained(tr: Transport, deliveries: seq<Delivery>, owned: string -> bool, cancelled: bool)
    returns (cleared: nat, failed: bool)
    modifies tr
    ensures cancelled ==> cleared == 0 && failed && tr.store == old(tr.store)
    ensures !cancelled ==>
      && cleared <= |Found(deliveries, owned)|
      && tr.store == old(tr.store) - Set(Found(deliveries, owned)[..cleared])
      && (failed <==> cleared < |Found(deliveries, owned)|)
      && (forall k :: 0 <= k < cleared ==> tr.accepts(Found(deliveries, owned)[k]))
      && (failed ==> !tr.accepts(Found(deliveries, owned)[cleared]))
  {
    var found: seq<string> := [];
    var seen: set<string> := {};
    for i := 0 to |deliveries|
      invariant found == Found(deliveries[..i], owned)
      invariant seen == Set(found)
    {
      assert deliveries[..i + 1][..i] == deliveries[..i];
      var d := deliveries[i];
      if !d.retained || d.payload == "" || !owned(d.topic) {
        continue;
      }
      if d.topic !in seen {
        seen := seen + {d.topic};
        found := found + [d.topic];
      }
    }
    assert deliveries[..|deliveries|] == deliveries;
    if cancelled {
      return 0, true;
    }
    cleared := 0;
    assert old(tr.store) - Set(found[..0]) == old(tr.store);
    for i := 0 to |found|
      invariant cleared == i
      invariant forall k :: 0 <= k < i ==> tr.accepts(found[k])
      invariant tr.store == old(tr.store) - Set(found[..i])
    {
      var ok := tr.Clear(found[i]);
      if !ok {
        return cleared, true;
      }
      assert Set(found[..i + 1]) == Set(found[..i]) + {found[i]};
      assert old(tr.store) - Set(found[..i]) - {found[i]} == old(tr.store) - Set(found[..i + 1]);
      cleared := cleared + 1;
    }
    assert found[..|found|] == found;
    return cleared, false;
  }

  lemma {:induction false} FoundOnce(deliveries: seq<Delivery>, owned: string -> bool, t: string)
    ensures NoDuplicates(Found(deliveries, owned))
    ensures t in Found(deliveries, owned) <==>
            exists i :: 0 <= i < |deliveries| && Collects(deliveries[i], owned) && deliveries[i].topic == t
  {
    if deliveries != [] {
      var n := |deliveries| - 1;
      var front := deliveries[..n];
      FoundOnce(front, owned, t);
      if i :| 0 <= i < |deliveries| && Collects(deliveries[i], owned) && deliveries[i].topic == t {
        if i < n { assert front[i] == deliveries[i]; }
      }
      if i :| 0 <= i < |front| && Collects(front[i], owned) && front[i].topic == t {
        assert deliveries[i] == front[i];
      }
    }
  }

  /** The broker delivered everything it retains under the prefix, and called
      nothing retained that it does not retain. */
  ghost predicate WindowComplete(deliveries: seq<Delivery>, store: Store, prefix: string) {
    && (forall t :: t in store && prefix <= t ==>
          exists i :: 0 <= i < |deliveries| && deliveries[i] == Delivery(t, store[t], true))
    && (forall i :: 0 <= i < |deliveries| && deliveries[i].retained ==> deliveries[i].topic in store)
    && (forall t :: t in store ==> store[t] != "")
  }

  ghost function Matching(store: Store, owned: string -> bool): set<string> {
    set t | t in store && owned(t)
  }

  /** A complete window collects exactly the matching retained topics. */
  lemma {:induction false} CompleteWindowFindsAll(
      deliveries: seq<Delivery>, store: Store, prefix: string, owned: string -> bool)
    requires WindowComplete(deliveries, store, prefix)
    requires forall t :: owned(t) ==> prefix <= t
    ensures Set(Found(deliveries, owned)) == Matching(store, owned)
    ensures |Found(deliveries, owned)| == |Matching(store, owned)|
  {
    var found := Found(deliveries, owned);
    forall t ensures t in found <==> t in store && owned(t) {
      FoundOnce(deliveries, owned, t);
      if t in store && owned(t) {
        var i :| 0 <= i < |deliveries| && deliveries[i] == Delivery(t, store[t], true);
        assert Collects(deliveries[i], owned);
      }
    }
    FoundOnce(deliveries, owned, "");
    CardinalityOfDistinct(found);
    assert Elements(found) == Set(found) == Matching(store, owned);
  }

  /** The predicate of one device's sweep, below the device's own prefix. */
  function OldTopicsOf(functions: set<string>, root: string, sn: string): string -> bool {
    t => OldLayoutTopic(functions, root, sn, t)
  }

  /** A device's sweep over a complete window that nothing cuts short and no refusal
      stops: exactly the device's old topics are gone, and their number is returned. */
  method SweepDevice(functions: set<string>, root: string, sn: string, tr: Transport, deliveries: seq<Delivery>)
    returns (cleared: nat, failed: bool)
    requires WindowComplete(deliveries, tr.store, root + "/" + sn + "/")
    requires forall t :: tr.accepts(t)
    modifies tr
    ensures !failed && cleared == |Matching(old(tr.store), OldTopicsOf(functions, root, sn))|
    ensures tr.store == old(tr.store) - Matching(old(tr.store), OldTopicsOf(functions, root, sn))
  {
    var owned := OldTopicsOf(functions, root, sn);
    CompleteWindowFindsAll(deliveries, tr.store, root + "/" + sn + "/", owned);
    ghost var found := Found(deliveries, owned);
    hide Found, Matching;
    cleared, failed := SweepRetained(tr, deliveries, owned, false);
    assert !failed;
    assert found[..|found|] == found;
  }

  /** A device's sweep over a complete window finds exactly the device's old
      topics; once they are gone, the next complete window yields none. */
  lemma {:induction false} DeviceSweepExactAndIdempotent(
    functions: set<string>, root: string, sn: string, store: Store, first: seq<Delivery>, second: seq<Delivery>)
    requires var owned := OldTopicsOf(functions, root, sn);
      && WindowComplete(first, store, root + "/" + sn + "/")
      && WindowComplete(second, store - Set(Found(first, owned)), root + "/" + sn + "/")
    ensures var owned := OldTopicsOf(functions, root, sn);
      && Set(Found(first, owned)) == Matching(store, owned)
      && |Found(first, owned)| == |Matching(store, owned)|
      && Found(second, owned) == []
  {
    var owned := OldTopicsOf(functions, root, sn);
    CompleteWindowFindsAll(first, store, root + "/" + sn + "/", owned);
    var after := store - Set(Found(first, owned));
    CompleteWindowFindsAll(second, after, root + "/" + sn + "/", owned);
    assert Matching(after, owned) == {};
  }

  // ------------------------------------------------------------------- spelled out

  /** The topics of the old layout: three levels behind the unit, the last one "state" or
      "set", or four, the first one then "battery"; none empty. Any other number of levels
      and any other prefix is of no old topic, nor is a serial that names a function. */
  lemma {:induction false} OldTopicsSpelled(
      functions: set<string>, root: string, sn: string, a: string, b: string, c: string, d: string)
    requires '/' !in a && '/' !in b && '/' !in c && '/' !in d
    ensures OldLayoutTopic(functions, root, sn, root + "/" + sn + "/" + (a + "/" + b + "/" + c)) <==>
            sn !in functions && a != "" && b != "" && (c == "state" || c == "set")
    ensures OldLayoutTopic(functions, root, sn, root + "/" + sn + "/" + (a + "/" + b + "/" + c + "/" + d)) <==>
            sn !in functions && a == "battery" && b != "" && c != "" && (d == "state" || d == "set")
  {
    PathSpelled(a, b, c, d);
    OldTopicByLevels(functions, root, sn, [a, b, c]);
    OldTopicByLevels(functions, root, sn, [a, b, c, d]);
    hide OldLayoutTopic, Path;
    FourFree(a, b, c, d);
  }

  lemma {:induction false} FourFree(a: string, b: string, c: string, d: string)
    ensures (forall i :: 0 <= i < 3 ==> [a, b, c][i] != "") <==> a != "" && b != "" && c != ""
    ensures (forall i :: 0 <= i < 4 ==> [a, b, c, d][i] != "") <==> a != "" && b != "" && c != "" && d != ""
  {
    if forall i :: 0 <= i < 3 ==> [a, b, c][i] != "" {
      assert [a, b, c][0] == a && [a, b, c][1] == b && [a, b, c][2] == c;
    }
    if forall i :: 0 <= i < 4 ==> [a, b, c, d][i] != "" {
      assert [a, b, c, d][0] == a && [a, b, c, d][1] == b && [a, b, c, d][2] == c && [a, b, c, d][3] == d;
    }
  }

  lemma {:induction false} PathSpelled(a: string, b: string, c: string, d: string)
    ensures Path([a, b, c]) == a + "/" + b + "/" + c
    ensures Path([a, b, c, d]) == a + "/" + b + "/" + c + "/" + d
  {
    JoinSnoc([a], b, '/');
    JoinSnoc([a, b], c, '/');
    JoinSnoc([a, b, c], d, '/');
    assert Join([a], '/') == a;
    hide Join;
    assert [a] + [b] == [a, b] && [a, b] + [c] == [a, b, c] && [a, b, c] + [d] == [a, b, c, d];
  }

  lemma {:induction false} OldTopicByLevels(functions: set<string>, root: string, sn: string, levels: seq<string>)
    requires levels != [] && forall i :: 0 <= i < |levels| ==> '/' !in levels[i]
    ensures OldLayoutTopic(functions, root, sn, root + "/" + sn + "/" + Path(levels)) <==>
            && sn !in functions && (forall i :: 0 <= i < |levels| ==> levels[i] != "")
            && (|| (|levels| == 3 && (levels[2] == "state" || levels[2] == "set"))
                || (|levels| == 4 && levels[0] == "battery" && (levels[3] == "state" || levels[3] == "set")))
  {
    var prefix := root + "/" + sn + "/";
    assert (prefix + Path(levels))[|prefix|..] == Path(levels);
    assert prefix <= prefix + Path(levels);
    forall level | level in levels ensures Free(level, '/') {
      var i :| 0 <= i < |levels| && levels[i] == level;
    }
    SplitOfJoin(levels, '/');
    hide Split, Join;
    assert forall i :: 0 <= i < |levels| ==> levels[i] in levels;
  }

  /** Every old topic begins so. */
  lemma {:induction false} OldTopicHasLevels(functions: set<string>, root: string, sn: string, t: string)
    requires OldLayoutTopic(functions, root, sn, t)
    ensures exists levels :: t == root + "/" + sn + "/" + Join(levels, '/') && 3 <= |levels| <= 4
                             && forall i :: 0 <= i < |levels| ==> '/' !in levels[i]
  {
    var prefix := root + "/" + sn + "/";
    var levels := Split(t[|prefix|..], '/');
    JoinOfSplit(t[|prefix|..], '/');
    SplitPartsFree(t[|prefix|..], '/');
    hide Split, Join;
    forall i | 0 <= i < |levels| ensures '/' !in levels[i] {
      assert levels[i] in levels;
      assert Free(levels[i], '/');
    }
    assert t == prefix + Join(levels, '/');
  }

  /** A sweep collects what is retained, not empty and owned, and goes on behind what it
      has collected. */
  lemma {:induction false} FoundSpelled(
      deliveries: seq<Delivery>, more: seq<Delivery>, owned: string -> bool, t: string)
    ensures t in Found(deliveries, owned) <==>
            exists i :: 0 <= i < |deliveries| && deliveries[i].retained && deliveries[i].payload != ""
                        && owned(deliveries[i].topic) && deliveries[i].topic == t
    ensures Found(deliveries, owned) <= Found(deliveries + more, owned)
    decreases |more|
  {
    FoundOnce(deliveries, owned, t);
    if more == [] {
      assert deliveries + more == deliveries;
    } else {
      var front := more[..|more| - 1];
      assert (deliveries + more)[..|deliveries + more| - 1] == deliveries + front;
      FoundSpelled(deliveries, front, owned, t);
    }
  }
}
