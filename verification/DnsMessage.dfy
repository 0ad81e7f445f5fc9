/** Folding DNS responses into a service list (sections 4.1.1 to 4.1.4 and
    3.3.14 of RFC 1035, RFC 2782), as the collector of
    internal/discovery/mdns.go does.

    The reference has two halves that the collector's one loop interleaves: the
    facts a message states, one per record, and what a fact does to what has
    been collected so far. */
module DnsMessage {
  import opened Sequences
  import opened NameWalk
  import opened DnsName

  const TYPE_A := 1
  const TYPE_PTR := 12
  const TYPE_TXT := 16
  const TYPE_SRV := 33
  const CLASS_QU := 0x8001

  datatype Ip = Ip(a: Byte, b: Byte, c: Byte, d: Byte)

  datatype Service = Service(name: Bytes, host: Bytes, addrs: seq<Ip>, port: nat, txt: seq<Bytes>)

  /** Everything before the first dot. */
  function FirstLabel(name: Bytes): Bytes {
    Split(name, DOT)[0]
  }

  function Lower(b: Byte): Byte {
    if 65 <= b <= 90 then b + 32 else b
  }

  /** strings.EqualFold over ASCII letters. */
  predicate EqualFold(a: Bytes, b: Bytes) {
    |a| == |b| && forall i :: 0 <= i < |a| ==> Lower(a[i]) == Lower(b[i])
  }

  // ------------------------------------------------------------ what is stated

  /** What one record says about the services on the network. */
  datatype Fact =
    | Announced(instance: Bytes)
    | Located(instance: Bytes, host: Bytes, port: nat)
    | Described(instance: Bytes, txt: seq<Bytes>)
    | Addressed(host: Bytes, ip: Ip)
    | Nothing

  function U16(msg: Bytes, off: nat): nat
    requires off + 2 <= |msg|
  {
    msg[off] as nat * 256 + msg[off + 1] as nat
  }

  /** One record: its owner, its type and where its data stands. */
  datatype Raw = Raw(owner: Bytes, rrType: nat, start: nat, end: nat)

  /** The record at off, if a whole one stands there. */
  ghost function RecordAt(msg: Bytes, off: nat): (r: Option<Raw>)
    ensures r.Some? ==> off + 11 <= r.value.start <= r.value.end <= |msg|
  {
    var owner := NameAt(Reads(msg), off);
    if owner.Err? then None
    else
      assert off < owner.next <= |msg| by { ReadsWithin(msg); NextInBounds(Reads(msg), |msg|, off); }
      if owner.next + 10 > |msg| then None
      else if owner.next + 10 + U16(msg, owner.next + 8) > |msg| then None
      else Some(Raw(owner.name, U16(msg, owner.next), owner.next + 10, owner.next + 10 + U16(msg, owner.next + 8)))
  }

  /** A PTR record of the service names an instance. */
  ghost function PtrFact(msg: Bytes, raw: Raw, service: Bytes): Fact {
    var target := NameAt(Reads(msg), raw.start);
    if EqualFold(raw.owner, service) && target.Ok? then Announced(target.name) else Nothing
  }

  /** An SRV record carries the port and the host after priority and weight. */
  ghost function SrvFact(msg: Bytes, raw: Raw): Fact
    requires raw.start <= raw.end <= |msg|
  {
    var target := NameAt(Reads(msg), raw.start + 6);
    if raw.end - raw.start >= 6 && target.Ok? then Located(raw.owner, target.name, U16(msg, raw.start + 4)) else Nothing
  }

  ghost function TxtFact(msg: Bytes, raw: Raw): Fact
    requires raw.start <= raw.end <= |msg|
  {
    Described(raw.owner, TxtFrom(msg[raw.start..raw.end], 0))
  }

  ghost function AFact(msg: Bytes, raw: Raw): Fact
    requires raw.start <= raw.end <= |msg|
  {
    if raw.end - raw.start == 4 then
      Addressed(raw.owner, Ip(msg[raw.start], msg[raw.start + 1], msg[raw.start + 2], msg[raw.start + 3]))
    else Nothing
  }

  /** What a record states to somebody looking for the service. */
  ghost function FactOf(msg: Bytes, raw: Raw, service: Bytes): Fact
    requires raw.start <= raw.end <= |msg|
  {
    if raw.rrType == TYPE_PTR then PtrFact(msg, raw, service)
    else if raw.rrType == TYPE_SRV then SrvFact(msg, raw)
    else if raw.rrType == TYPE_TXT then TxtFact(msg, raw)
    else if raw.rrType == TYPE_A then AFact(msg, raw)
    else Nothing
  }

  /** Where the records begin, once count questions are skipped. */
  ghost function PastQuestions(msg: Bytes, off: nat, count: nat): Option<nat>
    decreases count
  {
    if count == 0 then Some(off)
    else
      var name := NameAt(Reads(msg), off);
      if name.Err? then None
      else
        assert off < name.next <= |msg| by { ReadsWithin(msg); NextInBounds(Reads(msg), |msg|, off); }
        if name.next + 4 > |msg| then None else PastQuestions(msg, name.next + 4, count - 1)
  }

  /** The facts of up to count records from off, ending at the first broken one. */
  ghost function FactsFrom(msg: Bytes, off: nat, count: nat, service: Bytes): seq<Fact>
    decreases count
  {
    if count == 0 || RecordAt(msg, off).None? then []
    else
      var raw := RecordAt(msg, off).value;
      [FactOf(msg, raw, service)] + FactsFrom(msg, raw.end, count - 1, service)
  }

  ghost function RecordCount(msg: Bytes): nat
    requires |msg| >= 12
  {
    U16(msg, 6) + U16(msg, 8) + U16(msg, 10)
  }

  /** The facts a message states. */
  ghost function Facts(msg: Bytes, service: Bytes): seq<Fact> {
    if |msg| < 12 then []
    else
      match PastQuestions(msg, 12, U16(msg, 4))
      case None => []
      case Some(off) => FactsFrom(msg, off, RecordCount(msg), service)
  }

  /** The length-prefixed strings of TXT data from i on, empty ones dropped. */
  function TxtFrom(rdata: Bytes, i: nat): seq<Bytes>
    decreases |rdata| - i
  {
    if i >= |rdata| || i + 1 + rdata[i] as int > |rdata| then []
    else
      var next := i + 1 + rdata[i] as int;
      (if rdata[i] > 0 then [rdata[i + 1..next]] else []) + TxtFrom(rdata, next)
  }

  // -------------------------------------------------------- what is collected

  datatype Collected = Collected(services: map<Bytes, Service>, hostIP: map<Bytes, seq<Ip>>)

  const EMPTY := Collected(map[], map[])

  function ServiceOf(services: map<Bytes, Service>, instance: Bytes): Service {
    if instance in services then services[instance] else Service(FirstLabel(instance), [], [], 0, [])
  }

  function IpsOf(hostIP: map<Bytes, seq<Ip>>, host: Bytes): seq<Ip> {
    if host in hostIP then hostIP[host] else []
  }

  /** What one fact adds. */
  function Absorb(c: Collected, fact: Fact): Collected {
    match fact
    case Announced(instance) =>
      c.(services := c.services[instance := ServiceOf(c.services, instance)])
    case Located(instance, host, port) =>
      c.(services := c.services[instance := ServiceOf(c.services, instance).(port := port, host := host)])
    case Described(instance, txt) =>
      var s := ServiceOf(c.services, instance);
      c.(services := c.services[instance := s.(txt := s.txt + txt)])
    case Addressed(host, ip) =>
      c.(hostIP := c.hostIP[host := IpsOf(c.hostIP, host) + [ip]])
    case Nothing => c
  }

  function Fold(c: Collected, facts: seq<Fact>): Collected {
    if facts == [] then c
    else Absorb(Fold(c, facts[..|facts| - 1]), facts[|facts| - 1])
  }

  lemma {:induction false} FoldSnoc(c: Collected, facts: seq<Fact>, fact: Fact)
    ensures Fold(c, facts + [fact]) == Absorb(Fold(c, facts), fact)
  {
    assert (facts + [fact])[..|facts|] == facts;
  }

  /** Packet after packet is the same as all facts in a row. */
  lemma {:induction false} FoldCompose(c: Collected, a: seq<Fact>, b: seq<Fact>)
    ensures Fold(c, a + b) == Fold(Fold(c, a), b)
  {
    if b == [] {
      assert a + b == a;
    } else {
      var front, last := b[..|b| - 1], b[|b| - 1];
      assert a + b == (a + front) + [last];
      FoldSnoc(c, a + front, last);
      FoldCompose(c, a, front);
    }
  }

  /** The services with the addresses of their hosts attached. */
  function Attached(c: Collected): map<Bytes, Service> {
    map instance | instance in c.services ::
      c.services[instance].(addrs := c.services[instance].addrs + IpsOf(c.hostIP, c.services[instance].host))
  }

  // ------------------------------------------------------------ the collector

  lemma {:induction false} TxtStep(rdata: Bytes, i: nat)
    requires i < |rdata|
    ensures var next := i + 1 + rdata[i] as int;
      TxtFrom(rdata, i) ==
      if next > |rdata| then [] else (if rdata[i] > 0 then [rdata[i + 1..next]] else []) + TxtFrom(rdata, next)
  {
  }

  /** parseTXT. */
  method ParseTxt(rdata: Bytes) returns (out: seq<Bytes>)
    ensures out == TxtFrom(rdata, 0)
  {
    out := [];
    var i := 0;
    while i < |rdata|
      invariant i <= |rdata|
      invariant out + TxtFrom(rdata, i) == TxtFrom(rdata, 0)
    {
      var l := rdata[i] as int;
      TxtStep(rdata, i);
      hide TxtFrom;
      if i + 1 + l > |rdata| {
        assert out + [] == out;
        return;
      }
      if l > 0 {
        assert out + ([rdata[i + 1..i + 1 + l]] + TxtFrom(rdata, i + 1 + l)) ==
               (out + [rdata[i + 1..i + 1 + l]]) + TxtFrom(rdata, i + 1 + l);
        out := out + [rdata[i + 1..i + 1 + l]];
      }
      i := i + 1 + l;
    }
    assert out + [] == out;
  }

  /** The questions are skipped: name, type and class. */
  method SkipQuestions(msg: Bytes, qd: nat) returns (r: Option<nat>)
    ensures r == PastQuestions(msg, 12, qd)
  {
    hide NameAt, Reads;
    var off: nat := 12;
    for q := 0 to qd
      invariant PastQuestions(msg, off, qd - q) == PastQuestions(msg, 12, qd)
    {
      var name := ParseName(msg, off);
      if name.Err? {
        return None;
      }
      ReadsWithin(msg);
      NextInBounds(Reads(msg), |msg|, off);
      if name.next + 4 > |msg| {
        return None;
      }
      off := name.next + 4;
    }
    return Some(off);
  }

  /** Owner, type and data length of the record at off. */
  method ParseRecord(msg: Bytes, off: nat) returns (r: Option<Raw>)
    ensures r == RecordAt(msg, off)
  {
    hide NameAt, Reads, U16;
    var owner := ParseName(msg, off);
    if owner.Err? {
      return None;
    }
    ReadsWithin(msg);
    NextInBounds(Reads(msg), |msg|, off);
    if owner.next + 10 > |msg| {
      return None;
    }
    var rrType := U16(msg, owner.next);
    var rdlen := U16(msg, owner.next + 8);
    var rdStart := owner.next + 10;
    if rdStart + rdlen > |msg| {
      return None;
    }
    return Some(Raw(owner.name, rrType, rdStart, rdStart + rdlen));
  }

  lemma {:induction false} UpdateTwice(services: map<Bytes, Service>, instance: Bytes, s: Service, s': Service)
    ensures services[instance := s][instance := s'] == services[instance := s']
  {
  }

  /** collector: what has been gathered over the responses so far. */
  class Collector {
    var services: map<Bytes, Service>
    var hostIP: map<Bytes, seq<Ip>>

    function View(): Collected
      reads this
    {
      Collected(services, hostIP)
    }

    constructor ()
      ensures View() == EMPTY
    {
      services, hostIP := map[], map[];
    }

    /** ensure: the service of an instance, created when it is new. */
    method Ensure(instance: Bytes) returns (s: Service)
      modifies this
      ensures s == ServiceOf(old(services), instance)
      ensures services == old(services)[instance := s]
      ensures hostIP == old(hostIP)
    {
      if instance in services {
        s := services[instance];
      } else {
        s := Service(FirstLabel(instance), [], [], 0, []);
      }
      services := services[instance := s];
    }

    method IngestPtr(msg: Bytes, raw: Raw, service: Bytes)
      modifies this
      ensures View() == Absorb(old(View()), PtrFact(msg, raw, service))
    {
      if EqualFold(raw.owner, service) {
        var target := ParseName(msg, raw.start);
        if target.Ok? {
          var s := Ensure(target.name);
        }
      }
    }

    method IngestSrv(msg: Bytes, raw: Raw)
      requires raw.start <= raw.end <= |msg|
      modifies this
      ensures View() == Absorb(old(View()), SrvFact(msg, raw))
    {
      hide NameAt, Reads, U16, FirstLabel;
      if raw.end - raw.start < 6 {
        return;
      }
      var port := U16(msg, raw.start + 4);
      var target := ParseName(msg, raw.start + 6);
      if target.Err? {
        return;
      }
      assert SrvFact(msg, raw) == Located(raw.owner, target.name, port);
      hide SrvFact;
      Locate(raw.owner, target.name, port);
    }

    method Locate(instance: Bytes, host: Bytes, port: nat)
      modifies this
      ensures View() == Absorb(old(View()), Located(instance, host, port))
    {
      hide ServiceOf;
      ghost var before := services;
      var s := Ensure(instance);
      UpdateTwice(before, instance, s, s.(port := port, host := host));
      s := s.(port := port);
      s := s.(host := host);
      services := services[instance := s];
    }

    method IngestTxt(msg: Bytes, raw: Raw)
      requires raw.start <= raw.end <= |msg|
      modifies this
      ensures View() == Absorb(old(View()), TxtFact(msg, raw))
    {
      hide ServiceOf, TxtFrom;
      ghost var before := services;
      var s := Ensure(raw.owner);
      var strings := ParseTxt(msg[raw.start..raw.end]);
      UpdateTwice(before, raw.owner, s, s.(txt := s.txt + strings));
      services := services[raw.owner := s.(txt := s.txt + strings)];
    }

    method IngestA(msg: Bytes, raw: Raw)
      requires raw.start <= raw.end <= |msg|
      modifies this
      ensures View() == Absorb(old(View()), AFact(msg, raw))
    {
      if raw.end - raw.start == 4 {
        var ip := Ip(msg[raw.start], msg[raw.start + 1], msg[raw.start + 2], msg[raw.start + 3]);
        hostIP := hostIP[raw.owner := IpsOf(hostIP, raw.owner) + [ip]];
      }
    }

    method IngestRecord(msg: Bytes, raw: Raw, service: Bytes)
      requires raw.start <= raw.end <= |msg|
      modifies this
      ensures View() == Absorb(old(View()), FactOf(msg, raw, service))
    {
      hide PtrFact, SrvFact, TxtFact, AFact;
      if raw.rrType == TYPE_PTR {
        IngestPtr(msg, raw, service);
      } else if raw.rrType == TYPE_SRV {
        IngestSrv(msg, raw);
      } else if raw.rrType == TYPE_TXT {
        IngestTxt(msg, raw);
      } else if raw.rrType == TYPE_A {
        IngestA(msg, raw);
      }
    }

    /** ingest: one response, its facts folded in. */
    method Ingest(msg: Bytes, service: Bytes)
      modifies this
      ensures View() == Fold(old(View()), Facts(msg, service))
    {
      hide NameAt, RecordAt, PastQuestions, FactOf, Absorb;
      if |msg| < 12 {
        return;
      }
      var total := U16(msg, 6) + U16(msg, 8) + U16(msg, 10);
      var first := SkipQuestions(msg, U16(msg, 4));
      if first.None? {
        return;
      }
      var off := first.value;
      ghost var before, folded := View(), [];
      for r := 0 to total
        invariant folded + FactsFrom(msg, off, total - r, service) == Facts(msg, service)
        invariant View() == Fold(before, folded)
      {
        var rr := ParseRecord(msg, off);
        if rr.None? {
          assert folded + [] == folded;
          return;
        }
        var raw := rr.value;
        FoldSnoc(before, folded, FactOf(msg, raw, service));
        folded := folded + [FactOf(msg, raw, service)];
        off := raw.end;
        IngestRecord(msg, raw, service);
      }
      assert folded + [] == folded;
    }

    /** result: the services, each with the addresses of its host attached, in
        whatever order the map yields them. */
    method Result() returns (out: seq<Service>)
      modifies this
      ensures services == Attached(old(View())) && hostIP == old(hostIP)
      ensures exists order: seq<Bytes> :: IsListing(order, services, out)
    {
      out := [];
      var todo := services.Keys;
      ghost var order: seq<Bytes> := [];
      ghost var before, attached := View(), Attached(View());
      assert Partway(before.services, attached, services, todo) && NoDuplicates(order);
      hide Attached, NoDuplicates, Partway;
      while todo != {}
        invariant hostIP == before.hostIP && Partway(before.services, attached, services, todo)
        invariant NoDuplicates(order) && forall k :: k in order <==> k in attached && k !in todo
        invariant Listed(order, attached, out)
        decreases todo
      {
        var k :| k in todo;
        PartwayOneMore(before.services, attached, services, todo, k);
        var s := services[k];
        var ips := IpsOf(hostIP, s.host);
        AttachedOne(before, k);
        hide IpsOf;
        if |ips| > 0 {
          s := s.(addrs := s.addrs + ips);
        }
        services := services[k := s];
        ListedOneMore(order, attached, out, k);
        out := out + [s];
        order := order + [k];
        todo := todo - {k};
      }
      PartwayThrough(before.services, attached, services);
      assert IsListing(order, services, out);
    }
  }

  /** The services still to do are as they were, the others have their addresses. */
  ghost predicate Partway(
    before: map<Bytes, Service>, attached: map<Bytes, Service>, services: map<Bytes, Service>, todo: set<Bytes>)
  {
    && todo <= before.Keys == services.Keys == attached.Keys
    && forall k :: k in services ==> services[k] == if k in todo then before[k] else attached[k]
  }

  lemma {:induction false} PartwayOneMore(
    before: map<Bytes, Service>, attached: map<Bytes, Service>, services: map<Bytes, Service>, todo: set<Bytes>,
    k: Bytes)
    requires Partway(before, attached, services, todo) && k in todo
    ensures k in services && k in attached && services[k] == before[k]
    ensures Partway(before, attached, services[k := attached[k]], todo - {k})
  {
  }

  lemma {:induction false} PartwayThrough(
    before: map<Bytes, Service>, attached: map<Bytes, Service>, services: map<Bytes, Service>)
    requires Partway(before, attached, services, {})
    ensures services == attached
  {
  }

  ghost predicate Listed(order: seq<Bytes>, services: map<Bytes, Service>, out: seq<Service>) {
    |out| == |order| && forall i :: 0 <= i < |order| ==> order[i] in services && out[i] == services[order[i]]
  }

  lemma {:induction false} ListedOneMore(order: seq<Bytes>, services: map<Bytes, Service>, out: seq<Service>, k: Bytes)
    requires Listed(order, services, out) && k in services && k !in order && NoDuplicates(order)
    ensures Listed(order + [k], services, out + [services[k]]) && NoDuplicates(order + [k])
  {
  }

  lemma {:induction false} AttachedOne(c: Collected, k: Bytes)
    requires k in c.services
    ensures var s, ips := c.services[k], IpsOf(c.hostIP, c.services[k].host);
      Attached(c)[k] == if ips == [] then s else s.(addrs := s.addrs + ips)
  {
    assert c.services[k].addrs + [] == c.services[k].addrs;
  }

  /** out lists every service once, in the order of these instances. */
  ghost predicate IsListing(order: seq<Bytes>, services: map<Bytes, Service>, out: seq<Service>) {
    && NoDuplicates(order)
    && (forall k :: k in order <==> k in services)
    && Listed(order, services, out)
  }
}
