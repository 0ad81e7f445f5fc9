/** What a browse finds: the services as a function of the records that were
    sent, without replaying the collector (internal/discovery/mdns.go). */
module DnsServices {
  import opened Sequences
  import opened NameWalk
  import opened DnsMessage
  import opened DnsResponse

  // ------------------------------------------------- the facts, read directly

  predicate About(fact: Fact, instance: Bytes) {
    match fact
    case Announced(i) => i == instance
    case Located(i, _, _) => i == instance
    case Described(i, _) => i == instance
    case Addressed(_, _) => false
    case Nothing => false
  }

  ghost predicate Mentioned(facts: seq<Fact>, instance: Bytes) {
    exists i :: 0 <= i < |facts| && About(facts[i], instance)
  }

  /** The host the last SRV record of the instance names, none without one. */
  function LastHost(facts: seq<Fact>, instance: Bytes): Bytes {
    if facts == [] then []
    else
      var last := facts[|facts| - 1];
      if last.Located? && last.instance == instance then last.host else LastHost(facts[..|facts| - 1], instance)
  }

  function LastPort(facts: seq<Fact>, instance: Bytes): nat {
    if facts == [] then 0
    else
      var last := facts[|facts| - 1];
      if last.Located? && last.instance == instance then last.port else LastPort(facts[..|facts| - 1], instance)
  }

  /** All TXT strings of the instance, in the order they arrived. */
  function AllTxt(facts: seq<Fact>, instance: Bytes): seq<Bytes> {
    if facts == [] then []
    else
      var last := facts[|facts| - 1];
      AllTxt(facts[..|facts| - 1], instance) + if last.Described? && last.instance == instance then last.txt else []
  }

  /** All addresses of the host, in the order they arrived. */
  function AllIps(facts: seq<Fact>, host: Bytes): seq<Ip> {
    if facts == [] then []
    else
      var last := facts[|facts| - 1];
      AllIps(facts[..|facts| - 1], host) + if last.Addressed? && last.host == host then [last.ip] else []
  }

  function ServiceStated(facts: seq<Fact>, instance: Bytes): Service {
    Service(FirstLabel(instance), LastHost(facts, instance), AllIps(facts, LastHost(facts, instance)),
            LastPort(facts, instance), AllTxt(facts, instance))
  }

  // ----------------------------------------------------------- what was folded

  lemma {:induction false} MentionedSnoc(facts: seq<Fact>, instance: Bytes)
    requires facts != []
    ensures Mentioned(facts, instance) <==>
            Mentioned(facts[..|facts| - 1], instance) || About(facts[|facts| - 1], instance)
  {
    var front := facts[..|facts| - 1];
    if i :| 0 <= i < |facts| && About(facts[i], instance) {
      assert i == |facts| - 1 || About(front[i], instance);
    }
    if i :| 0 <= i < |front| && About(front[i], instance) {
      assert About(facts[i], instance);
    }
  }

  /** What one fact does to the service of one instance. */
  function Told(s: Service, fact: Fact, instance: Bytes): Service {
    if !About(fact, instance) then s
    else if fact.Located? then s.(host := fact.host, port := fact.port)
    else if fact.Described? then s.(txt := s.txt + fact.txt)
    else s
  }

  lemma {:induction false} AbsorbedService(c: Collected, fact: Fact, instance: Bytes)
    ensures instance in Absorb(c, fact).services <==> instance in c.services || About(fact, instance)
    ensures ServiceOf(Absorb(c, fact).services, instance) == Told(ServiceOf(c.services, instance), fact, instance)
  {
    hide FirstLabel;
  }

  lemma {:induction false} FoldedService(facts: seq<Fact>, instance: Bytes)
    ensures instance in Fold(EMPTY, facts).services <==> Mentioned(facts, instance)
    ensures ServiceOf(Fold(EMPTY, facts).services, instance) ==
            Service(FirstLabel(instance), LastHost(facts, instance), [],
                    LastPort(facts, instance), AllTxt(facts, instance))
  {
    if facts == [] {
    } else {
      hide FirstLabel, Mentioned, Absorb, ServiceOf;
      var front, last := facts[..|facts| - 1], facts[|facts| - 1];
      FoldedService(front, instance);
      MentionedSnoc(facts, instance);
      AbsorbedService(Fold(EMPTY, front), last, instance);
      assert AllTxt(front, instance) + [] == AllTxt(front, instance);
    }
  }

  lemma {:induction false} FoldedAddresses(facts: seq<Fact>, host: Bytes)
    ensures IpsOf(Fold(EMPTY, facts).hostIP, host) == AllIps(facts, host)
  {
    if facts != [] {
      FoldedAddresses(facts[..|facts| - 1], host);
    }
  }

  /** The services after any facts: one for every instance mentioned, with the
      host and port of its last SRV record, all its TXT strings and all the
      addresses of that host. */
  lemma {:induction false} ServicesAreStated(facts: seq<Fact>, instance: Bytes)
    ensures instance in Attached(Fold(EMPTY, facts)) <==> Mentioned(facts, instance)
    ensures Mentioned(facts, instance) ==> Attached(Fold(EMPTY, facts))[instance] == ServiceStated(facts, instance)
  {
    hide Fold, FirstLabel, Mentioned;
    FoldedService(facts, instance);
    FoldedAddresses(facts, LastHost(facts, instance));
  }

  // -------------------------------------------------- addresses in either order

  function Addresses(facts: seq<Fact>): seq<Fact> {
    if facts == [] then []
    else
      var last := facts[|facts| - 1];
      Addresses(facts[..|facts| - 1]) + if last.Addressed? then [last] else []
  }

  function Others(facts: seq<Fact>): seq<Fact> {
    if facts == [] then []
    else
      var last := facts[|facts| - 1];
      Others(facts[..|facts| - 1]) + if last.Addressed? then [] else [last]
  }

  /** An address touches only the addresses, and anything else only the services. */
  lemma {:induction false} AbsorbApart(c: Collected, d: Collected, fact: Fact)
    ensures fact.Addressed? ==> Absorb(c, fact).services == c.services
    ensures fact.Addressed? && c.hostIP == d.hostIP ==> Absorb(c, fact).hostIP == Absorb(d, fact).hostIP
    ensures !fact.Addressed? ==> Absorb(c, fact).hostIP == c.hostIP
    ensures !fact.Addressed? && c.services == d.services ==> Absorb(c, fact).services == Absorb(d, fact).services
  {
  }

  lemma {:induction false} FoldApart(facts: seq<Fact>)
    ensures Fold(EMPTY, facts).services == Fold(EMPTY, Others(facts)).services
    ensures Fold(EMPTY, facts).hostIP == Fold(EMPTY, Addresses(facts)).hostIP
  {
    hide Absorb;
    if facts == [] {
    } else {
      var front, last := facts[..|facts| - 1], facts[|facts| - 1];
      FoldApart(front);
      AbsorbApart(Fold(EMPTY, front), Fold(EMPTY, Others(front)), last);
      AbsorbApart(Fold(EMPTY, front), Fold(EMPTY, Addresses(front)), last);
      FoldSnoc(EMPTY, Others(front), last);
      FoldSnoc(EMPTY, Addresses(front), last);
      assert Others(front) + [] == Others(front);
      assert Addresses(front) + [] == Addresses(front);
    }
  }

  /** Address records may come before or after the SRV record naming their host:
      moving them about among the others changes nothing. */
  lemma {:induction false} AddressesMayComeAnywhere(a: seq<Fact>, b: seq<Fact>)
    requires Addresses(a) == Addresses(b) && Others(a) == Others(b)
    ensures Attached(Fold(EMPTY, a)) == Attached(Fold(EMPTY, b))
  {
    FoldApart(a);
    FoldApart(b);
  }

  // ------------------------------------------------------------- a whole browse

  /** The facts of all packets in a row. */
  ghost function PacketFacts(packets: seq<Bytes>, service: Bytes): seq<Fact> {
    if packets == [] then []
    else PacketFacts(packets[..|packets| - 1], service) + Facts(packets[|packets| - 1], service)
  }

  /** What a read from the socket brings; DeadlineReached ends the collecting. */
  datatype Read = Packet(bytes: Bytes) | DeadlineReached | ReadFailed

  /** The read buffer; section 17 of RFC 6762 allows no longer packet. */
  const BUFFER_SIZE := 9000

  /** A datagram as it is read: what does not fit the buffer is lost. */
  function Buffered(bytes: Bytes): Bytes {
    if |bytes| > BUFFER_SIZE then bytes[..BUFFER_SIZE] else bytes
  }

  /** The packets read before anything else is. */
  function Received(incoming: seq<Read>): seq<Bytes> {
    if incoming == [] || !incoming[0].Packet? then [] else [Buffered(incoming[0].bytes)] + Received(incoming[1..])
  }

  /** The read that is no packet, if one comes before the context is cancelled. */
  function Stopper(incoming: seq<Read>): Option<Read> {
    if incoming == [] then None else if incoming[0].Packet? then Stopper(incoming[1..]) else Some(incoming[0])
  }

  /** The first i reads were packets. */
  ghost predicate Taken(incoming: seq<Read>, i: nat)
    requires i <= |incoming|
  {
    && (forall k :: 0 <= k < i ==> incoming[k].Packet?)
    && Received(incoming) == Received(incoming[..i]) + Received(incoming[i..])
    && Stopper(incoming) == Stopper(incoming[i..])
  }

  lemma {:induction false} TakenOneMore(incoming: seq<Read>, i: nat)
    requires i < |incoming| && Taken(incoming, i)
    ensures incoming[i].Packet? ==>
      Taken(incoming, i + 1) && Received(incoming[..i + 1]) == Received(incoming[..i]) + [Buffered(incoming[i].bytes)]
    ensures !incoming[i].Packet? ==>
      Received(incoming) == Received(incoming[..i]) && Stopper(incoming) == Some(incoming[i])
  {
    assert incoming[i..][1..] == incoming[i + 1..];
    if incoming[i].Packet? {
      assert incoming[..i + 1] == incoming[..i] + [incoming[i]];
      ReceivedSnoc(incoming[..i], incoming[i]);
    }
  }

  lemma {:induction false} TakenThrough(incoming: seq<Read>)
    requires Taken(incoming, |incoming|)
    ensures Received(incoming[..|incoming|]) == Received(incoming) && Stopper(incoming) == None
  {
    assert incoming[..|incoming|] == incoming;
  }

  lemma {:induction false} ReceivedSnoc(incoming: seq<Read>, read: Read)
    requires read.Packet? && forall k :: 0 <= k < |incoming| ==> incoming[k].Packet?
    ensures Received(incoming + [read]) == Received(incoming) + [Buffered(read.bytes)]
  {
    if incoming == [] {
      assert [read][1..] == [];
    } else {
      assert (incoming + [read])[1..] == incoming[1..] + [read];
      ReceivedSnoc(incoming[1..], read);
    }
  }

  /** The receive loop of Browse: the deadline is expected, any other failed read is
      reported, and what came before is returned either way. */
  method Browse(incoming: seq<Read>, service: Bytes) returns (out: seq<Service>, failed: bool)
    ensures exists order: seq<Bytes> ::
      IsListing(order, Attached(Fold(EMPTY, PacketFacts(Received(incoming), service))), out)
    ensures failed <==> Stopper(incoming) == Some(ReadFailed)
  {
    var collector := new Collector();
    failed := false;
    assert Taken(incoming, 0) && Fold(EMPTY, []) == EMPTY;
    hide Facts, Fold, Attached, Taken, Stopper, IsListing;
    for i := 0 to |incoming|
      invariant collector.View() == Fold(EMPTY, PacketFacts(Received(incoming[..i]), service))
      invariant fresh(collector) && !failed && Taken(incoming, i)
    {
      TakenOneMore(incoming, i);
      if !incoming[i].Packet? {
        out := collector.Result();
        failed := incoming[i].ReadFailed?;
        return;
      }
      var buf := Buffered(incoming[i].bytes);
      collector.Ingest(buf, service);
      OnePacketMore(Received(incoming[..i]), buf, service);
    }
    TakenThrough(incoming);
    out := collector.Result();
  }

  lemma {:induction false} OnePacketMore(packets: seq<Bytes>, packet: Bytes, service: Bytes)
    ensures Fold(EMPTY, PacketFacts(packets + [packet], service)) ==
            Fold(Fold(EMPTY, PacketFacts(packets, service)), Facts(packet, service))
  {
    assert (packets + [packet])[..|packets|] == packets;
    FoldCompose(EMPTY, PacketFacts(packets, service), Facts(packet, service));
    hide Fold, Facts;
  }

  ghost predicate AllValid(messages: seq<Message>) {
    forall i :: 0 <= i < |messages| ==> messages[i].Valid()
  }

  ghost function Codes(messages: seq<Message>): seq<Bytes>
    requires AllValid(messages)
  {
    if messages == [] then []
    else Codes(messages[..|messages| - 1]) + [messages[|messages| - 1].Encoded()]
  }

  /** What the senders said, message after message. */
  function AllSaid(messages: seq<Message>, service: Bytes): seq<Fact> {
    if messages == [] then []
    else AllSaid(messages[..|messages| - 1], service) + AllStated(RecordsOf(messages[|messages| - 1]), service)
  }

  lemma {:induction false} PacketsSayRecords(messages: seq<Message>, service: Bytes)
    requires AllValid(messages)
    ensures PacketFacts(Codes(messages), service) == AllSaid(messages, service)
  {
    if messages == [] {
    } else {
      var front, last := messages[..|messages| - 1], messages[|messages| - 1];
      PacketsSayRecords(front, service);
      MessageFacts(last, [], service);
      assert last.Encoded() + [] == last.Encoded();
      assert Codes(messages)[..|Codes(messages)| - 1] == Codes(front);
    }
  }

  ghost predicate AllInBuffer(messages: seq<Message>) {
    forall i :: 0 <= i < |messages| ==> |messages[i].Encoded()| <= BUFFER_SIZE
  }

  /** The messages as they arrive, one in a packet. */
  ghost function Arriving(messages: seq<Message>): seq<Read> {
    if messages == [] then []
    else Arriving(messages[..|messages| - 1]) + [Packet(messages[|messages| - 1].Encoded())]
  }

  lemma {:induction false} ArrivingIsReceived(messages: seq<Message>)
    requires AllValid(messages) && AllInBuffer(messages)
    ensures forall i :: 0 <= i < |Arriving(messages)| ==> Arriving(messages)[i].Packet?
    ensures Received(Arriving(messages)) == Codes(messages)
  {
    if messages != [] {
      var front, last := messages[..|messages| - 1], messages[|messages| - 1];
      ArrivingIsReceived(front);
      ReceivedSnoc(Arriving(front), Packet(last.Encoded()));
      hide Received;
    }
  }

  /** Browsing well-formed responses that fit the read buffer finds exactly the services
      their records describe. */
  lemma {:induction false} BrowseFindsWhatWasSaid(messages: seq<Message>, service: Bytes, instance: Bytes)
    requires AllValid(messages) && AllInBuffer(messages)
    ensures var found := Attached(Fold(EMPTY, PacketFacts(Received(Arriving(messages)), service)));
      var said := AllSaid(messages, service);
      && (instance in found <==> Mentioned(said, instance))
      && (instance in found ==> found[instance] == ServiceStated(said, instance))
  {
    ArrivingIsReceived(messages);
    PacketsSayRecords(messages, service);
    ServicesAreStated(AllSaid(messages, service), instance);
  }

  /** Attaching the addresses a second time leaves the services as they are only
      when no service has a host with addresses: result is for one call. */
  lemma {:induction false} AttachTwice(c: Collected)
    ensures Attached(Collected(Attached(c), c.hostIP)) == Attached(c) <==>
            forall instance :: instance in c.services ==> IpsOf(c.hostIP, c.services[instance].host) == []
  {
    var once := Attached(c);
    var twice := Attached(Collected(once, c.hostIP));
    assert once.Keys == twice.Keys == c.services.Keys;
    if instance :| instance in c.services && IpsOf(c.hostIP, c.services[instance].host) != [] {
      assert |twice[instance].addrs| > |once[instance].addrs|;
    } else {
      forall instance | instance in c.services ensures twice[instance] == once[instance] {
        assert once[instance].addrs + [] == once[instance].addrs;
      }
    }
  }

  /** Of a datagram the first nine thousand bytes are read. */
  lemma {:induction false} BufferSpelled(bytes: Bytes)
    ensures |bytes| <= 9000 ==> Buffered(bytes) == bytes
    ensures |bytes| > 9000 ==> |Buffered(bytes)| == 9000 && Buffered(bytes) <= bytes
  {
  }
}
