/** Names, records and services in bytes and numbers: what the decoder reads, what the
    encoder writes and what a service is called, told without the functions the
    proofs use (sections 3.1, 3.3.14, 4.1.1 to 4.1.4 of RFC 1035, RFC 2782). */
module DnsPlain {
  import opened Sequences
  import opened NameWalk
  import opened DnsName
  import opened DnsMessage
  import opened DnsResponse
  import opened DnsServices

  // ------------------------------------------------------------------------- names

  /** In name, label k stands behind the labels before it and their dots, and a dot
      stands behind it. */
  ghost predicate LabelStands(name: Bytes, labels: seq<Bytes>, k: nat)
    requires k < |labels|
  {
    var at := Size(labels[..k]);
    && at + |labels[k]| < |name|
    && name[at..at + |labels[k]|] == labels[k]
    && name[at + |labels[k]|] == 46
  }

  lemma {:induction false} DottedSnoc(front: seq<Bytes>, last: Bytes)
    ensures Dotted(front + [last]) == (if front == [] then [] else Dotted(front)) + last + [46]
  {
    JoinSnoc(front, last, DOT);
    hide Join;
    if front == [] {
      assert [] + last == last;
    }
  }

  lemma {:induction false} DottedSpelled(labels: seq<Bytes>)
    ensures labels == [] ==> Dotted(labels) == [46]
    ensures labels != [] ==> |Dotted(labels)| == Size(labels)
    ensures forall k :: 0 <= k < |labels| ==> LabelStands(Dotted(labels), labels, k)
  {
    if labels != [] {
      var front, last := labels[..|labels| - 1], labels[|labels| - 1];
      assert labels == front + [last];
      DottedSpelled(front);
      DottedSnoc(front, last);
      hide Dotted;
      var name, before := Dotted(labels), if front == [] then [] else Dotted(front);
      assert |before| == Size(front) && name == before + last + [46];
      forall k | 0 <= k < |labels| ensures LabelStands(name, labels, k) {
        LabelStandsBehind(before, last, labels, k);
      }
    }
  }

  lemma {:induction false} LabelStandsBehind(before: Bytes, last: Bytes, labels: seq<Bytes>, k: nat)
    requires labels != [] && k < |labels|
    requires var front := labels[..|labels| - 1];
      && labels[|labels| - 1] == last && |before| == Size(front)
      && (k < |front| ==> LabelStands(before, front, k))
    ensures LabelStands(before + last + [46], labels, k)
  {
    var front, name := labels[..|labels| - 1], before + last + [46];
    if k < |front| {
      var at := Size(front[..k]);
      assert front[..k] == labels[..k] && front[k] == labels[k];
      assert name[at..at + |labels[k]|] == before[at..at + |labels[k]|];
    } else {
      assert labels[..k] == front;
      assert name[|before|..|before| + |last|] == last;
    }
  }

  /** The name read where a finite decoding exists: a single dot without labels, else
      every label in its place and a dot right behind each, the last included. */
  lemma {:induction false} NameIsSpelled(step: Steps, off: int, n: nat, labels: seq<Bytes>, next: int)
    requires Decodes(step, off, n, labels, next)
    ensures NameAt(step, off).Ok? && NameAt(step, off).next == next
    ensures var name := NameAt(step, off).name;
      && (labels == [] ==> name == [46])
      && (labels != [] ==> |name| == Size(labels))
      && forall k :: 0 <= k < |labels| ==> LabelStands(name, labels, k)
  {
    DecodingIsName(step, off, n, labels, next);
    DottedSpelled(labels);
  }

  /** The canonical form of a name is spelled so too, from its labels. */
  lemma {:induction false} CanonicalIsSpelled(name: Bytes)
    ensures var labels, canonical := NameLabels(name), Canonical(name);
      && (labels == [] ==> canonical == [46])
      && (labels != [] ==> |canonical| == Size(labels))
      && forall k :: 0 <= k < |labels| ==> LabelStands(canonical, labels, k)
  {
    DottedSpelled(NameLabels(name));
  }

  /** The labels of a name are its parts between dots, a dot at the end or not: empty ones
      are dropped, longer ones cut to 63 bytes. */
  lemma {:induction false} LabelsArePartsCut(parts: seq<Bytes>, last: Bytes)
    requires AllFree(parts + [last], DOT) && last != []
    ensures NameLabels(Join(parts + [last], 46)) == NameLabels(Join(parts + [last], 46) + [46])
    ensures NameLabels(Join(parts + [last], 46)) == Kept(parts) + [if |last| > 63 then last[..63] else last]
  {
    var whole := Join(parts + [last], DOT);
    SplitOfJoin(parts + [last], DOT);
    LastNoDot(parts, last);
    DotIsTrimmed(whole);
    hide Split, Join, TrimDot;
    KeptOneMore(parts, last);
    hide Kept;
  }

  lemma {:induction false} LastNoDot(parts: seq<Bytes>, last: Bytes)
    requires AllFree(parts + [last], DOT) && last != []
    ensures Join(parts + [last], DOT) != []
    ensures var whole := Join(parts + [last], DOT); whole[|whole| - 1] != DOT
  {
    JoinSnoc(parts, last, DOT);
    hide Join;
    assert (parts + [last])[|parts|] == last;
    assert Free(last, DOT);
    assert last[|last| - 1] in last;
  }

  lemma {:induction false} DotIsTrimmed(name: Bytes)
    requires name != [] && name[|name| - 1] != 46
    ensures TrimDot(name) == name && TrimDot(name + [46]) == name
  {
  }

  /** What becomes of one more part. */
  lemma {:induction false} KeptOneMore(parts: seq<Bytes>, last: Bytes)
    ensures Kept([]) == []
    ensures Kept(parts + [last]) ==
            Kept(parts) + if |last| == 0 then [] else [if |last| > 63 then last[..63] else last]
  {
    assert (parts + [last])[..|parts|] == parts;
  }

  /** The bytes of an encoded name: a length byte and its label for each, then a zero. */
  lemma {:induction false} EncodedIsSpelled(name: Bytes)
    ensures var labels, code := NameLabels(name), EncodeName(name);
      && |code| == Size(labels) + 1 && code[Size(labels)] == 0
      && forall k :: 0 <= k < |labels| ==> LabelEncoded(code, labels, k)
  {
    var labels := NameLabels(name);
    LabelsEncoded(labels);
    SizeOfCode(labels);
    var code := EncodeLabels(labels);
    forall k | 0 <= k < |labels| ensures LabelEncoded(code + [0], labels, k) {
      var at := Size(labels[..k]);
      assert LabelEncoded(code, labels, k);
      assert (code + [0])[at + 1..at + 1 + |labels[k]|] == code[at + 1..at + 1 + |labels[k]|];
    }
  }

  ghost predicate LabelEncoded(code: Bytes, labels: seq<Bytes>, k: nat)
    requires k < |labels|
  {
    var at := Size(labels[..k]);
    && at + 1 + |labels[k]| <= |code| && 0 < |labels[k]| <= 63
    && code[at] as int == |labels[k]| && code[at + 1..at + 1 + |labels[k]|] == labels[k]
  }

  lemma {:induction false} LabelsEncoded(labels: seq<Bytes>)
    requires AllOnWire(labels)
    ensures forall k :: 0 <= k < |labels| ==> LabelEncoded(EncodeLabels(labels), labels, k)
  {
    if labels != [] {
      var front, last := labels[..|labels| - 1], labels[|labels| - 1];
      LabelsEncoded(front);
      EncodeSnoc(front, last);
      assert labels == front + [last] && OnWire(last);
      SizeOfCode(front);
      var before, code := EncodeLabels(front), EncodeLabels(labels);
      assert code == before + ([ByteOf(|last|)] + last);
      hide EncodeLabels;
      forall k | 0 <= k < |labels| ensures LabelEncoded(code, labels, k) {
        if k < |front| {
          EncodedAsBefore(before, [ByteOf(|last|)] + last, front, last, k);
        } else {
          LastEncoded(before, front, last);
        }
      }
    }
  }

  lemma {:induction false} EncodedAsBefore(before: Bytes, more: Bytes, front: seq<Bytes>, last: Bytes, k: nat)
    requires k < |front| && LabelEncoded(before, front, k)
    ensures LabelEncoded(before + more, front + [last], k)
  {
    var at, end := Size(front[..k]), Size(front[..k]) + 1 + |front[k]|;
    assert (front + [last])[..k] == front[..k] && (front + [last])[k] == front[k];
    assert (before + more)[at + 1..end] == before[at + 1..end];
  }

  lemma {:induction false} LastEncoded(before: Bytes, front: seq<Bytes>, last: Bytes)
    requires |before| == Size(front) && OnWire(last)
    ensures LabelEncoded(before + ([ByteOf(|last|)] + last), front + [last], |front|)
  {
    assert (front + [last])[..|front|] == front;
    hide Size;
    var code := before + ([ByteOf(|last|)] + last);
    assert code[|before| + 1..] == last;
  }

  // ---------------------------------------------------------- one step of the decoder

  /** Zero ends a name, 1 to 191 takes that many bytes, 192 and up go back to the 14-bit
      position, and what does not fit is refused. */
  lemma {:induction false} StepSpelled(msg: Bytes, pos: int)
    ensures pos < 0 || pos >= |msg| ==> StepAt(msg, pos) == Fail(OutOfBounds)
    ensures 0 <= pos < |msg| && msg[pos] == 0 ==> StepAt(msg, pos) == Stop
    ensures 0 <= pos < |msg| && 1 <= msg[pos] < 192 ==>
      var to := pos + 1 + msg[pos] as int;
      StepAt(msg, pos) == if to <= |msg| then Take(msg[pos + 1..to], to) else Fail(LabelOutOfBounds)
    ensures 0 <= pos < |msg| - 1 && 192 <= msg[pos] ==>
      var to := (msg[pos] as int - 192) * 256 + msg[pos + 1] as int;
      StepAt(msg, pos) == if to < pos then Jump(to) else Fail(NonBackwardPointer)
    ensures 0 <= pos == |msg| - 1 && 192 <= msg[pos] ==> StepAt(msg, pos) == Fail(TruncatedPointer)
  {
  }

  // ---------------------------------------------------------------- records and facts

  /** A record: behind its owner's name the type, six bytes nobody reads, the length of
      the data, the data. */
  lemma {:induction false} RecordSpelled(msg: Bytes, off: nat, owner: Bytes, next: nat)
    ensures NameAt(Reads(msg), off).Err? ==> RecordAt(msg, off) == None
    ensures NameAt(Reads(msg), off) == Ok(owner, next) && next + 10 > |msg| ==> RecordAt(msg, off) == None
    ensures NameAt(Reads(msg), off) == Ok(owner, next) && next + 10 <= |msg| ==>
      var size := msg[next + 8] as int * 256 + msg[next + 9] as int;
      RecordAt(msg, off) ==
      if next + 10 + size > |msg| then None
      else Some(Raw(owner, msg[next] as int * 256 + msg[next + 1] as int, next + 10, next + 10 + size))
  {
    hide NameAt, Reads;
  }

  /** A message's facts: twelve bytes of header with the four counts, the questions, then
      up to as many records as three of the counts add up to. */
  lemma {:induction false} MessageSpelled(msg: Bytes, service: Bytes)
    ensures |msg| < 12 ==> Facts(msg, service) == []
    ensures |msg| >= 12 ==>
      var questions := msg[4] as int * 256 + msg[5] as int;
      var records := (msg[6] as int * 256 + msg[7] as int) + (msg[8] as int * 256 + msg[9] as int)
                     + (msg[10] as int * 256 + msg[11] as int);
      Facts(msg, service) ==
      match PastQuestions(msg, 12, questions)
      case None => []
      case Some(off) => FactsFrom(msg, off, records, service)
  {
    hide PastQuestions, FactsFrom;
  }

  lemma {:induction false} QuestionsSpelled(msg: Bytes, off: nat, count: nat, owner: Bytes, next: nat)
    ensures count == 0 ==> PastQuestions(msg, off, count) == Some(off)
    ensures count > 0 && NameAt(Reads(msg), off).Err? ==> PastQuestions(msg, off, count) == None
    ensures count > 0 && NameAt(Reads(msg), off) == Ok(owner, next) ==>
      PastQuestions(msg, off, count) == if next + 4 > |msg| then None else PastQuestions(msg, next + 4, count - 1)
  {
    hide NameAt, Reads;
  }

  lemma {:induction false} FactsSpelled(msg: Bytes, off: nat, count: nat, service: Bytes)
    ensures count == 0 || RecordAt(msg, off) == None ==> FactsFrom(msg, off, count, service) == []
    ensures count > 0 && RecordAt(msg, off).Some? ==>
      var raw := RecordAt(msg, off).value;
      FactsFrom(msg, off, count, service) ==
      [FactOf(msg, raw, service)] + FactsFrom(msg, raw.end, count - 1, service)
  {
    hide RecordAt, FactOf;
  }

  /** What a record states, by the number of its type: 12 names an instance of the service,
      33 gives port and host, 16 strings, 1 an address of four bytes. */
  lemma {:induction false} FactSpelled(msg: Bytes, raw: Raw, service: Bytes)
    requires raw.start <= raw.end <= |msg|
    ensures raw.rrType == 12 && EqualFold(raw.owner, service) && NameAt(Reads(msg), raw.start).Ok? ==>
      FactOf(msg, raw, service) == Announced(NameAt(Reads(msg), raw.start).name)
    ensures raw.rrType == 12 && !(EqualFold(raw.owner, service) && NameAt(Reads(msg), raw.start).Ok?) ==>
      FactOf(msg, raw, service) == Nothing
    ensures raw.rrType == 33 && raw.end - raw.start >= 6 && NameAt(Reads(msg), raw.start + 6).Ok? ==>
      FactOf(msg, raw, service) == Located(raw.owner, NameAt(Reads(msg), raw.start + 6).name,
                                           msg[raw.start + 4] as nat * 256 + msg[raw.start + 5] as nat)
    ensures raw.rrType == 33 && !(raw.end - raw.start >= 6 && NameAt(Reads(msg), raw.start + 6).Ok?) ==>
      FactOf(msg, raw, service) == Nothing
    ensures raw.rrType == 16 ==>
      FactOf(msg, raw, service) == Described(raw.owner, TxtFrom(msg[raw.start..raw.end], 0))
    ensures raw.rrType == 1 && raw.end - raw.start == 4 ==>
      FactOf(msg, raw, service) ==
      Addressed(raw.owner, Ip(msg[raw.start], msg[raw.start + 1], msg[raw.start + 2], msg[raw.start + 3]))
    ensures raw.rrType == 1 && raw.end - raw.start != 4 ==> FactOf(msg, raw, service) == Nothing
    ensures raw.rrType !in {1, 12, 16, 33} ==> FactOf(msg, raw, service) == Nothing
  {
    hide NameAt, Reads, EqualFold, TxtFrom;
  }

  /** The same letters, upper or lower case, and the same other bytes. */
  lemma {:induction false} EqualFoldSpelled(a: Bytes, b: Bytes)
    ensures EqualFold(a, b) <==>
            |a| == |b| && forall i :: 0 <= i < |a| ==>
              || a[i] == b[i]
              || (65 <= a[i] <= 90 && b[i] as int == a[i] as int + 32)
              || (65 <= b[i] <= 90 && a[i] as int == b[i] as int + 32)
  {
  }

  /** TXT data that breaks off, or ends where a string should begin: the strings before
      that, empty ones dropped. */
  lemma {:induction false} TxtUpToTheBreak(rdata: Bytes, i: nat, strings: seq<Bytes>)
    requires FitsTxt(strings) && CodeAt(rdata, i, TxtCode(strings))
    requires var end := i + |TxtCode(strings)|; end == |rdata| || end + 1 + rdata[end] as int > |rdata|
    ensures TxtFrom(rdata, i) == NonEmpty(strings)
    decreases |strings|
  {
    hide CodeAt, ByteOf;
    if strings != [] {
      var s, rest := strings[0], strings[1..];
      var head := [ByteOf(|s|)] + s;
      TxtParts(strings);
      hide FitsTxt, TxtCode, NonEmpty, TxtFrom;
      CodePrefix(rdata, i, head, TxtCode(rest));
      OneString(rdata, i, s);
      TxtUpToTheBreak(rdata, i + 1 + |s|, rest);
    }
  }

  /** Dropping empty strings keeps the others, in their order. */
  lemma {:induction false} NonEmptyOneMore(strings: seq<Bytes>, last: Bytes)
    ensures NonEmpty([]) == []
    ensures NonEmpty(strings + [last]) == NonEmpty(strings) + if |last| == 0 then [] else [last]
    decreases |strings|
  {
    if strings == [] {
      assert [last][1..] == [];
    } else {
      assert (strings + [last])[1..] == strings[1..] + [last];
      NonEmptyOneMore(strings[1..], last);
    }
  }

  // ---------------------------------------------------------------- services, by field

  /** The instance without what stands from its first dot on. */
  ghost predicate IsFirstLabel(name: Bytes, instance: Bytes) {
    && 46 !in name && |name| <= |instance| && instance[..|name|] == name
    && (|name| < |instance| ==> instance[|name|] == 46)
  }

  lemma {:induction false} FirstLabelSpelled(instance: Bytes)
    ensures IsFirstLabel(FirstLabel(instance), instance)
  {
    SplitPartsFree(instance, DOT);
    JoinOfSplit(instance, DOT);
    var parts := Split(instance, DOT);
    assert parts[0] in parts;
    assert Free(parts[0], DOT);
    hide Split;
    assert |parts| > 1 ==> Join(parts, DOT) == parts[0] + [DOT] + Join(parts[1..], DOT);
    assert |parts| == 1 ==> Join(parts, DOT) == parts[0];
    hide Join;
  }

  ghost function FoundService(facts: seq<Fact>, instance: Bytes): Service
    requires Mentioned(facts, instance)
  {
    ServicesAreStated(facts, instance);
    Attached(Fold(EMPTY, facts))[instance]
  }

  /** Every service found is called what stands before the first dot of its instance. */
  lemma {:induction false} ServiceNamed(facts: seq<Fact>, instance: Bytes)
    requires Mentioned(facts, instance)
    ensures var name := FoundService(facts, instance).name;
      && 46 !in name && |name| <= |instance| && instance[..|name|] == name
      && (|name| < |instance| ==> instance[|name|] == 46)
  {
    FirstLabelSpelled(instance);
    ServicesAreStated(facts, instance);
    hide Fold, Attached, FirstLabel, LastHost, LastPort, AllTxt, AllIps;
  }

  /** Host and port are those of the last SRV record of the instance, none without one. */
  lemma {:induction false} LastSrvCounts(facts: seq<Fact>, instance: Bytes, more: seq<Fact>, srv: Fact)
    requires Mentioned(facts + [srv] + more, instance)
    requires forall j :: 0 <= j < |more| ==> !(more[j].Located? && more[j].instance == instance)
    ensures var found := FoundService(facts + [srv] + more, instance);
      srv.Located? && srv.instance == instance ==> found.host == srv.host && found.port == srv.port
    ensures Mentioned(more, instance) ==>
      FoundService(more, instance).host == [] && FoundService(more, instance).port == 0
  {
    var all := facts + [srv] + more;
    ServicesAreStated(all, instance);
    if Mentioned(more, instance) {
      ServicesAreStated(more, instance);
    }
    hide Fold, Attached, FirstLabel, AllTxt, AllIps, Mentioned;
    assert all[..|facts| + 1][..|facts|] == facts;
    LastSrvBefore(facts + [srv], more, instance);
    LastSrvBefore([], more, instance);
    assert [] + more == more;
  }

  lemma {:induction false} LastSrvBefore(facts: seq<Fact>, more: seq<Fact>, instance: Bytes)
    requires forall j :: 0 <= j < |more| ==> !(more[j].Located? && more[j].instance == instance)
    ensures LastHost(facts + more, instance) == LastHost(facts, instance)
    ensures LastPort(facts + more, instance) == LastPort(facts, instance)
  {
    if more == [] {
      assert facts + more == facts;
    } else {
      var front := more[..|more| - 1];
      assert (facts + more)[..|facts + more| - 1] == facts + front;
      LastSrvBefore(facts, front, instance);
    }
  }

  /** One more fact: TXT strings go behind those there are, and an address of the host
      behind its addresses; nothing else touches either. */
  lemma {:induction false} TextsAndAddressesInOrder(facts: seq<Fact>, last: Fact, instance: Bytes)
    requires Mentioned(facts, instance)
    ensures Mentioned(facts + [last], instance)
    ensures var before, after := FoundService(facts, instance), FoundService(facts + [last], instance);
      && after.txt == before.txt + (if last.Described? && last.instance == instance then last.txt else [])
      && (last.Addressed? ==>
          after.addrs == before.addrs + if last.host == before.host then [last.ip] else [])
      && (!(last.Addressed? || (last.Located? && last.instance == instance)) ==> after.addrs == before.addrs)
  {
    var facts' := facts + [last];
    assert facts'[..|facts|] == facts;
    MentionedSnoc(facts', instance);
    ServicesAreStated(facts, instance);
    ServicesAreStated(facts', instance);
    hide Fold, Attached, FirstLabel, Mentioned;
    var host := LastHost(facts, instance);
    assert AllTxt(facts', instance) ==
      AllTxt(facts, instance) + if last.Described? && last.instance == instance then last.txt else [];
    assert AllIps(facts', host) == AllIps(facts, host) + if last.Addressed? && last.host == host then [last.ip] else [];
    assert !(last.Located? && last.instance == instance) ==> LastHost(facts', instance) == host;
    hide AllTxt, AllIps, LastHost, LastPort;
  }

  /** No address comes from anywhere but an A record of the host. */
  lemma {:induction false} AddressesAreOfTheHost(facts: seq<Fact>, instance: Bytes, ip: Ip)
    requires Mentioned(facts, instance)
    ensures ip in FoundService(facts, instance).addrs <==>
            exists i :: 0 <= i < |facts| && facts[i] == Addressed(FoundService(facts, instance).host, ip)
  {
    ServicesAreStated(facts, instance);
    IpsOfHost(facts, LastHost(facts, instance), ip);
    hide Fold, Attached, FirstLabel, AllIps, LastHost;
  }

  lemma {:induction false} IpsOfHost(facts: seq<Fact>, host: Bytes, ip: Ip)
    ensures ip in AllIps(facts, host) <==> exists i :: 0 <= i < |facts| && facts[i] == Addressed(host, ip)
  {
    if facts != [] {
      var front := facts[..|facts| - 1];
      IpsOfHost(front, host, ip);
      if i :| 0 <= i < |facts| && facts[i] == Addressed(host, ip) && i < |front| {
        assert front[i] == Addressed(host, ip);
      }
      if i :| 0 <= i < |front| && front[i] == Addressed(host, ip) {
        assert facts[i] == Addressed(host, ip);
      }
    }
  }

  /** A service is found exactly for an instance that a PTR record of the service points to
      or that an SRV or TXT record is about. */
  lemma {:induction false} FoundIffMentioned(facts: seq<Fact>, instance: Bytes)
    ensures instance in Attached(Fold(EMPTY, facts)) <==>
            exists i :: 0 <= i < |facts| &&
              (|| (facts[i].Announced? && facts[i].instance == instance)
               || (facts[i].Located? && facts[i].instance == instance)
               || (facts[i].Described? && facts[i].instance == instance))
  {
    ServicesAreStated(facts, instance);
    hide Fold, Attached;
  }

  // ------------------------------------------------------------------ query and browse

  /** The query: header with one question, name, type 12, class 1 with the top bit set. */
  lemma {:induction false} QuerySpelled(name: Bytes)
    ensures Query(name).Encoded() == [0, 0, 0, 0, 0, 1, 0, 0, 0, 0, 0, 0] + EncodeName(name) + [0, 12, 128, 1]
  {
    QueryCode(name);
    hide Query, EncodeName;
    assert QUERY_CLASS == [0, 12, 128, 1];
  }

  /** What is received: the packets before the first read that is none, each as far as the
      buffer holds it; that read ends it. */
  lemma {:induction false} ReceivedSpelled(packets: seq<Bytes>, stop: Read, rest: seq<Read>)
    requires !stop.Packet?
    ensures var incoming := seq(|packets|, i requires 0 <= i < |packets| => Packet(packets[i]));
      && Stopper(incoming + [stop] + rest) == Some(stop) && Stopper(incoming) == None
      && |Received(incoming + [stop] + rest)| == |packets| == |Received(incoming)|
      && forall i :: 0 <= i < |packets| ==>
        Received(incoming + [stop] + rest)[i] == Received(incoming)[i] == Buffered(packets[i])
  {
    var incoming := seq(|packets|, i requires 0 <= i < |packets| => Packet(packets[i]));
    ReceivedUpTo(incoming, [stop] + rest);
    ReceivedUpTo(incoming, []);
    assert incoming + [] == incoming && incoming + ([stop] + rest) == incoming + [stop] + rest;
    hide Received, Stopper, Buffered;
  }

  lemma {:induction false} ReceivedUpTo(incoming: seq<Read>, rest: seq<Read>)
    requires (forall i :: 0 <= i < |incoming| ==> incoming[i].Packet?) && (rest == [] || !rest[0].Packet?)
    ensures Stopper(incoming + rest) == if rest == [] then None else Some(rest[0])
    ensures |Received(incoming + rest)| == |incoming|
    ensures forall i :: 0 <= i < |incoming| ==> Received(incoming + rest)[i] == Buffered(incoming[i].bytes)
  {
    if incoming == [] {
      assert incoming + rest == rest;
    } else {
      assert (incoming + rest)[1..] == incoming[1..] + rest;
      ReceivedUpTo(incoming[1..], rest);
      hide Buffered;
    }
  }

  /** What is listed: each service once, and nothing else. */
  lemma {:induction false} ListingSpelled(order: seq<Bytes>, services: map<Bytes, Service>, out: seq<Service>)
    requires IsListing(order, services, out)
    ensures |out| == |services|
    ensures forall instance :: instance in services ==> exists i :: 0 <= i < |out| && order[i] == instance
    ensures forall i :: 0 <= i < |out| ==> order[i] in services && out[i] == services[order[i]]
    ensures forall i, j :: 0 <= i < j < |out| ==> order[i] != order[j]
  {
    CardinalityOfDistinct(order);
    assert Elements(order) == services.Keys;
  }
}
