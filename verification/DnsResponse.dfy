/** Responses built record by record, their names written out or compressed, and
    the theorem that ingesting one states exactly the facts of its records.

    Sections 4.1.1 to 4.1.4 of RFC 1035 give the header and record layout,
    RFC 2782 the SRV data, section 3.3.14 of RFC 1035 the TXT data and
    section 5.4 of RFC 6762 the query class. */
module DnsResponse {
  import opened Sequences
  import opened NameWalk
  import opened DnsName
  import opened DnsCompression
  import opened DnsMessage

  /** The low sixteen bits, high byte first. */
  function U16Code(n: nat): (code: Bytes)
    ensures |code| == 2
  {
    [ByteOf(n / 256), ByteOf(n)]
  }

  datatype Record =
    | Ptr(owner: Name, target: Name)
    | Srv(owner: Name, priority: nat, weight: nat, port: nat, target: Name)
    | Txt(owner: Name, strings: seq<Bytes>)
    | A(owner: Name, ip: Ip)
    | Other(owner: Name, rrType: nat, rdata: Bytes)

  /** A record on the wire: what it says, and its class and TTL, which nobody reads. */
  datatype Wire = Wire(record: Record, classTtl: Bytes)

  /** A question: its name, and type and class. */
  datatype Question = Question(name: Name, typeClass: Bytes)

  function TypeOf(r: Record): nat {
    match r
    case Ptr(_, _) => TYPE_PTR
    case Srv(_, _, _, _, _) => TYPE_SRV
    case Txt(_, _) => TYPE_TXT
    case A(_, _) => TYPE_A
    case Other(_, rrType, _) => rrType
  }

  ghost predicate FitsTxt(strings: seq<Bytes>) {
    forall i :: 0 <= i < |strings| ==> |strings[i]| < 256
  }

  ghost predicate HasTarget(r: Record) {
    r.Ptr? || r.Srv?
  }

  ghost predicate Shaped(r: Record) {
    && TypeOf(r) < 0x10000
    && Codable(r.owner) && (HasTarget(r) ==> Codable(r.target))
    && (r.Srv? ==> r.priority < 0x10000 && r.weight < 0x10000 && r.port < 0x10000)
    && (r.Txt? ==> FitsTxt(r.strings))
    && (r.Other? ==> r.rrType !in {TYPE_A, TYPE_PTR, TYPE_TXT, TYPE_SRV})
  }

  ghost function TxtCode(strings: seq<Bytes>): Bytes {
    if strings == [] then []
    else ([ByteOf(|strings[0]|)] + strings[0]) + TxtCode(strings[1..])
  }

  ghost function Rdata(r: Record): Bytes {
    match r
    case Ptr(_, target) => Code(target)
    case Srv(_, priority, weight, port, target) =>
      (U16Code(priority) + U16Code(weight)) + (U16Code(port) + Code(target))
    case Txt(_, strings) => TxtCode(strings)
    case A(_, ip) => [ip.a, ip.b, ip.c, ip.d]
    case Other(_, _, rdata) => rdata
  }

  ghost predicate FitsWire(w: Wire) {
    Shaped(w.record) && |Rdata(w.record)| < 0x10000 && |w.classTtl| == 6
  }

  ghost function FixedCode(w: Wire): Bytes {
    U16Code(TypeOf(w.record)) + w.classTtl + U16Code(|Rdata(w.record)|)
  }

  ghost function RecordCode(w: Wire): Bytes {
    Code(w.record.owner) + (FixedCode(w) + Rdata(w.record))
  }

  ghost predicate AllFit(ws: seq<Wire>) {
    forall i :: 0 <= i < |ws| ==> FitsWire(ws[i])
  }

  ghost function RecordsCode(ws: seq<Wire>): Bytes {
    if ws == [] then [] else RecordCode(ws[0]) + RecordsCode(ws[1..])
  }

  ghost predicate AllQuestions(qs: seq<Question>) {
    forall i :: 0 <= i < |qs| ==> Codable(qs[i].name) && |qs[i].typeClass| == 4
  }

  ghost function QuestionsCode(qs: seq<Question>): Bytes {
    if qs == [] then [] else Code(qs[0].name) + (qs[0].typeClass + QuestionsCode(qs[1..]))
  }

  // ------------------------------------------------- what pointers may point to

  /** The target's place when the data begins at start. */
  ghost function TargetAt(r: Record, start: nat): nat {
    if r.Srv? then start + 6 else start
  }

  ghost function SpotsOfData(r: Record, start: nat): set<Spot> {
    if HasTarget(r) then SpotsOf(r.target, TargetAt(r, start)) else {}
  }

  /** The owner points back into what stands before the record, the target into that
      or the owner. */
  ghost predicate NamesFit(w: Wire, off: nat, spots: set<Spot>) {
    && Fits(w.record.owner, spots)
    && (HasTarget(w.record) ==> Fits(w.record.target, spots + SpotsOf(w.record.owner, off)))
  }

  ghost function SpotsAfter(w: Wire, off: nat, spots: set<Spot>): set<Spot> {
    spots + SpotsOf(w.record.owner, off) + SpotsOfData(w.record, off + |Code(w.record.owner)| + 10)
  }

  ghost predicate AllNamesFit(ws: seq<Wire>, off: nat, spots: set<Spot>) {
    ws == [] ||
    (NamesFit(ws[0], off, spots) && AllNamesFit(ws[1..], off + |RecordCode(ws[0])|, SpotsAfter(ws[0], off, spots)))
  }

  ghost predicate QuestionNamesFit(qs: seq<Question>, off: nat, spots: set<Spot>) {
    qs == [] ||
    (Fits(qs[0].name, spots) &&
     QuestionNamesFit(qs[1..], off + |Code(qs[0].name)| + 4, spots + SpotsOf(qs[0].name, off)))
  }

  ghost function SpotsAfterQuestions(qs: seq<Question>, off: nat, spots: set<Spot>): set<Spot> {
    if qs == [] then spots
    else SpotsAfterQuestions(qs[1..], off + |Code(qs[0].name)| + 4, spots + SpotsOf(qs[0].name, off))
  }

  /** A message: identifier and flags, four counts, questions, three sections. */
  datatype Message = Message(
    idFlags: Bytes, questions: seq<Question>, answers: seq<Wire>, authority: seq<Wire>, additional: seq<Wire>)
  {
    ghost predicate Valid() {
      && |idFlags| == 4
      && AllQuestions(questions) && AllFit(RecordsOf(this))
      && |questions| < 0x10000 && |answers| < 0x10000 && |authority| < 0x10000 && |additional| < 0x10000
      && QuestionNamesFit(questions, 12, {})
      && AllNamesFit(RecordsOf(this), 12 + |QuestionsCode(questions)|, SpotsAfterQuestions(questions, 12, {}))
    }

    ghost function Header(): Bytes {
      idFlags + U16Code(|questions|) + U16Code(|answers|) + U16Code(|authority|) + U16Code(|additional|)
    }

    ghost function Encoded(): Bytes {
      Header() + (QuestionsCode(questions) + RecordsCode(RecordsOf(this)))
    }
  }

  /** All records, in the order of the sections. */
  function RecordsOf(m: Message): seq<Wire> {
    m.answers + m.authority + m.additional
  }

  /** What a record states, said of the record itself. */
  function Stated(r: Record, service: Bytes): Fact {
    match r
    case Ptr(owner, target) =>
      if EqualFold(Meaning(owner), service) then Announced(Meaning(target)) else Nothing
    case Srv(owner, _, _, port, target) => Located(Meaning(owner), Meaning(target), port)
    case Txt(owner, strings) => Described(Meaning(owner), NonEmpty(strings))
    case A(owner, ip) => Addressed(Meaning(owner), ip)
    case Other(_, _, _) => Nothing
  }

  function NonEmpty(strings: seq<Bytes>): seq<Bytes> {
    if strings == [] then []
    else (if strings[0] == [] then [] else [strings[0]]) + NonEmpty(strings[1..])
  }

  function AllStated(ws: seq<Wire>, service: Bytes): seq<Fact> {
    if ws == [] then [] else [Stated(ws[0].record, service)] + AllStated(ws[1..], service)
  }

  // ------------------------------------------------------------- reading back

  lemma {:induction false} U16ReadBack(msg: Bytes, off: nat, n: nat)
    requires n < 0x10000 && CodeAt(msg, off, U16Code(n))
    ensures U16(msg, off) == n
  {
    assert msg[off] == msg[off..off + 2][0] && msg[off + 1] == msg[off..off + 2][1];
  }

  /** TXT data: the length-prefixed strings come back, empty ones dropped. */
  lemma {:induction false} TxtReadBack(rdata: Bytes, i: nat, strings: seq<Bytes>)
    requires FitsTxt(strings) && CodeAt(rdata, i, TxtCode(strings)) && i + |TxtCode(strings)| == |rdata|
    ensures TxtFrom(rdata, i) == NonEmpty(strings)
    decreases |strings|
  {
    hide CodeAt, ByteOf;
    if strings == [] {
    } else {
      var s, rest := strings[0], strings[1..];
      var head := [ByteOf(|s|)] + s;
      TxtParts(strings);
      hide FitsTxt, TxtCode, NonEmpty, TxtFrom;
      CodePrefix(rdata, i, head, TxtCode(rest));
      OneString(rdata, i, s);
      TxtReadBack(rdata, i + 1 + |s|, rest);
    }
  }

  lemma {:induction false} TxtParts(strings: seq<Bytes>)
    requires strings != [] && FitsTxt(strings)
    ensures var s, rest := strings[0], strings[1..];
      && |s| < 256 && FitsTxt(rest)
      && TxtCode(strings) == [ByteOf(|s|)] + s + TxtCode(rest)
      && NonEmpty(strings) == (if s == [] then [] else [s]) + NonEmpty(rest)
  {
  }

  lemma {:induction false} OneString(rdata: Bytes, i: nat, s: Bytes)
    requires |s| < 256 && CodeAt(rdata, i, [ByteOf(|s|)] + s)
    ensures TxtFrom(rdata, i) == (if s == [] then [] else [s]) + TxtFrom(rdata, i + 1 + |s|)
  {
    var l := ByteOf(|s|);
    assert l as int == |s|;
    hide ByteOf, TxtFrom;
    CodePrefix(rdata, i, [l], s);
    assert rdata[i..i + 1] == [l] && rdata[i + 1..i + 1 + |s|] == s;
    hide CodeAt;
    assert rdata[i] == rdata[i..i + 1][0] == l;
    TxtStep(rdata, i);
  }

  lemma {:induction false} SrvParts(msg: Bytes, start: nat, r: Record)
    requires r.Srv? && Shaped(r) && CodeAt(msg, start, Rdata(r))
    ensures |Rdata(r)| == 6 + |Code(r.target)|
    ensures U16(msg, start + 4) == r.port
    ensures CodeAt(msg, start + 6, Code(r.target))
  {
    hide Code;
    CodePrefix(msg, start, U16Code(r.priority) + U16Code(r.weight), U16Code(r.port) + Code(r.target));
    CodePrefix(msg, start + 4, U16Code(r.port), Code(r.target));
    U16ReadBack(msg, start + 4, r.port);
  }

  lemma {:induction false} AddressReadBack(msg: Bytes, start: nat, r: Record)
    requires r.A? && Shaped(r) && CodeAt(msg, start, Rdata(r))
    ensures Ip(msg[start], msg[start + 1], msg[start + 2], msg[start + 3]) == r.ip
  {
    var data := msg[start..start + 4];
    assert data == Rdata(r);
    assert msg[start] == data[0] && msg[start + 1] == data[1] && msg[start + 2] == data[2] && msg[start + 3] == data[3];
  }

  /** The target of a record is found and can be pointed to. */
  lemma {:induction false} TargetReadBack(msg: Bytes, start: nat, r: Record, spots: set<Spot>)
    requires Shaped(r) && CodeAt(msg, start, Rdata(r)) && Stand(msg, spots, start)
    requires HasTarget(r) ==> Fits(r.target, spots)
    ensures HasTarget(r) ==> NameAt(Reads(msg), TargetAt(r, start)) == Ok(Meaning(r.target), start + |Rdata(r)|)
    ensures Stand(msg, spots + SpotsOfData(r, start), start + |Rdata(r)|)
  {
    hide NameAt, Reads, Code, Meaning, Stands, SpotsOf;
    if HasTarget(r) {
      if r.Srv? {
        SrvParts(msg, start, r);
      }
      hide Rdata, CodeAt;
      NameDecodes(msg, TargetAt(r, start), r.target, spots);
      SuffixesStand(msg, TargetAt(r, start), r.target, spots);
    } else {
      hide Rdata, CodeAt;
      assert spots + {} == spots;
    }
  }

  lemma {:induction false} SrvStates(msg: Bytes, start: nat, r: Record)
    requires r.Srv? && Shaped(r) && CodeAt(msg, start, Rdata(r))
    requires NameAt(Reads(msg), start + 6) == Ok(Meaning(r.target), start + |Rdata(r)|)
    ensures SrvFact(msg, Raw(Meaning(r.owner), TYPE_SRV, start, start + |Rdata(r)|)) ==
            Located(Meaning(r.owner), Meaning(r.target), r.port)
  {
    SrvParts(msg, start, r);
    hide NameAt, Reads, Meaning, Code, Rdata, CodeAt, Shaped, U16;
  }

  lemma {:induction false} TxtStates(msg: Bytes, start: nat, r: Record)
    requires r.Txt? && Shaped(r) && CodeAt(msg, start, Rdata(r))
    ensures TxtFact(msg, Raw(Meaning(r.owner), TYPE_TXT, start, start + |Rdata(r)|)) ==
            Described(Meaning(r.owner), NonEmpty(r.strings))
  {
    hide Meaning, TxtCode, TxtFrom, NonEmpty, FitsTxt;
    var rdata := msg[start..start + |Rdata(r)|];
    assert rdata == TxtCode(r.strings);
    assert rdata[0..0 + |rdata|] == rdata;
    TxtReadBack(rdata, 0, r.strings);
  }

  lemma {:induction false} AddressStates(msg: Bytes, start: nat, r: Record)
    requires r.A? && Shaped(r) && CodeAt(msg, start, Rdata(r))
    ensures AFact(msg, Raw(Meaning(r.owner), TYPE_A, start, start + |Rdata(r)|)) == Addressed(Meaning(r.owner), r.ip)
  {
    AddressReadBack(msg, start, r);
    hide Meaning, CodeAt;
  }

  /** The data of a record states what the record says. */
  lemma {:induction false} FactReadBack(msg: Bytes, start: nat, r: Record, spots: set<Spot>, service: Bytes)
    requires Shaped(r) && CodeAt(msg, start, Rdata(r)) && Stand(msg, spots, start)
    requires HasTarget(r) ==> Fits(r.target, spots)
    ensures FactOf(msg, Raw(Meaning(r.owner), TypeOf(r), start, start + |Rdata(r)|), service) == Stated(r, service)
  {
    TargetReadBack(msg, start, r, spots);
    hide Stand, Fits, SpotsOfData, NameAt, Reads, Meaning, Rdata, CodeAt, EqualFold, NonEmpty;
    hide SrvFact, TxtFact, AFact;
    match r
    case Ptr(_, _) =>
    case Srv(_, _, _, _, _) => SrvStates(msg, start, r);
    case Txt(_, _) => TxtStates(msg, start, r);
    case A(_, _) => AddressStates(msg, start, r);
    case Other(_, _, _) =>
  }

  lemma {:induction false} FixedReadBack(msg: Bytes, off: nat, w: Wire)
    requires FitsWire(w) && CodeAt(msg, off, FixedCode(w))
    ensures |FixedCode(w)| == 10
    ensures U16(msg, off) == TypeOf(w.record) && U16(msg, off + 8) == |Rdata(w.record)|
  {
    var size := U16Code(|Rdata(w.record)|);
    CodePrefix(msg, off, U16Code(TypeOf(w.record)) + w.classTtl, size);
    CodePrefix(msg, off, U16Code(TypeOf(w.record)), w.classTtl);
    U16ReadBack(msg, off, TypeOf(w.record));
    U16ReadBack(msg, off + 8, |Rdata(w.record)|);
  }

  lemma {:induction false} RecordParts(msg: Bytes, off: nat, w: Wire)
    requires FitsWire(w) && CodeAt(msg, off, RecordCode(w))
    ensures var owner := Code(w.record.owner);
      var start := off + |owner| + 10;
      && CodeAt(msg, off, owner) && CodeAt(msg, start, Rdata(w.record))
      && |RecordCode(w)| == |owner| + 10 + |Rdata(w.record)|
      && start + |Rdata(w.record)| <= |msg|
      && U16(msg, off + |owner|) == TypeOf(w.record) && U16(msg, off + |owner| + 8) == |Rdata(w.record)|
  {
    var owner := Code(w.record.owner);
    hide Code, Rdata, FixedCode, U16, Shaped;
    CodePrefix(msg, off, owner, FixedCode(w) + Rdata(w.record));
    CodePrefix(msg, off + |owner|, FixedCode(w), Rdata(w.record));
    FixedReadBack(msg, off + |owner|, w);
  }

  /** An encoded record is found whole, and its owner can be pointed to from its data. */
  lemma {:induction false} RecordFound(msg: Bytes, off: nat, w: Wire, spots: set<Spot>)
    requires FitsWire(w) && CodeAt(msg, off, RecordCode(w))
    requires Fits(w.record.owner, spots) && Stand(msg, spots, off)
    ensures var r := w.record;
      var start := off + |Code(r.owner)| + 10;
      && CodeAt(msg, start, Rdata(r)) && |RecordCode(w)| == |Code(r.owner)| + 10 + |Rdata(r)|
      && RecordAt(msg, off) == Some(Raw(Meaning(r.owner), TypeOf(r), start, start + |Rdata(r)|))
      && Stand(msg, spots + SpotsOf(r.owner, off), start)
  {
    var owner := Code(w.record.owner);
    hide NameAt, Reads, Meaning, Code, Rdata, FixedCode, RecordCode, SpotsOf, RecordAt, U16, CodeAt, Shaped, Stands;
    RecordParts(msg, off, w);
    NameDecodes(msg, off, w.record.owner, spots);
    SuffixesStand(msg, off, w.record.owner, spots);
    RecordStands(msg, off, Meaning(w.record.owner), off + |owner|, TypeOf(w.record), |Rdata(w.record)|);
  }

  /** It states what it says, and its names can be pointed to from behind it. */
  lemma {:induction false} RecordReadBack(msg: Bytes, off: nat, w: Wire, spots: set<Spot>, service: Bytes)
    requires FitsWire(w) && CodeAt(msg, off, RecordCode(w))
    requires NamesFit(w, off, spots) && Stand(msg, spots, off)
    ensures RecordAt(msg, off).Some?
    ensures RecordAt(msg, off).value.end == off + |RecordCode(w)|
    ensures FactOf(msg, RecordAt(msg, off).value, service) == Stated(w.record, service)
    ensures Stand(msg, SpotsAfter(w, off, spots), off + |RecordCode(w)|)
  {
    var start, known := off + |Code(w.record.owner)| + 10, spots + SpotsOf(w.record.owner, off);
    hide Code, Rdata, RecordCode, FactOf, Stated, SpotsOf, SpotsOfData, RecordAt, CodeAt, Shaped, HasTarget;
    hide Stand, Fits;
    RecordFound(msg, off, w, spots);
    TargetReadBack(msg, start, w.record, known);
    FactReadBack(msg, start, w.record, known, service);
  }

  lemma {:induction false} RecordStands(msg: Bytes, off: nat, owner: Bytes, next: nat, rrType: nat, size: nat)
    requires NameAt(Reads(msg), off) == Ok(owner, next) && next + 10 + size <= |msg|
    requires U16(msg, next) == rrType && U16(msg, next + 8) == size
    ensures RecordAt(msg, off) == Some(Raw(owner, rrType, next + 10, next + 10 + size))
  {
    hide NameAt, Reads, U16;
  }

  lemma {:induction false} FactsReadBack(msg: Bytes, off: nat, ws: seq<Wire>, spots: set<Spot>, service: Bytes)
    requires AllFit(ws) && CodeAt(msg, off, RecordsCode(ws))
    requires AllNamesFit(ws, off, spots) && Stand(msg, spots, off)
    ensures FactsFrom(msg, off, |ws|, service) == AllStated(ws, service)
    decreases |ws|
  {
    hide RecordAt, RecordCode, FactOf, Stated, CodeAt, FitsWire, NamesFit, SpotsAfter, Stand;
    if ws == [] {
    } else {
      var rest := ws[1..];
      assert AllFit(rest);
      hide AllFit;
      assert RecordsCode(ws) == RecordCode(ws[0]) + RecordsCode(rest);
      CodePrefix(msg, off, RecordCode(ws[0]), RecordsCode(rest));
      RecordReadBack(msg, off, ws[0], spots, service);
      FactsReadBack(msg, off + |RecordCode(ws[0])|, rest, SpotsAfter(ws[0], off, spots), service);
    }
  }

  lemma {:induction false} QuestionsReadBack(msg: Bytes, off: nat, qs: seq<Question>, spots: set<Spot>)
    requires AllQuestions(qs) && CodeAt(msg, off, QuestionsCode(qs))
    requires QuestionNamesFit(qs, off, spots) && Stand(msg, spots, off)
    ensures PastQuestions(msg, off, |qs|) == Some(off + |QuestionsCode(qs)|)
    ensures Stand(msg, SpotsAfterQuestions(qs, off, spots), off + |QuestionsCode(qs)|)
    decreases |qs|
  {
    hide NameAt, Reads, Meaning, Code, SpotsOf, Stands, Fits;
    if qs == [] {
    } else {
      var name, known := Code(qs[0].name), spots + SpotsOf(qs[0].name, off);
      CodePrefix(msg, off, name, qs[0].typeClass + QuestionsCode(qs[1..]));
      CodePrefix(msg, off + |name|, qs[0].typeClass, QuestionsCode(qs[1..]));
      NameDecodes(msg, off, qs[0].name, spots);
      SuffixesStand(msg, off, qs[0].name, spots);
      assert Stand(msg, known, off + |name| + 4);
      hide CodeAt, Stand;
      QuestionsReadBack(msg, off + |name| + 4, qs[1..], known);
    }
  }

  lemma {:induction false} HeaderReadBack(m: Message, msg: Bytes)
    requires m.Valid() && CodeAt(msg, 0, m.Header())
    ensures U16(msg, 4) == |m.questions| && U16(msg, 6) == |m.answers|
    ensures U16(msg, 8) == |m.authority| && U16(msg, 10) == |m.additional|
  {
    var q, an, ns, ar := U16Code(|m.questions|), U16Code(|m.answers|), U16Code(|m.authority|), U16Code(|m.additional|);
    CodePrefix(msg, 0, m.idFlags + q + an + ns, ar);
    CodePrefix(msg, 0, m.idFlags + q + an, ns);
    CodePrefix(msg, 0, m.idFlags + q, an);
    CodePrefix(msg, 0, m.idFlags, q);
    U16ReadBack(msg, 4, |m.questions|);
    U16ReadBack(msg, 6, |m.answers|);
    U16ReadBack(msg, 8, |m.authority|);
    U16ReadBack(msg, 10, |m.additional|);
  }

  /** A message states exactly the facts of its records, in their order, whichever
      names are compressed, however the records are spread over its three sections
      and whatever trails it. */
  lemma {:induction false} MessageFacts(m: Message, trailing: Bytes, service: Bytes)
    requires m.Valid()
    ensures Facts(m.Encoded() + trailing, service) == AllStated(RecordsOf(m), service)
  {
    hide PastQuestions, FactsFrom, AllStated, QuestionsCode, RecordsCode, U16, AllNamesFit, QuestionNamesFit;
    hide SpotsAfterQuestions;
    var msg, records := m.Encoded() + trailing, RecordsOf(m);
    assert CodeAt(msg, 0, m.Encoded());
    CodePrefix(msg, 0, m.Header(), QuestionsCode(m.questions) + RecordsCode(records));
    CodePrefix(msg, 12, QuestionsCode(m.questions), RecordsCode(records));
    HeaderReadBack(m, msg);
    QuestionsReadBack(msg, 12, m.questions, {});
    FactsReadBack(msg, 12 + |QuestionsCode(m.questions)|, records, SpotsAfterQuestions(m.questions, 12, {}), service);
  }

  /** A record may name its owner by a pointer to the question. */
  lemma {:induction false} QuestionCanBePointedTo(name: Bytes, qs: seq<Question>)
    requires qs != [] && AllQuestions(qs) && qs[0].name == Whole(name)
    ensures Fits(Name([], Some(Spot(12, NameLabels(name)))), SpotsAfterQuestions(qs, 12, {}))
    ensures Meaning(Name([], Some(Spot(12, NameLabels(name))))) == Canonical(name)
  {
    WholeBegins(name);
    var here, known := Spot(12, NameLabels(name)), {} + SpotsOf(qs[0].name, 12);
    assert here == SpotOf(qs[0].name, 12, 0);
    assert here in known;
    assert [] + here.labels == here.labels;
    hide Code, SpotOf, SpotsOf, Whole, NameLabels, Canonical, Dotted, AllQuestions;
    assert AllQuestions(qs[1..]) by { AllQuestionsTail(qs); }
    SpotsOnlyGrow(qs[1..], 12 + |Code(qs[0].name)| + 4, known);
  }

  lemma {:induction false} AllQuestionsTail(qs: seq<Question>)
    requires qs != [] && AllQuestions(qs)
    ensures AllQuestions(qs[1..]) && Codable(qs[0].name)
  {
  }

  lemma {:induction false} WholeBegins(name: Bytes)
    ensures SpotOf(Whole(name), 12, 0) == Spot(12, NameLabels(name))
    ensures Dotted(NameLabels(name)) == Canonical(name)
  {
    var labels := NameLabels(name);
    assert labels[..0] == [] && labels[0..] == labels && labels + [] == labels;
  }

  lemma {:induction false} SpotsOnlyGrow(qs: seq<Question>, off: nat, spots: set<Spot>)
    requires AllQuestions(qs)
    ensures spots <= SpotsAfterQuestions(qs, off, spots)
    decreases |qs|
  {
    hide Code, SpotsOf;
    if qs != [] {
      SpotsOnlyGrow(qs[1..], off + |Code(qs[0].name)| + 4, spots + SpotsOf(qs[0].name, off));
    }
  }

  /** Each record takes eleven bytes at least, so a header cannot promise more
      records than the bytes that follow it can hold. */
  lemma {:induction false} FactsBounded(msg: Bytes, service: Bytes)
    ensures |msg| < 12 ==> Facts(msg, service) == []
    ensures |msg| >= 12 ==> |Facts(msg, service)| <= (|msg| - 12) / 11
  {
    hide FactsFrom, NameAt, Reads;
    if |msg| >= 12 && PastQuestions(msg, 12, U16(msg, 4)).Some? {
      var off := PastQuestions(msg, 12, U16(msg, 4)).value;
      QuestionsAdvance(msg, 12, U16(msg, 4));
      FactsTakeRoom(msg, off, RecordCount(msg), service);
    }
  }

  lemma {:induction false} QuestionsAdvance(msg: Bytes, off: nat, count: nat)
    requires off <= |msg|
    ensures PastQuestions(msg, off, count).Some? ==> off <= PastQuestions(msg, off, count).value <= |msg|
    decreases count
  {
    hide NameAt, Reads;
    if count > 0 && NameAt(Reads(msg), off).Ok? {
      var next := NameAt(Reads(msg), off).next;
      ReadsWithin(msg);
      NextInBounds(Reads(msg), |msg|, off);
      if next + 4 <= |msg| {
        QuestionsAdvance(msg, next + 4, count - 1);
      }
    }
  }

  lemma {:induction false} FactsTakeRoom(msg: Bytes, off: nat, count: nat, service: Bytes)
    requires off <= |msg|
    ensures 11 * |FactsFrom(msg, off, count, service)| <= |msg| - off
    decreases count
  {
    hide RecordAt, FactOf;
    if count > 0 && RecordAt(msg, off).Some? {
      FactsTakeRoom(msg, RecordAt(msg, off).value.end, count - 1, service);
    }
  }

  // ---------------------------------------------------------------- the query

  lemma {:induction false} OneQuestionIsValid(name: Bytes, typeClass: Bytes)
    requires |typeClass| == 4
    ensures Message([0, 0, 0, 0], [Question(Whole(name), typeClass)], [], [], []).Valid()
  {
    WholeCode(name, {});
    assert Codable(Whole(name));
    hide Whole, Code, Fits, Codable;
    var qs := [Question(Whole(name), typeClass)];
    assert qs[1..] == [];
    assert QuestionNamesFit(qs, 12, {});
    assert RecordsOf(Message([0, 0, 0, 0], qs, [], [], [])) == [];
  }

  /** One PTR question with the unicast-response bit set. */
  function Query(name: Bytes): (m: Message)
    ensures m.Valid() && RecordsOf(m) == [] && |m.questions| == 1
  {
    OneQuestionIsValid(name, U16Code(TYPE_PTR) + U16Code(CLASS_QU));
    Message([0, 0, 0, 0], [Question(Whole(name), U16Code(TYPE_PTR) + U16Code(CLASS_QU))], [], [], [])
  }

  const QUERY_CLASS: Bytes := U16Code(TYPE_PTR) + U16Code(CLASS_QU)

  lemma {:induction false} QueryCode(name: Bytes)
    ensures Query(name).Header() == [0, 0, 0, 0, 0, 1, 0, 0, 0, 0, 0, 0]
    ensures Query(name).Encoded() == Query(name).Header() + (EncodeName(name) + QUERY_CLASS)
  {
    WholeCode(name, {});
    hide Whole, Code, EncodeName, Fits;
    var q := Query(name).questions;
    assert q[1..] == [];
    assert QuestionsCode(q) == EncodeName(name) + QUERY_CLASS;
    assert RecordsCode(RecordsOf(Query(name))) == [];
  }

  /** The header of the query, field by field. */
  method QueryHeader() returns (b: Bytes)
    ensures b == [0, 0, 0, 0, 0, 1, 0, 0, 0, 0, 0, 0]
  {
    assert U16Code(0) == [0, 0] && U16Code(1) == [0, 1];
    hide U16Code;
    b := [];
    b := b + U16Code(0);
    b := b + U16Code(0);
    assert b == [0, 0, 0, 0];
    b := b + U16Code(1);
    b := b + U16Code(0);
    assert b == [0, 0, 0, 0, 0, 1, 0, 0];
    b := b + U16Code(0);
    b := b + U16Code(0);
  }

  /** buildQuery. */
  method BuildQuery(name: Bytes) returns (b: Bytes)
    ensures b == Query(name).Encoded()
  {
    QueryCode(name);
    hide Query, EncodeName, U16Code;
    b := QueryHeader();
    b := AppendName(b, name);
    b := b + U16Code(TYPE_PTR);
    b := b + U16Code(CLASS_QU);
    assert b == Query(name).Header() + (EncodeName(name) + QUERY_CLASS);
  }

  /** The query asks one question, for the name, and states nothing itself. */
  lemma {:induction false} QueryAsksForName(name: Bytes, service: Bytes)
    ensures var b := Query(name).Encoded();
      && |b| >= 16
      && U16(b, 4) == 1
      && NameAt(Reads(b), 12) == Ok(Canonical(name), |b| - 4)
      && U16(b, |b| - 4) == TYPE_PTR && U16(b, |b| - 2) == CLASS_QU
      && Facts(b, service) == []
  {
    QueryCode(name);
    assert |QUERY_CLASS| == 4;
    hide NameAt, Reads, Facts, EncodeName, Canonical, U16, Query;
    var b := Query(name).Encoded();
    MessageFacts(Query(name), [], service);
    assert b + [] == b;
    assert CodeAt(b, 0, b);
    CodePrefix(b, 0, Query(name).Header(), EncodeName(name) + QUERY_CLASS);
    HeaderReadBack(Query(name), b);
    CodePrefix(b, 12, EncodeName(name), QUERY_CLASS);
    NameReadBack(b, 12, name);
    CodePrefix(b, |b| - 4, U16Code(TYPE_PTR), U16Code(CLASS_QU));
    U16ReadBack(b, |b| - 4, TYPE_PTR);
    U16ReadBack(b, |b| - 2, CLASS_QU);
  }
}
