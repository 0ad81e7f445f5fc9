/** Names as a responder writes them (section 4.1.4 of RFC 1035): labels, and at
    their end a zero byte or a pointer to where the rest already stands. */
module DnsCompression {
  import opened Sequences
  import opened NameWalk
  import opened DnsName

  /** A position in the message and the labels of the name that stands there. */
  datatype Spot = Spot(base: nat, labels: seq<Bytes>)

  datatype Name = Name(labels: seq<Bytes>, rest: Option<Spot>)

  /** A dotted name written out in full. */
  function Whole(name: Bytes): Name {
    Name(NameLabels(name), None)
  }

  function AllLabels(n: Name): seq<Bytes> {
    n.labels + if n.rest.Some? then n.rest.value.labels else []
  }

  /** The name it stands for. */
  function Meaning(n: Name): Bytes {
    Dotted(AllLabels(n))
  }

  /** Labels of legal size, and a pointer only to where such a name stands. */
  ghost predicate Fits(n: Name, spots: set<Spot>) {
    Codable(n) && (n.rest.Some? ==> n.rest.value in spots)
  }

  ghost predicate Codable(n: Name) {
    AllOnWire(n.labels) && (n.rest.Some? ==> n.rest.value.base < 0x4000)
  }

  ghost function Tail(rest: Option<Spot>): Bytes {
    match rest
    case None => [0]
    case Some(spot) => [ByteOf(0xC0 + spot.base / 256), ByteOf(spot.base)]
  }

  ghost function Code(n: Name): Bytes {
    EncodeLabels(n.labels) + Tail(n.rest)
  }

  /** The name without its first k labels. */
  function Suffix(n: Name, k: nat): Name
    requires k <= |n.labels|
  {
    Name(n.labels[k..], n.rest)
  }

  ghost function SpotOf(n: Name, off: nat, k: nat): Spot
    requires k <= |n.labels|
  {
    Spot(off + Size(n.labels[..k]), AllLabels(Suffix(n, k)))
  }

  /** A name written at off can be pointed to from its beginning or any label on. */
  ghost function SpotsOf(n: Name, off: nat): set<Spot> {
    set k | 0 <= k <= |n.labels| :: SpotOf(n, off, k)
  }

  /** Every spot lies before off, and the message decodes to its labels there. */
  ghost predicate Stand(msg: Bytes, spots: set<Spot>, off: nat) {
    forall spot :: spot in spots ==> spot.base < off && Stands(msg, spot)
  }

  ghost predicate Stands(msg: Bytes, spot: Spot) {
    exists m: nat, past: int :: Decodes(Reads(msg), spot.base, m, spot.labels, past)
  }

  lemma {:induction false} WholeCode(name: Bytes, spots: set<Spot>)
    ensures Fits(Whole(name), spots)
    ensures Code(Whole(name)) == EncodeName(name) && Meaning(Whole(name)) == Canonical(name)
  {
    assert NameLabels(name) + [] == NameLabels(name);
  }

  lemma {:induction false} PointerBytes(base: nat)
    requires base < 0x4000
    ensures IsPointer(ByteOf(0xC0 + base / 256))
    ensures PointerTarget(ByteOf(0xC0 + base / 256), ByteOf(base)) == base
  {
    var hi := 0xC0 + base / 256;
    assert hi < 256 && hi % 256 == hi;
    assert hi / 64 == 3 && hi % 64 == base / 256;
  }

  lemma {:induction false} TwoBytes(msg: Bytes, pos: nat, a: Byte, b: Byte)
    requires CodeAt(msg, pos, [a, b])
    ensures pos + 2 <= |msg| && msg[pos] == a && msg[pos + 1] == b
  {
    assert msg[pos..pos + 2][0] == a && msg[pos..pos + 2][1] == b;
  }

  /** A pointer reads as a jump to its spot. */
  lemma {:induction false} PointerJumps(msg: Bytes, pos: nat, spot: Spot)
    requires spot.base < 0x4000 && spot.base < pos && CodeAt(msg, pos, Tail(Some(spot)))
    ensures Reads(msg)(pos) == Jump(spot.base)
  {
    PointerBytes(spot.base);
    TwoBytes(msg, pos, ByteOf(0xC0 + spot.base / 256), ByteOf(spot.base));
    assert !IsPointer(0);
    hide CodeAt, Tail, ByteOf, IsPointer, PointerTarget;
  }

  lemma {:induction false} PointerDecodes(
    msg: Bytes, off: nat, labels: seq<Bytes>, spot: Spot, m: nat, past: int)
    requires AllOnWire(labels) && CodeAt(msg, off, EncodeLabels(labels) + Tail(Some(spot)))
    requires spot.base < 0x4000 && spot.base < off && Decodes(Reads(msg), spot.base, m, spot.labels, past)
    ensures Decodes(Reads(msg), off, |labels| + 1 + m, labels + spot.labels, off + Size(labels) + 2)
    ensures NameAt(Reads(msg), off) == Ok(Dotted(labels + spot.labels), off + Size(labels) + 2)
  {
    hide Reads, NameAt, Decodes, CodeAt, EncodeLabels, Dotted, AllOnWire, Tail, Size;
    CodePrefix(msg, off, EncodeLabels(labels), Tail(Some(spot)));
    SizeOfCode(labels);
    PointerJumps(msg, off + Size(labels), spot);
    CompressedName(msg, off, labels, spot.base, m, spot.labels, past);
  }

  /** A name, compressed or not, decodes to what it stands for. */
  lemma {:induction false} NameDecodes(msg: Bytes, off: nat, n: Name, spots: set<Spot>)
    requires Fits(n, spots) && Stand(msg, spots, off) && CodeAt(msg, off, Code(n))
    ensures NameAt(Reads(msg), off) == Ok(Meaning(n), off + |Code(n)|)
    ensures Stands(msg, Spot(off, AllLabels(n)))
  {
    SizeOfCode(n.labels);
    hide Reads, NameAt, Decodes, CodeAt, EncodeLabels, Dotted;
    match n.rest
    case None =>
      WholeDecodes(msg, off, n.labels);
      assert n.labels + [] == n.labels;
    case Some(spot) =>
      assert Stands(msg, spot);
      var m: nat, past: int :| Decodes(Reads(msg), spot.base, m, spot.labels, past);
      PointerDecodes(msg, off, n.labels, spot, m, past);
  }

  lemma {:induction false} EncodeConcat(a: seq<Bytes>, b: seq<Bytes>)
    ensures EncodeLabels(a + b) == EncodeLabels(a) + EncodeLabels(b)
  {
    if b == [] {
      assert a + b == a;
    } else {
      var front, last := b[..|b| - 1], b[|b| - 1];
      EncodeSnoc(a + front, last);
      EncodeSnoc(front, last);
      assert front + [last] == b && (a + front) + [last] == a + b;
      hide EncodeLabels, LabelCode;
      EncodeConcat(a, front);
    }
  }

  /** So do its suffixes, each where it begins: all of them can be pointed to. */
  lemma {:induction false} SuffixesStand(msg: Bytes, off: nat, n: Name, spots: set<Spot>)
    requires Fits(n, spots) && Stand(msg, spots, off) && CodeAt(msg, off, Code(n))
    ensures Stand(msg, spots + SpotsOf(n, off), off + |Code(n)|)
  {
    forall k | 0 <= k <= |n.labels| ensures SpotOf(n, off, k).base < off + |Code(n)| && Stands(msg, SpotOf(n, off, k)) {
      SuffixStands(msg, off, n, spots, k);
    }
    hide Stands, SpotOf;
  }

  lemma {:induction false} SuffixCode(n: Name, k: nat)
    requires k <= |n.labels|
    ensures Code(n) == EncodeLabels(n.labels[..k]) + Code(Suffix(n, k))
    ensures |EncodeLabels(n.labels[..k])| == Size(n.labels[..k]) && |Code(Suffix(n, k))| > 0
    ensures Codable(n) ==> Codable(Suffix(n, k))
  {
    assert n.labels[..k] + n.labels[k..] == n.labels;
    EncodeConcat(n.labels[..k], n.labels[k..]);
    SizeOfCode(n.labels[..k]);
    hide EncodeLabels, Size;
  }

  lemma {:induction false} SuffixStands(msg: Bytes, off: nat, n: Name, spots: set<Spot>, k: nat)
    requires k <= |n.labels|
    requires Fits(n, spots) && Stand(msg, spots, off) && CodeAt(msg, off, Code(n))
    ensures SpotOf(n, off, k).base < off + |Code(n)| && Stands(msg, SpotOf(n, off, k))
  {
    var front, suffix := n.labels[..k], Suffix(n, k);
    var there := off + Size(front);
    SuffixCode(n, k);
    assert SpotOf(n, off, k) == Spot(there, AllLabels(suffix));
    assert Stand(msg, spots, there) && Fits(suffix, spots);
    hide Code, EncodeLabels, CodeAt, Stands, Stand, Fits, AllLabels, Size, SpotOf, Suffix;
    CodePrefix(msg, off, EncodeLabels(front), Code(suffix));
    NameDecodes(msg, there, suffix, spots);
  }
}
