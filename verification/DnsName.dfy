/** Domain names on the wire (sections 3.1 and 4.1.4 of RFC 1035), as
    internal/discovery/mdns.go decodes and encodes them.

    `NameAt` says what the name at an offset is by the walk of NameWalk, which
    has no hop counter. The loop of `ParseName`, which counts pointers, is
    proved to compute exactly that. */
module DnsName {
  import opened Sequences
  import opened NameWalk

  const MAX_LABEL := 63

  /** The two top bits are set: b & 0xC0 == 0xC0. */
  predicate IsPointer(b: Byte) {
    b / 64 == 3
  }

  /** (hi & 0x3F) << 8 | lo */
  function PointerTarget(hi: Byte, lo: Byte): int {
    hi as int % 64 * 256 + lo as int
  }

  lemma LowBits(hi: bv8)
    ensures (hi & 0x3F) as int == hi as int % 64
  {
    assert hi & 0x3F == hi % 64;
  }

  lemma ShiftAndOr(h: bv16, l: bv16)
    requires h < 64 && l < 256
    ensures (h << 8) | l == h * 256 + l
  {
  }

  lemma TimesAndPlus(h: bv16, l: bv16)
    requires h < 64 && l < 256
    ensures (h * 256 + l) as int == h as int * 256 + l as int
  {
  }

  lemma HighBits(hi: bv8)
    ensures hi & 0xC0 == 0xC0 <==> hi as int / 64 == 3
  {
    assert hi & 0xC0 == 0xC0 <==> hi >= 0xC0;
  }

  /** Both are the masks and shifts of the source. */
  lemma PointerBits(hi: bv8, lo: bv8)
    ensures IsPointer((hi as int) as Byte) <==> hi & 0xC0 == 0xC0
    ensures PointerTarget((hi as int) as Byte, (lo as int) as Byte) == (((hi & 0x3F) as bv16 << 8) | lo as bv16) as int
  {
    HighBits(hi);
    LowBits(hi);
    ShiftAndOr((hi & 0x3F) as bv16, lo as bv16);
    TimesAndPlus((hi & 0x3F) as bv16, lo as bv16);
  }

  function StepAt(msg: Bytes, pos: int): Step {
    if pos < 0 || pos >= |msg| then Fail(OutOfBounds)
    else if msg[pos] == 0 then Stop
    else if IsPointer(msg[pos]) then
      if pos + 1 >= |msg| then Fail(TruncatedPointer)
      else if PointerTarget(msg[pos], msg[pos + 1]) >= pos then Fail(NonBackwardPointer)
      else Jump(PointerTarget(msg[pos], msg[pos + 1]))
    else if pos + 1 + msg[pos] as int > |msg| then Fail(LabelOutOfBounds)
    else Take(msg[pos + 1..pos + 1 + msg[pos] as int], pos + 1 + msg[pos] as int)
  }

  function Reads(msg: Bytes): Steps {
    pos => StepAt(msg, pos)
  }

  lemma ReadsWithin(msg: Bytes)
    ensures Within(Reads(msg), |msg|)
  {
  }

  /** The loop of parseName has made n moves of the walk, has met these pointers and
      these labels, and stands at pos. */
  ghost predicate Parsing(msg: Bytes, off: int, n: nat, met: seq<nat>, pos: int, parts: seq<Bytes>, next: int) {
    Walked(Reads(msg), |msg|, off, n, met, pos, parts, next) && |met| <= |msg|
  }

  lemma {:induction false} ParsingBegins(msg: Bytes, off: int)
    ensures Parsing(msg, off, 0, [], off, [], -1)
  {
    WalkBegins(Reads(msg), |msg|, off);
  }

  lemma {:induction false} Refused(
      msg: Bytes, off: int, n: nat, met: seq<nat>, pos: int, parts: seq<Bytes>, next: int, error: NameError)
    requires Parsing(msg, off, n, met, pos, parts, next) && StepAt(msg, pos) == Fail(error)
    ensures NameAt(Reads(msg), off) == Err(error)
  {
    hide Walked, StepAt;
    LeaveAtFailure(Reads(msg), |msg|, off, n, met, pos, parts, next);
  }

  lemma {:induction false} Stopped(
      msg: Bytes, off: int, n: nat, met: seq<nat>, pos: int, parts: seq<Bytes>, next: int)
    requires Parsing(msg, off, n, met, pos, parts, next) && StepAt(msg, pos) == Stop
    ensures NameAt(Reads(msg), off) == Ok(Dotted(parts), if next < 0 then pos + 1 else next)
  {
    hide Walked, StepAt;
    LeaveAtStop(Reads(msg), |msg|, off, n, met, pos, parts, next);
  }

  lemma {:induction false} BoundMet(
      msg: Bytes, off: int, n: nat, met: seq<nat>, pos: int, parts: seq<Bytes>, next: int)
    requires Parsing(msg, off, n, met, pos, parts, next) && 0 <= pos < |msg| && |met| + 1 > |msg|
    ensures NameAt(Reads(msg), off) == Err(PointerLoop)
  {
    hide Walked, StepAt;
    LeaveAtBound(Reads(msg), |msg|, off, n, met, pos, parts, next);
  }

  lemma {:induction false} PointerTaken(
      msg: Bytes, off: int, n: nat, met: seq<nat>, pos: int, parts: seq<Bytes>, next: int, to: int)
    requires Parsing(msg, off, n, met, pos, parts, next) && 0 <= pos < |msg| && StepAt(msg, pos) == Jump(to)
    requires |met| < |msg|
    ensures Parsing(msg, off, n + 1, met + [n], to, parts, if next < 0 then pos + 2 else next)
  {
    hide Walked, StepAt;
    WalkPointer(Reads(msg), |msg|, off, n, met, pos, parts, next);
  }

  lemma {:induction false} LabelTaken(
      msg: Bytes, off: int, n: nat, met: seq<nat>, pos: int, parts: seq<Bytes>, next: int, text: Bytes, to: int)
    requires Parsing(msg, off, n, met, pos, parts, next) && StepAt(msg, pos) == Take(text, to)
    ensures Parsing(msg, off, n + 1, met, to, parts + [text], next)
  {
    hide Walked, StepAt;
    WalkLabel(Reads(msg), |msg|, off, n, met, pos, parts, next);
  }

  /** parseName: the loop with its hop bound computes the name at off. */
  method ParseName(msg: Bytes, off: int) returns (r: Parsed)
    ensures r == NameAt(Reads(msg), off)
  {
    var parts: seq<Bytes> := [];
    var next := -1;
    var pos := off;
    var hops := 0;
    ghost var n: nat, met: seq<nat> := 0, [];
    ParsingBegins(msg, off);
    hide Parsing, NameAt, Reads, IsPointer, PointerTarget, Dotted;
    while true
      invariant Parsing(msg, off, n, met, pos, parts, next)
      invariant hops == |met| <= |msg|
      decreases |msg| - hops, |msg| - pos
    {
      if pos < 0 || pos >= |msg| {
        Refused(msg, off, n, met, pos, parts, next, OutOfBounds);
        return Err(OutOfBounds);
      }
      var b := msg[pos];
      if b == 0 {
        Stopped(msg, off, n, met, pos, parts, next);
        pos := pos + 1;
        if next < 0 { next := pos; }
        return Ok(Dotted(parts), next);
      } else if IsPointer(b) {
        if pos + 1 >= |msg| {
          Refused(msg, off, n, met, pos, parts, next, TruncatedPointer);
          return Err(TruncatedPointer);
        }
        hops := hops + 1;
        if hops > |msg| {
          BoundMet(msg, off, n, met, pos, parts, next);
          return Err(PointerLoop);
        }
        var ptr := PointerTarget(b, msg[pos + 1]);
        if ptr >= pos {
          Refused(msg, off, n, met, pos, parts, next, NonBackwardPointer);
          return Err(NonBackwardPointer);
        }
        PointerTaken(msg, off, n, met, pos, parts, next, ptr);
        if next < 0 { next := pos + 2; }
        pos := ptr;
        met := met + [n];
      } else {
        if pos + 1 + b as int > |msg| {
          Refused(msg, off, n, met, pos, parts, next, LabelOutOfBounds);
          return Err(LabelOutOfBounds);
        }
        LabelTaken(msg, off, n, met, pos, parts, next, msg[pos + 1..pos + 1 + b as int], pos + 1 + b as int);
        pos := pos + 1;
        parts := parts + [msg[pos..pos + b as int]];
        pos := pos + b as int;
      }
      n := n + 1;
    }
  }

  /** The bound on pointers is complete: a name that has a finite decoding is
      decoded, and the loop error means that a pointer position comes up twice. */
  lemma {:induction false} HopBoundIsComplete(msg: Bytes, off: int)
    ensures NameAt(Reads(msg), off).Ok? <==>
            exists n: nat, labels: seq<Bytes>, next: int :: Decodes(Reads(msg), off, n, labels, next)
    ensures NameAt(Reads(msg), off) == Err(PointerLoop) <==>
            exists i: nat, j: nat :: PointerRecurs(Reads(msg), off, i, j)
  {
    ReadsWithin(msg);
    LoopIffPointerRecurs(Reads(msg), |msg|, off);
    hide PointerRecurs, Reads;
    if NameAt(Reads(msg), off).Ok? {
      NameIffDecoding(Reads(msg), off, NameAt(Reads(msg), off).name, NameAt(Reads(msg), off).next);
    }
    if n: nat, labels: seq<Bytes>, next: int :| Decodes(Reads(msg), off, n, labels, next) {
      DecodingIsName(Reads(msg), off, n, labels, next);
    }
  }

  /** Every pointer going back is not enough: a label can lead the walk forward
      onto the pointer that was just followed. */
  lemma {:induction false} BackwardPointersCanLoop()
    ensures var msg: Bytes := [2, 97, 98, 0xC0, 0];
      && StepAt(msg, 3) == Jump(0)
      && NameAt(Reads(msg), 3) == Err(PointerLoop)
  {
    var msg: Bytes := [2, 97, 98, 0xC0, 0];
    var steps := Reads(msg);
    assert steps(3) == Jump(0) && steps(0) == Take(msg[1..3], 3);
    hide Reads;
    assert At(steps, 3, 0) == Some(3);
    assert At(steps, 3, 1) == Some(0);
    assert At(steps, 3, 2) == Some(3);
    RecurringPointerIsLoop(steps, 3, 0, 2);
  }

  // -------------------------------------------------------------- the encoder

  function TrimDot(name: Bytes): Bytes {
    if |name| > 0 && name[|name| - 1] == DOT then name[..|name| - 1] else name
  }

  /** DNS labels are capped at 63 bytes. */
  function Cut(part: Bytes): Bytes {
    if |part| > MAX_LABEL then part[..MAX_LABEL] else part
  }

  predicate OnWire(part: Bytes) {
    0 < |part| <= MAX_LABEL
  }

  ghost predicate AllOnWire(labels: seq<Bytes>) {
    forall i :: 0 <= i < |labels| ==> OnWire(labels[i])
  }

  /** The parts that become labels: empty ones dropped, long ones cut. */
  function Kept(parts: seq<Bytes>): (labels: seq<Bytes>)
    ensures AllOnWire(labels)
  {
    if parts == [] then []
    else
      var last := parts[|parts| - 1];
      Kept(parts[..|parts| - 1]) + if last == [] then [] else [Cut(last)]
  }

  function NameLabels(name: Bytes): (labels: seq<Bytes>)
    ensures AllOnWire(labels)
  {
    Kept(Split(TrimDot(name), DOT))
  }

  /** The name as the wire can carry it, with one trailing dot. */
  function Canonical(name: Bytes): Bytes {
    Dotted(NameLabels(name))
  }

  ghost function EncodeLabels(labels: seq<Bytes>): Bytes {
    if labels == [] then []
    else
      var last := labels[|labels| - 1];
      EncodeLabels(labels[..|labels| - 1]) + LabelCode(last)
  }

  /** A length byte and the label's bytes. */
  ghost function LabelCode(part: Bytes): Bytes {
    [ByteOf(|part|)] + part
  }

  ghost function EncodeName(name: Bytes): Bytes {
    EncodeLabels(NameLabels(name)) + [0]
  }

  /** appendName: one length byte and the bytes of every label, then a zero. */
  method AppendName(b: Bytes, name: Bytes) returns (out: Bytes)
    ensures out == b + EncodeName(name)
  {
    var parts := Split(TrimDot(name), DOT);
    out := b;
    for i := 0 to |parts|
      invariant out == b + EncodeLabels(Kept(parts[..i]))
    {
      KeptSnoc(parts, i);
      var part := parts[i];
      if part == [] {
        continue;
      }
      if |part| > MAX_LABEL {
        part := part[..MAX_LABEL];
      }
      AppendLabel(b, Kept(parts[..i]), part);
      out := out + [ByteOf(|part|)];
      out := out + part;
    }
    assert parts[..|parts|] == parts;
    out := out + [0];
  }

  lemma {:induction false} KeptSnoc(parts: seq<Bytes>, i: nat)
    requires i < |parts|
    ensures Kept(parts[..i + 1]) == if parts[i] == [] then Kept(parts[..i]) else Kept(parts[..i]) + [Cut(parts[i])]
  {
    assert parts[..i + 1][..i] == parts[..i];
  }

  lemma {:induction false} AppendLabel(b: Bytes, labels: seq<Bytes>, last: Bytes)
    ensures b + EncodeLabels(labels) + [ByteOf(|last|)] + last == b + EncodeLabels(labels + [last])
  {
    EncodeSnoc(labels, last);
  }

  lemma {:induction false} EncodeSnoc(labels: seq<Bytes>, last: Bytes)
    ensures EncodeLabels(labels + [last]) == EncodeLabels(labels) + LabelCode(last)
  {
    assert (labels + [last])[..|labels|] == labels;
  }

  // -------------------------------------------------------------- round trips

  /** The bytes the labels take, each with its length byte. */
  ghost function Size(labels: seq<Bytes>): nat {
    if labels == [] then 0 else Size(labels[..|labels| - 1]) + 1 + |labels[|labels| - 1]|
  }

  /** Read from off, the labels are taken one after the other. */
  ghost predicate TakenFrom(step: Steps, off: int, labels: seq<Bytes>) {
    labels == [] ||
    var front, last := labels[..|labels| - 1], labels[|labels| - 1];
    && TakenFrom(step, off, front)
    && step(off + Size(front)) == Take(last, off + Size(labels))
  }

  lemma {:induction false} WalkTaken(step: Steps, off: int, labels: seq<Bytes>)
    requires TakenFrom(step, off, labels)
    ensures At(step, off, |labels|) == Some(off + Size(labels))
    ensures Labels(step, off, |labels|) == labels
    ensures PastFirstJump(step, off, |labels|) == -1
    decreases |labels|
  {
    if labels == [] {
    } else {
      var front, last := labels[..|labels| - 1], labels[|labels| - 1];
      assert TakenFrom(step, off, front) && step(off + Size(front)) == Take(last, off + Size(labels));
      hide At, Labels, PastFirstJump, TakenFrom, Size;
      WalkTaken(step, off, front);
      TakeStep(step, off, |front|, last, off + Size(labels));
      assert front + [last] == labels;
    }
  }

  lemma {:induction false} SizeOfCode(labels: seq<Bytes>)
    ensures |EncodeLabels(labels)| == Size(labels)
  {
    if labels != [] { SizeOfCode(labels[..|labels| - 1]); }
  }

  /** The code of some labels stands in the message at off. */
  ghost predicate CodeAt(msg: Bytes, off: nat, code: Bytes) {
    off + |code| <= |msg| && msg[off..off + |code|] == code
  }

  lemma {:induction false} CodePrefix(msg: Bytes, off: nat, code: Bytes, more: Bytes)
    requires CodeAt(msg, off, code + more)
    ensures CodeAt(msg, off, code) && CodeAt(msg, off + |code|, more)
  {
    assert msg[off..off + |code|] == (code + more)[..|code|];
    assert msg[off + |code|..off + |code + more|] == (code + more)[|code|..];
  }

  /** Encoded labels are taken one by one, wherever they stand in a message. */
  lemma {:induction false} CodeIsTaken(msg: Bytes, off: nat, labels: seq<Bytes>)
    requires AllOnWire(labels) && CodeAt(msg, off, EncodeLabels(labels))
    ensures TakenFrom(Reads(msg), off, labels)
    decreases |labels|
  {
    hide Reads;
    if labels == [] {
    } else {
      var front, last := labels[..|labels| - 1], labels[|labels| - 1];
      CodePrefix(msg, off, EncodeLabels(front), LabelCode(last));
      CodeIsTaken(msg, off, front);
      SizeOfCode(front);
      OneLabel(msg, off + Size(front), last);
      TakenSnoc(Reads(msg), off, labels);
    }
  }

  lemma {:induction false} TakenSnoc(step: Steps, off: nat, labels: seq<Bytes>)
    requires labels != []
    requires var front, last := labels[..|labels| - 1], labels[|labels| - 1];
      TakenFrom(step, off, front) && step(off + Size(front)) == Take(last, off + Size(front) + 1 + |last|)
    ensures TakenFrom(step, off, labels)
  {
  }

  lemma {:induction false} OneLabel(msg: Bytes, off: nat, text: Bytes)
    requires OnWire(text) && CodeAt(msg, off, LabelCode(text))
    ensures Reads(msg)(off) == Take(text, off + 1 + |text|)
  {
    CodePrefix(msg, off, [ByteOf(|text|)], text);
    assert msg[off] == msg[off..off + 1][0];
  }

  /** parseName undoes appendName, whatever stands before and after the name. */
  lemma {:induction false} NameRoundTrip(prefix: Bytes, name: Bytes, suffix: Bytes)
    ensures NameAt(Reads(prefix + EncodeName(name) + suffix), |prefix|) ==
        Ok(Canonical(name), |prefix| + |EncodeName(name)|)
  {
    assert CodeAt(prefix + EncodeName(name) + suffix, |prefix|, EncodeName(name));
    NameReadBack(prefix + EncodeName(name) + suffix, |prefix|, name);
  }

  lemma {:induction false} NameReadBack(msg: Bytes, off: nat, name: Bytes)
    requires CodeAt(msg, off, EncodeName(name))
    ensures NameAt(Reads(msg), off) == Ok(Canonical(name), off + |EncodeName(name)|)
  {
    hide Reads, NameAt, Decodes, CodeAt, EncodeLabels, NameLabels;
    WholeDecodes(msg, off, NameLabels(name));
    SizeOfCode(NameLabels(name));
  }

  lemma {:induction false} WholeDecodes(msg: Bytes, off: nat, labels: seq<Bytes>)
    requires AllOnWire(labels) && CodeAt(msg, off, EncodeLabels(labels) + [0])
    ensures Decodes(Reads(msg), off, |labels|, labels, off + Size(labels) + 1)
    ensures NameAt(Reads(msg), off) == Ok(Dotted(labels), off + Size(labels) + 1)
  {
    hide Reads, NameAt, Decodes, CodeAt, EncodeLabels, Dotted, TakenFrom, Size, AllOnWire;
    CodePrefix(msg, off, EncodeLabels(labels), [0]);
    SizeOfCode(labels);
    CodeIsTaken(msg, off, labels);
    ZeroStops(msg, off + Size(labels));
    TakenThenStop(Reads(msg), off, labels);
  }

  lemma {:induction false} TakenThenStop(step: Steps, off: nat, labels: seq<Bytes>)
    requires TakenFrom(step, off, labels) && step(off + Size(labels)).Stop?
    ensures Decodes(step, off, |labels|, labels, off + Size(labels) + 1)
    ensures NameAt(step, off) == Ok(Dotted(labels), off + Size(labels) + 1)
  {
    WalkTaken(step, off, labels);
    DecodingIsName(step, off, |labels|, labels, off + Size(labels) + 1);
  }

  lemma {:induction false} ZeroStops(msg: Bytes, off: nat)
    requires CodeAt(msg, off, [0])
    ensures Reads(msg)(off) == Stop
  {
    assert msg[off] == msg[off..off + 1][0];
  }

  /** Compression: labels followed by a pointer to an earlier name read as the
      labels in front of that name, and the record goes on after the pointer. */
  lemma {:induction false} CompressedName(
      msg: Bytes, off: nat, labels: seq<Bytes>, base: nat, m: nat, tail: seq<Bytes>, past: int)
    requires AllOnWire(labels) && CodeAt(msg, off, EncodeLabels(labels))
    requires Reads(msg)(off + |EncodeLabels(labels)|) == Jump(base)
    requires Decodes(Reads(msg), base, m, tail, past)
    ensures Decodes(Reads(msg), off, |labels| + 1 + m, labels + tail, off + |EncodeLabels(labels)| + 2)
    ensures NameAt(Reads(msg), off) == Ok(Dotted(labels + tail), off + |EncodeLabels(labels)| + 2)
  {
    hide Reads, NameAt, Decodes;
    CodeIsTaken(msg, off, labels);
    SizeOfCode(labels);
    TakenThenJump(Reads(msg), off, labels, base, m, tail, past);
  }

  lemma {:induction false} TakenThenJump(
      step: Steps, off: nat, labels: seq<Bytes>, base: nat, m: nat, tail: seq<Bytes>, past: int)
    requires TakenFrom(step, off, labels) && step(off + Size(labels)) == Jump(base)
    requires Decodes(step, base, m, tail, past)
    ensures Decodes(step, off, |labels| + 1 + m, labels + tail, off + Size(labels) + 2)
    ensures NameAt(step, off) == Ok(Dotted(labels + tail), off + Size(labels) + 2)
  {
    WalkTaken(step, off, labels);
    PointerJoinsTail(step, off, |labels|, base, m, tail, past);
  }

  lemma {:induction false} KeptOfClean(labels: seq<Bytes>)
    requires AllOnWire(labels)
    ensures Kept(labels) == labels
  {
    if labels == [] {
    } else {
      var front, last := labels[..|labels| - 1], labels[|labels| - 1];
      assert OnWire(last) && Cut(last) == last;
      assert Kept(labels) == Kept(front) + [last];
      assert labels == front + [last];
      hide Kept, Cut, OnWire;
      KeptOfClean(front);
    }
  }

  lemma {:induction false} KeptFree(parts: seq<Bytes>)
    requires AllFree(parts, DOT)
    ensures AllFree(Kept(parts), DOT)
  {
    if parts == [] {
    } else {
      var front, last := parts[..|parts| - 1], parts[|parts| - 1];
      assert forall part :: part in front ==> part in parts;
      KeptFree(front);
      assert last in parts;
      assert Free(last, DOT);
      assert Free(Cut(last), DOT);
    }
  }

  /** A name already in wire form is taken apart into exactly its labels. */
  lemma {:induction false} LabelsOfDotted(labels: seq<Bytes>)
    requires AllOnWire(labels) && AllFree(labels, DOT)
    ensures NameLabels(Dotted(labels)) == labels
  {
    assert TrimDot(Dotted(labels)) == Join(labels, DOT);
    if labels == [] {
      var parts: seq<Bytes> := Split([], DOT);
      assert TrimDot(Dotted(labels)) == [];
      assert parts == [[]] && parts[..0] == [] && parts[0] == [];
      assert Kept(parts) == Kept(parts[..0]);
    } else {
      SplitOfJoin(labels, DOT);
      KeptOfClean(labels);
    }
  }

  /** Encoding a decoded name again gives the same bytes. */
  lemma {:induction false} EncodeCanonical(name: Bytes)
    ensures EncodeName(Canonical(name)) == EncodeName(name)
    ensures Canonical(Canonical(name)) == Canonical(name)
  {
    SplitPartsFree(TrimDot(name), DOT);
    KeptFree(Split(TrimDot(name), DOT));
    LabelsOfDotted(NameLabels(name));
  }
}
