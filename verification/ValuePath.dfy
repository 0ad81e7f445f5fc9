/** A property on its way out and back: applyEntry (internal/process/process.go),
    decodeSet and decodeCommand (internal/coordinator/coordinator.go). */
module ValuePath {
  import opened Sequences
  import opened Numbers
  import opened Catalog

  /** A reported value. */
  datatype Raw = Null | Num(value: real) | Str(text: string) | Bool(b: bool) | Structure

  /** A payload's text, and what ParseFloat reads in it once trimmed. */
  datatype Reading = NoNumber | NotFinite | Finite(value: real)
  datatype Payload = Structured | Plain(text: string, reading: Reading)

  /** What goes to the unit. */
  datatype Written = Rejected | Int(n: int) | Text(text: string)

  predicate InInt64(r: real) {
    MIN_INT64 as real <= r <= MAX_INT64 as real
  }

  /** White space in Unicode. */
  predicate Space(c: char) {
    || c == ' ' || '\t' <= c <= '\r' || c == '\U{0085}' || c == '\U{00A0}'
    || c == '\U{1680}' || '\U{2000}' <= c <= '\U{200A}' || c == '\U{2028}' || c == '\U{2029}'
    || c == '\U{202F}' || c == '\U{205F}' || c == '\U{3000}'
  }

  function TrimRight(s: string): string {
    if s != "" && Space(s[|s| - 1]) then TrimRight(s[..|s| - 1]) else s
  }

  function Trimmed(s: string): string {
    if s != "" && Space(s[0]) then Trimmed(s[1..]) else TrimRight(s)
  }

  // ------------------------------------------------------------------ on its way out

  /** codeOf: the value as a key of a value map. */
  function CodeOf(raw: Raw): Option<string> {
    match raw
    case Str(text) =>
      var i := Atoi(Trimmed(text));
      if i == None then None else Some(Itoa(i.value))
    case Num(f) =>
      if !Integral(f) || f > MAX_INT32 as real || f < MIN_INT32 as real then None else Some(Itoa(f.Floor))
    case _ => None
  }

  /** applyEntry: what is published, and whether a mapped property got a value its
      map does not know. */
  function Applied(e: Entry, raw: Raw): (Raw, bool) {
    if e.valueMap != map[] then
      if raw == Null || raw == Str("") then (raw, false)
      else
        var code := CodeOf(raw);
        if code.Some? && code.value in e.valueMap then (Str(e.valueMap[code.value]), false) else (raw, true)
    else if (e.scale != 0.0 || e.offset != 0.0) && raw.Num? then
      var f := if e.offset != 0.0 then raw.value - e.offset else raw.value;
      (Num(if e.scale != 0.0 then f / e.scale else f), false)
    else (raw, false)
  }

  // ----------------------------------------------------------------------- and back

  function Clamp(e: Entry, f: real): real {
    var f := if e.min.Some? && f < e.min.value then e.min.value else f;
    if e.max.Some? && f > e.max.value then e.max.value else f
  }

  /** Display units in the unit's own. */
  function RawOf(e: Entry, f: real): real {
    (if e.scale != 0.0 then f * e.scale else f) + e.offset
  }

  function Decoded(e: Entry, text: string, reading: Reading): Written {
    match reading
    case NoNumber => Text(Trimmed(text))
    case NotFinite => Rejected
    case Finite(f) =>
      var raw := RawOf(e, Clamp(e, f));
      if InInt64(raw) then Int(Round(raw)) else Rejected
  }

  method DecodeCommand(e: Entry, text: string, reading: Reading) returns (w: Written)
    ensures w == Decoded(e, text, reading)
  {
    hide Round;
    match reading
    case NotFinite => w := Rejected;
    case NoNumber => w := Text(Trimmed(text));
    case Finite(value) =>
      var f := value;
      if e.min.Some? && f < e.min.value {
        f := e.min.value;
      }
      if e.max.Some? && f > e.max.value {
        f := e.max.value;
      }
      if e.scale != 0.0 {
        f := f * e.scale;
      }
      f := f + e.offset;
      assert f == RawOf(e, Clamp(e, value));
      if f < MIN_INT64 as real || f > MAX_INT64 as real {
        return Rejected;
      }
      w := Int(Round(f));
  }

  /** The token a text names: a token in any case, else the German label of one. */
  ghost function Named(e: Entry, codes: seq<string>, text: string, fold: char -> char): Option<string> {
    var byToken := FirstCode(e.valueMap, codes, text, fold);
    if byToken.Some? then
      FirstCodeFound(e.valueMap, codes, text, fold);
      Some(e.valueMap[byToken.value])
    else LabelNamed(e, codes, text, fold)
  }

  ghost function LabelNamed(e: Entry, codes: seq<string>, text: string, fold: char -> char): Option<string> {
    if codes == [] then None
    else if
      && codes[0] in e.valueMap && codes[0] in e.valueMapDe
      && Folded(e.valueMapDe[codes[0]], fold) == Folded(text, fold)
    then Some(e.valueMap[codes[0]])
    else LabelNamed(e, codes[1..], text, fold)
  }

  /** decodeSet, the codes of an enumerated property taken in the order given. */
  ghost function SetTo(e: Entry, codes: seq<string>, p: Payload, fold: char -> char): Written {
    match p
    case Structured => Rejected
    case Plain(text, reading) =>
      if codes == [] then Decoded(e, text, reading)
      else
        var token := Named(e, codes, text, fold);
        if token.Some? then
          var code := FirstCode(e.valueMap, codes, token.value, fold);
          var spelled := if code.Some? then code.value else "";
          var i := Atoi(spelled);
          if i.Some? then Int(i.value) else Text(spelled)
        else
          var w := Decoded(e, text, reading);
          if w.Text? then Rejected else w
  }

  // -------------------------------------------------------------- numbers, both ways

  function Limit(n: int, lo: Option<int>, hi: Option<int>): int {
    if lo.Some? && n < lo.value then lo.value else if hi.Some? && n > hi.value then hi.value else n
  }

  /** A bound in the unit's own terms. */
  function RawBound(e: Entry, bound: Option<real>): Option<int> {
    if bound == None then None else Some(Round(RawOf(e, bound.value)))
  }

  /** A negative scale turns the bounds around. */
  function RawLow(e: Entry): Option<int> {
    RawBound(e, if e.scale >= 0.0 then e.min else e.max)
  }

  function RawHigh(e: Entry): Option<int> {
    RawBound(e, if e.scale >= 0.0 then e.max else e.min)
  }

  ghost predicate Ordered(e: Entry) {
    e.min.Some? && e.max.Some? ==> e.min.value <= e.max.value
  }

  lemma {:induction false} RawOfMonotone(e: Entry, f: real, g: real)
    requires f <= g
    ensures e.scale >= 0.0 ==> RawOf(e, f) <= RawOf(e, g) && Round(RawOf(e, f)) <= Round(RawOf(e, g))
    ensures e.scale < 0.0 ==> RawOf(e, g) <= RawOf(e, f) && Round(RawOf(e, g)) <= Round(RawOf(e, f))
  {
    if e.scale >= 0.0 {
      assert f * e.scale <= g * e.scale;
      RoundMonotone(RawOf(e, f), RawOf(e, g));
    } else {
      assert g * e.scale <= f * e.scale;
      RoundMonotone(RawOf(e, g), RawOf(e, f));
    }
  }

  /** Limiting what is displayed limits what is written: a numeric command writes
      its own rounded raw value, held between the rounded raw bounds. */
  lemma {:induction false} DecodedIsLimited(e: Entry, text: string, f: real)
    requires Ordered(e)
    ensures var w := Decoded(e, text, Finite(f));
      && (w == Rejected <==> !InInt64(RawOf(e, Clamp(e, f))))
      && (w != Rejected ==> w == Int(Limit(Round(RawOf(e, f)), RawLow(e), RawHigh(e))))
  {
    if e.min.Some? {
      if f < e.min.value { RawOfMonotone(e, f, e.min.value); } else { RawOfMonotone(e, e.min.value, f); }
    }
    if e.max.Some? {
      if f > e.max.value { RawOfMonotone(e, e.max.value, f); } else { RawOfMonotone(e, f, e.max.value); }
    }
    if e.min.Some? && e.max.Some? {
      RawOfMonotone(e, e.min.value, e.max.value);
    }
  }

  /** Bounds the wrong way round write the upper one, whatever was asked. */
  lemma {:induction false} CrossedBoundsWriteTheUpper(e: Entry, text: string, f: real)
    requires !Ordered(e)
    ensures Decoded(e, text, Finite(f)) == Decoded(e, text, Finite(e.max.value))
  {
  }

  /** A display value that is published for a number. */
  function Display(e: Entry, r: real): real {
    (if e.scale != 0.0 then (r - e.offset) / e.scale else r - e.offset)
  }

  lemma {:induction false} AppliedIsDisplay(e: Entry, r: real)
    requires e.valueMap == map[]
    ensures Applied(e, Num(r)) == (Num(Display(e, r)), false)
    ensures RawOf(e, Display(e, r)) == r
  {
  }

  /** An integer that was read and is written back arrives unchanged exactly when it
      lies within the rounded raw bounds. */
  lemma {:induction false} ReadThenWriteIff(e: Entry, n: int, text: string)
    requires e.valueMap == map[] && Ordered(e)
    requires InInt64(RawOf(e, Clamp(e, Display(e, n as real))))
    ensures var read := Applied(e, Num(n as real)).0;
      && read.Num?
      && (Decoded(e, text, Finite(read.value)) == Int(n)
          <==> (RawLow(e).Some? ==> RawLow(e).value <= n) && (RawHigh(e).Some? ==> n <= RawHigh(e).value))
  {
    AppliedIsDisplay(e, n as real);
    DecodedIsLimited(e, text, Display(e, n as real));
    RoundOfInt(n);
  }

  /** In particular when what is displayed lies within the bounds. */
  lemma {:induction false} ReadThenWrite(e: Entry, n: int, text: string)
    requires e.valueMap == map[] && MIN_INT64 <= n <= MAX_INT64
    requires Clamp(e, Display(e, n as real)) == Display(e, n as real)
    ensures var read := Applied(e, Num(n as real)).0;
      read.Num? && Decoded(e, text, Finite(read.value)) == Int(n)
  {
    AppliedIsDisplay(e, n as real);
    RoundOfInt(n);
  }

  /** A written number reads back within half a raw unit of what was asked, and as
      asked exactly when that is a whole number of raw units. */
  lemma {:induction false} WriteThenRead(e: Entry, text: string, f: real)
    requires e.valueMap == map[] && Decoded(e, text, Finite(f)) != Rejected
    ensures var n, asked := Decoded(e, text, Finite(f)).n, Clamp(e, f);
      && -0.5 <= n as real - RawOf(e, asked) <= 0.5
      && Applied(e, Num(n as real)) == (Num(Display(e, n as real)), false)
      && (Display(e, n as real) == asked <==> Integral(RawOf(e, asked)))
  {
    var asked := Clamp(e, f);
    var n := Round(RawOf(e, asked));
    RoundNear(RawOf(e, asked));
    RoundExact(RawOf(e, asked));
    AppliedIsDisplay(e, n as real);
    assert Display(e, RawOf(e, asked)) == asked;
  }

  // ------------------------------------------------------------- tokens, both ways

  /** The code of a value is one spelling: reading it as a string gives it again. */
  lemma {:induction false} CodeIsCanonical(raw: Raw)
    requires CodeOf(raw).Some?
    ensures Atoi(CodeOf(raw).value).Some? && CodeOf(raw).value == Itoa(Atoi(CodeOf(raw).value).value)
  {
    match raw
    case Str(text) => AtoiOfItoa(Atoi(Trimmed(text)).value);
    case Num(f) => AtoiOfItoa(f.Floor);
  }

  /** The token published for a value, sent back in any case, writes the number that
      was read: the order of the codes does not matter. */
  lemma {:induction false} TokenThenWrite(
      e: Entry, codes: seq<string>, raw: Raw, text: string, reading: Reading, fold: char -> char)
    requires Lists(codes, e.valueMap) && TokensDiffer(e.valueMap, fold)
    requires CodeOf(raw).Some? && CodeOf(raw).value in e.valueMap
    requires Applied(e, raw).0.Str? && Folded(text, fold) == Folded(Applied(e, raw).0.text, fold)
    ensures !Applied(e, raw).1
    ensures var w := SetTo(e, codes, Plain(text, reading), fold);
      && w.Int? && Itoa(w.n) == CodeOf(raw).value
      && (raw.Num? ==> w.n as real == raw.value)
      && (raw.Str? ==> Atoi(Trimmed(raw.text)) == Some(w.n))
  {
    var code := CodeOf(raw).value;
    assert Applied(e, raw).0.text == e.valueMap[code];
    TokensLeadBackIffDifferent(e.valueMap, codes, fold);
    SameFoldSameCode(e.valueMap, codes, text, e.valueMap[code], fold);
    CodeIsCanonical(raw);
    match raw
    case Str(s) => AtoiOfItoa(Atoi(Trimmed(s)).value);
    case Num(f) => AtoiOfItoa(f.Floor);
  }

  /** A token that is written is what the unit's next report publishes, in whatever
      case it was sent, as long as its code is spelled as a report would spell it. */
  lemma {:induction false} WriteThenToken(
      e: Entry, codes: seq<string>, text: string, reading: Reading, fold: char -> char)
    requires Lists(codes, e.valueMap)
    requires FirstCode(e.valueMap, codes, text, fold).Some?
    requires var code := FirstCode(e.valueMap, codes, text, fold).value;
      Atoi(code).Some? && Itoa(Atoi(code).value) == code && MIN_INT32 <= Atoi(code).value <= MAX_INT32
    ensures var w := SetTo(e, codes, Plain(text, reading), fold);
      && w.Int?
      && var read := Applied(e, Num(w.n as real));
      && read.0.Str? && Folded(read.0.text, fold) == Folded(text, fold) && !read.1
  {
    var code := FirstCode(e.valueMap, codes, text, fold).value;
    FirstCodeFound(e.valueMap, codes, text, fold);
    SameFoldSameCode(e.valueMap, codes, text, e.valueMap[code], fold);
    var n := Atoi(code).value;
    assert (n as real).Floor == n;
  }

  // ------------------------------------------------------------------ the whole way

  /** applySet up to the write: the one property to set, if any. */
  ghost function SetOn(
      c: Catalog, leaf: string, codes: seq<string>, p: Payload, fold: char -> char): Option<(string, Written)>
  {
    if leaf !in c.byTopic || !c.byTopic[leaf].writable then None
    else
      var w := SetTo(c.byTopic[leaf], codes, p, fold);
      if w == Rejected then None else Some((c.byTopic[leaf].property, w))
  }

  /** In a catalog Load accepts, sending an integer property's published value to the
      leaf it was published on writes that property, with the value it had. */
  lemma {:induction false} SettingWhatWasReadChangesNothing(
      entries: seq<Entry>, property: string, n: int, text: string, fold: char -> char)
    requires Sound(entries) && property in Indexed(entries).byProp
    requires var e := Indexed(entries).byProp[property];
      && e.writable && e.valueMap == map[]
      && MIN_INT64 <= n <= MAX_INT64
      && Clamp(e, Display(e, n as real)) == Display(e, n as real)
    ensures var c := Indexed(entries);
      var e := c.byProp[property];
      var read := Applied(e, Num(n as real)).0;
      && read.Num?
      && SetOn(c, TopicLeaf(e), [], Plain(text, Finite(read.value)), fold) == Some((property, Int(n)))
  {
    LeafLeadsBack(entries, property);
    ReadThenWrite(Indexed(entries).byProp[property], n, text);
  }

  /** The same for an enumerated property: its published token, in any case, writes the
      number it was published for. */
  lemma {:induction false} SettingATokenChangesNothing(
    entries: seq<Entry>, property: string, codes: seq<string>, raw: Raw, text: string, reading: Reading,
    fold: char -> char)
    requires Sound(entries) && property in Indexed(entries).byProp
    requires var e := Indexed(entries).byProp[property];
      && e.writable && Lists(codes, e.valueMap) && TokensDiffer(e.valueMap, fold)
      && CodeOf(raw).Some? && CodeOf(raw).value in e.valueMap
      && Applied(e, raw).0.Str? && Folded(text, fold) == Folded(Applied(e, raw).0.text, fold)
    ensures var c := Indexed(entries);
      var written := SetOn(c, TopicLeaf(c.byProp[property]), codes, Plain(text, reading), fold);
      && written.Some? && written.value.0 == property && written.value.1.Int?
      && Itoa(written.value.1.n) == CodeOf(raw).value
      && (raw.Num? ==> written.value.1.n as real == raw.value)
  {
    LeafLeadsBack(entries, property);
    TokenThenWrite(Indexed(entries).byProp[property], codes, raw, text, reading, fold);
  }
}
