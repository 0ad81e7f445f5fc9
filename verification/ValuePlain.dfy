/** Commands and published values in words and numbers: what a payload writes, what a
    value is published as and what the catalog finds, told without the functions that
    compute it (internal/coordinator/coordinator.go, internal/process/process.go,
    internal/catalog/catalog.go). */
module ValuePlain {
  import opened Sequences
  import opened Numbers
  import opened Catalog
  import opened ValuePath

  // ------------------------------------------------------------ words of enumerations

  ghost predicate SameIgnoringCase(s: string, t: string, fold: char -> char) {
    |s| == |t| && forall i :: 0 <= i < |s| ==> fold(s[i]) == fold(t[i])
  }

  lemma {:induction false} FoldedSame(s: string, t: string, fold: char -> char)
    ensures Folded(s, fold) == Folded(t, fold) <==> SameIgnoringCase(s, t, fold)
  {
    if Folded(s, fold) == Folded(t, fold) {
      assert |s| == |Folded(s, fold)| == |t|;
      forall i | 0 <= i < |s| ensures fold(s[i]) == fold(t[i]) {
        assert Folded(s, fold)[i] == Folded(t, fold)[i];
      }
    }
  }

  /** The text is the token of this code. */
  ghost predicate IsToken(e: Entry, code: string, text: string, fold: char -> char) {
    code in e.valueMap && SameIgnoringCase(e.valueMap[code], text, fold)
  }

  /** The text is the German label of this code. */
  ghost predicate IsLabel(e: Entry, code: string, text: string, fold: char -> char) {
    code in e.valueMap && code in e.valueMapDe && SameIgnoringCase(e.valueMapDe[code], text, fold)
  }

  /** The first code of the list is the one at i. */
  lemma {:induction false} FirstCodeIs(e: Entry, codes: seq<string>, text: string, fold: char -> char)
    ensures match FirstCode(e.valueMap, codes, text, fold)
      case None => forall i :: 0 <= i < |codes| ==> !IsToken(e, codes[i], text, fold)
      case Some(c) => exists i ::
        && 0 <= i < |codes| && c == codes[i] && IsToken(e, codes[i], text, fold)
        && forall k :: 0 <= k < i ==> !IsToken(e, codes[k], text, fold)
  {
    if codes != [] {
      var rest := codes[1..];
      FirstCodeIs(e, rest, text, fold);
      if codes[0] in e.valueMap {
        FoldedSame(e.valueMap[codes[0]], text, fold);
      }
      hide SameIgnoringCase, Folded;
      if !IsToken(e, codes[0], text, fold) {
        assert forall i :: 0 < i < |codes| ==> codes[i] == rest[i - 1];
        if FirstCode(e.valueMap, rest, text, fold).Some? {
          var c := FirstCode(e.valueMap, rest, text, fold).value;
          var i :| && 0 <= i < |rest| && c == rest[i] && IsToken(e, rest[i], text, fold)
                   && forall k :: 0 <= k < i ==> !IsToken(e, rest[k], text, fold);
          assert c == codes[i + 1];
        }
      }
    }
  }

  /** The label path: the token of the first code whose German label the text is. */
  lemma {:induction false} LabelNamedIs(e: Entry, codes: seq<string>, text: string, fold: char -> char)
    ensures match LabelNamed(e, codes, text, fold)
      case None => forall c :: c in codes ==> !IsLabel(e, c, text, fold)
      case Some(token) => exists c :: c in codes && IsLabel(e, c, text, fold) && token == e.valueMap[c]
  {
    if codes != [] {
      LabelNamedIs(e, codes[1..], text, fold);
      if codes[0] in e.valueMap && codes[0] in e.valueMapDe {
        FoldedSame(e.valueMapDe[codes[0]], text, fold);
      }
      hide SameIgnoringCase, Folded;
      assert forall c :: c in codes <==> c == codes[0] || c in codes[1..];
      assert codes[0] in codes;
    }
  }

  /** No code has the text for a token or a German label. */
  ghost predicate UnknownWord(e: Entry, text: string, fold: char -> char) {
    forall c :: c in e.valueMap ==> !IsToken(e, c, text, fold) && !IsLabel(e, c, text, fold)
  }

  /** An unknown word for an enumerated property: refused unless it is a number, which is
      written as for a property without tokens. */
  lemma {:induction false} UnknownWordIsRefused(
      e: Entry, codes: seq<string>, text: string, reading: Reading, fold: char -> char)
    requires Lists(codes, e.valueMap) && e.valueMap != map[]
    requires UnknownWord(e, text, fold)
    ensures var w := SetTo(e, codes, Plain(text, reading), fold);
      && (!reading.Finite? ==> w == Rejected)
      && (reading.Finite? ==> w == SetTo(e.(valueMap := map[], valueMapDe := map[]), [], Plain(text, reading), fold))
  {
    var c :| c in e.valueMap;
    assert c in codes;
    assert Named(e, codes, text, fold) == None by { NothingNamed(e, codes, text, fold); }
    hide Named, Lists, UnknownWord, RawOf, Clamp, Round, InInt64;
    var plain := e.(valueMap := map[], valueMapDe := map[]);
    if reading.Finite? {
      var f := reading.value;
      assert Clamp(plain, f) == Clamp(e, f) by { SameBounds(e, plain, f); }
      assert RawOf(plain, Clamp(e, f)) == RawOf(e, Clamp(e, f)) by { SameBounds(e, plain, Clamp(e, f)); }
    }
  }

  lemma {:induction false} SameBounds(e: Entry, e': Entry, f: real)
    requires e.min == e'.min && e.max == e'.max && e.scale == e'.scale && e.offset == e'.offset
    ensures Clamp(e, f) == Clamp(e', f) && RawOf(e, f) == RawOf(e', f)
  {
  }

  lemma {:induction false} NothingNamed(e: Entry, codes: seq<string>, text: string, fold: char -> char)
    requires Lists(codes, e.valueMap) && UnknownWord(e, text, fold)
    ensures Named(e, codes, text, fold) == None
  {
    FirstCodeIs(e, codes, text, fold);
    LabelNamedIs(e, codes, text, fold);
    hide FirstCode, LabelNamed, IsToken, IsLabel;
  }

  /** A structured payload names nothing, for any property. */
  lemma {:induction false} StructuredIsRefused(c: Catalog, leaf: string, codes: seq<string>, fold: char -> char)
    ensures leaf in c.byTopic ==> SetTo(c.byTopic[leaf], codes, Structured, fold) == Rejected
    ensures SetOn(c, leaf, codes, Structured, fold) == None
  {
  }

  /** What a code writes: itself, as the number it spells where it spells one. */
  ghost predicate WritesCode(w: Written, code: string) {
    w == if Atoi(code).Some? then Int(Atoi(code).value) else Text(code)
  }

  /** A token in any case writes its code, whatever number it may read as. */
  lemma {:induction false} TokenWritesItsCode(
      e: Entry, codes: seq<string>, code: string, text: string, reading: Reading, fold: char -> char)
    requires Lists(codes, e.valueMap) && TokensDiffer(e.valueMap, fold) && IsToken(e, code, text, fold)
    ensures WritesCode(SetTo(e, codes, Plain(text, reading), fold), code)
  {
    FoldedSame(e.valueMap[code], text, fold);
    TokensLeadBackIffDifferent(e.valueMap, codes, fold);
    SameFoldSameCode(e.valueMap, codes, text, e.valueMap[code], fold);
    assert code in codes;
    hide FirstCode, LabelNamed, Folded, Atoi;
  }

  /** A German label in any case writes the code of its token, unless the text is the token
      of another one. */
  lemma {:induction false} LabelWritesItsCode(
      e: Entry, codes: seq<string>, code: string, text: string, reading: Reading, fold: char -> char)
    requires Lists(codes, e.valueMap) && TokensDiffer(e.valueMap, fold) && IsLabel(e, code, text, fold)
    requires forall c :: c in e.valueMap ==> !IsToken(e, c, text, fold) && (IsLabel(e, c, text, fold) ==> c == code)
    ensures WritesCode(SetTo(e, codes, Plain(text, reading), fold), code)
  {
    FirstCodeIs(e, codes, text, fold);
    LabelNamedIs(e, codes, text, fold);
    TokensLeadBackIffDifferent(e.valueMap, codes, fold);
    assert code in codes;
    hide FirstCode, LabelNamed, IsToken, Folded, Atoi;
  }

  /** What reaches the unit: nothing for a leaf nobody knows, a property nobody may write,
      an unknown word or a number that is none; else the one property, with its value. */
  lemma {:induction false} NothingIsSet(
      c: Catalog, leaf: string, codes: seq<string>, text: string, reading: Reading, fold: char -> char)
    ensures leaf !in c.byTopic ==> SetOn(c, leaf, codes, Plain(text, reading), fold) == None
    ensures leaf in c.byTopic && !c.byTopic[leaf].writable ==> SetOn(c, leaf, codes, Plain(text, reading), fold) == None
    ensures leaf in c.byTopic && Lists(codes, c.byTopic[leaf].valueMap) && c.byTopic[leaf].valueMap != map[]
            && UnknownWord(c.byTopic[leaf], text, fold) && !reading.Finite? ==>
              SetOn(c, leaf, codes, Plain(text, reading), fold) == None
    ensures var set' := SetOn(c, leaf, codes, Plain(text, reading), fold);
      set'.Some? ==> leaf in c.byTopic && c.byTopic[leaf].writable && set'.value.0 == c.byTopic[leaf].property
                     && set'.value.1 == SetTo(c.byTopic[leaf], codes, Plain(text, reading), fold)
                     && set'.value.1 != Rejected
  {
    if leaf in c.byTopic && Lists(codes, c.byTopic[leaf].valueMap) && c.byTopic[leaf].valueMap != map[]
       && UnknownWord(c.byTopic[leaf], text, fold) {
      UnknownWordIsRefused(c.byTopic[leaf], codes, text, reading, fold);
    }
    hide SetTo, UnknownWord;
  }

  // ---------------------------------------------------------------------- plain values

  /** A number within its bounds: times the scale, where there is one, plus the offset,
      rounded; refused beyond 64 bits. */
  lemma {:induction false} NumberIsUnscaled(e: Entry, text: string, f: real, fold: char -> char)
    requires (e.min.Some? ==> e.min.value <= f) && (e.max.Some? ==> f <= e.max.value)
    ensures var raw := (if e.scale != 0.0 then f * e.scale else f) + e.offset;
      SetTo(e, [], Plain(text, Finite(f)), fold) ==
      if -9223372036854775808.0 <= raw <= 9223372036854775807.0 then Int(Round(raw)) else Rejected
  {
    hide Round;
    assert MIN_INT64 as real == -9223372036854775808.0 && MAX_INT64 as real == 9223372036854775807.0;
    var raw := (if e.scale != 0.0 then f * e.scale else f) + e.offset;
    assert RawOf(e, Clamp(e, f)) == raw;
    hide RawOf, Clamp;
    assert InInt64(raw) <==> -9223372036854775808.0 <= raw <= 9223372036854775807.0;
    hide InInt64;
  }

  /** A number beyond a bound writes what the bound itself writes. */
  lemma {:induction false} NumberIsClamped(e: Entry, text: string, f: real, fold: char -> char)
    requires e.min.Some? && e.max.Some? ==> e.min.value <= e.max.value
    ensures e.min.Some? && f < e.min.value ==>
      SetTo(e, [], Plain(text, Finite(f)), fold) == SetTo(e, [], Plain(text, Finite(e.min.value)), fold)
    ensures e.max.Some? && f > e.max.value ==>
      SetTo(e, [], Plain(text, Finite(f)), fold) == SetTo(e, [], Plain(text, Finite(e.max.value)), fold)
  {
    hide Round;
  }

  /** What is no number goes on as text, without the white space around it; what reads as
      an infinity or as no number at all is refused. */
  lemma {:induction false} TextIsTrimmed(
      e: Entry, before: string, core: string, after: string, fold: char -> char)
    requires forall i :: 0 <= i < |before| ==> Space(before[i])
    requires forall i :: 0 <= i < |after| ==> Space(after[i])
    requires core != "" ==> !Space(core[0]) && !Space(core[|core| - 1])
    ensures SetTo(e, [], Plain(before + core + after, NoNumber), fold) == Text(core)
    ensures SetTo(e, [], Plain(before + core + after, NotFinite), fold) == Rejected
  {
    TrimmedBefore(before, core, after);
  }

  lemma {:induction false} TrimmedBefore(before: string, core: string, after: string)
    requires forall i :: 0 <= i < |before| ==> Space(before[i])
    requires forall i :: 0 <= i < |after| ==> Space(after[i])
    requires core != "" ==> !Space(core[0]) && !Space(core[|core| - 1])
    ensures Trimmed(before + core + after) == core
  {
    var s := before + core + after;
    if before != "" {
      TrimmedBefore(before[1..], core, after);
      hide Space;
      assert s[0] == before[0];
      assert s[1..] == before[1..] + core + after;
    } else if core == "" && after != "" {
      TrimmedBefore("", "", after[1..]);
      hide Space;
      assert s == after && after[1..] == "" + "" + after[1..];
    } else {
      assert s == core + after;
      TrimmedAfter(core, after);
      hide Space;
      assert core == "" ==> s == "";
    }
  }

  lemma {:induction false} TrimmedAfter(core: string, after: string)
    requires forall i :: 0 <= i < |after| ==> Space(after[i])
    requires core != "" ==> !Space(core[|core| - 1])
    ensures TrimRight(core + after) == core
    decreases |after|
  {
    hide Space;
    var s := core + after;
    if after == "" {
      assert s == core;
    } else {
      var front := after[..|after| - 1];
      assert s[|s| - 1] == after[|after| - 1] && s[..|s| - 1] == core + front;
      TrimmedAfter(core, front);
    }
  }

  /** White space, character by character. */
  lemma {:induction false} SpaceSpelled(c: char)
    ensures Space(c) <==>
            || c as int in {9, 10, 11, 12, 13, 32, 0x85, 0xA0, 0x1680, 0x2028, 0x2029, 0x202F, 0x205F, 0x3000}
            || 0x2000 <= c as int <= 0x200A
  {
  }

  // ------------------------------------------------------------------ what is published

  /** A number of a property without tokens: what is published, scaled back and with the
      offset added, is what the unit reported. Anything else is published as it is. */
  lemma {:induction false} NumberIsScaled(e: Entry, raw: Raw)
    requires e.valueMap == map[]
    ensures !Applied(e, raw).1
    ensures !raw.Num? ==> Applied(e, raw).0 == raw
    ensures raw.Num? ==>
      && Applied(e, raw).0.Num?
      && (var shown := Applied(e, raw).0.value;
          (if e.scale != 0.0 then shown * e.scale else shown) + e.offset == raw.value)
  {
  }

  /** An enumerated property: the token of a code the map knows; no value as it is; and
      anything else as it is, marked as unmapped. */
  lemma {:induction false} CodeIsPublishedAsToken(e: Entry, raw: Raw)
    requires e.valueMap != map[]
    ensures raw == Null || raw == Str("") ==> Applied(e, raw) == (raw, false)
    ensures raw != Null && raw != Str("") ==>
      match CodeOf(raw)
      case None => Applied(e, raw) == (raw, true)
      case Some(code) => Applied(e, raw) == if code in e.valueMap then (Str(e.valueMap[code]), false) else (raw, true)
  {
    hide CodeOf;
  }

  /** The codes: whole numbers of 32 bits, and strings that spell a whole number between
      white space; a number in between, a truth value or a structure has none. */
  lemma {:induction false} CodeSpelled(n: int, f: real, text: string, b: bool)
    ensures CodeOf(Num(n as real)) == if -2147483648 <= n <= 2147483647 then Some(Itoa(n)) else None
    ensures n as real < f < n as real + 1.0 ==> CodeOf(Num(f)) == None
    ensures Atoi(Trimmed(text)) == Some(n) ==> CodeOf(Str(text)) == Some(Itoa(n))
    ensures Atoi(Trimmed(text)) == None ==> CodeOf(Str(text)) == None
    ensures CodeOf(Bool(b)) == None && CodeOf(Structure) == None && CodeOf(Null) == None
  {
    hide Itoa, Atoi, Trimmed;
    assert (n as real).Floor == n;
    if n as real < f < n as real + 1.0 {
      assert f.Floor == n;
    }
  }

  // ------------------------------------------------------------------- decimal numbers

  /** Digits, most significant first. */
  lemma {:induction false} DigitsSpelled(s: string, c: char)
    requires s != ""
    ensures Magnitude("") == None
    ensures Magnitude([c]) == if '0' <= c <= '9' then Some(c as int - 48) else None
    ensures Magnitude(s + [c]) ==
            if Magnitude(s).Some? && '0' <= c <= '9' then Some(Magnitude(s).value * 10 + (c as int - 48)) else None
  {
    assert (s + [c])[..|s|] == s;
  }

  /** A number with or without a sign, of at most 64 bits. */
  lemma {:induction false} AtoiSpelled(s: string)
    requires s == "" || (s[0] != '-' && s[0] != '+')
    ensures Atoi("+" + s) == Atoi(s)
    ensures Magnitude(s) == None ==> Atoi(s) == None && Atoi("-" + s) == None
    ensures Magnitude(s).Some? ==>
      var n: int := Magnitude(s).value;
      && Atoi(s) == (if n <= 9223372036854775807 then Some(n) else None)
      && Atoi("-" + s) == (if n <= 9223372036854775808 then Some(-n) else None)
  {
    assert ("+" + s)[1..] == s && ("-" + s)[1..] == s;
    hide Magnitude;
  }

  lemma {:induction false} ItoaSpelled(n: int, d: int)
    requires 0 <= n && 0 <= d < 10
    ensures Itoa(d) == [(48 + d) as char]
    ensures n > 0 ==> Itoa(10 * n + d) == Itoa(n) + [(48 + d) as char] && Itoa(-n) == "-" + Itoa(n)
  {
    assert (10 * n + d) / 10 == n && (10 * n + d) % 10 == d;
  }

  // ----------------------------------------------------------------------- the catalog

  /** Where a property is published: on its topic where it has one, else on its name. */
  lemma {:induction false} LeafSpelled(e: Entry)
    ensures e.topic != "" ==> TopicLeaf(e) == e.topic
    ensures e.topic == "" ==> TopicLeaf(e) == e.property
    ensures Property(e) == e.property
  {
  }

  /** The last entry of a key is the one found, and nothing is found that is not there. */
  lemma {:induction false} LastOneIsFound(entries: seq<Entry>, more: seq<Entry>, e: Entry, key: Entry -> string)
    requires forall i :: 0 <= i < |more| ==> key(more[i]) != key(e)
    ensures Lookup(IndexBy(entries + [e] + more, key), key(e)) == Some(e)
    ensures Lookup(IndexBy(more, key), key(e)) == None
  {
    var all := entries + [e] + more;
    if more == [] {
      assert all == entries + [e] && all[..|entries|] == entries;
    } else {
      var n := |more| - 1;
      assert all[..|all| - 1] == entries + [e] + more[..n] && all[|all| - 1] == more[n];
      LastOneIsFound(entries, more[..n], e, key);
    }
  }

  /** What Load accepts: every entry with a property and a known platform, no two of one
      property, no two of one leaf. */
  lemma {:induction false} SoundSpelled(entries: seq<Entry>)
    ensures Sound(entries) <==>
            && (forall i :: 0 <= i < |entries| ==>
                 && entries[i].property != ""
                 && entries[i].platform in {"", "sensor", "binary_sensor", "number", "select", "switch"})
            && (forall i, j :: 0 <= i < j < |entries| ==>
                 && entries[i].property != entries[j].property
                 && TopicLeaf(entries[i]) != TopicLeaf(entries[j]))
  {
    hide TopicLeaf;
  }

  /** There is only one fault to report. */
  lemma {:induction false} OneFirstFault(entries: seq<Entry>, f: Fault, g: Fault)
    requires FirstFault(entries, f) && FirstFault(entries, g)
    ensures f == g
  {
    NotSoundPast(entries, f, g.at);
    NotSoundPast(entries, g, f.at);
    hide TopicLeaf, ValidPlatform;
    assert f.at == g.at;
    assert forall i :: 0 <= i < f.at ==> entries[..f.at][i] == entries[i];
  }

  lemma {:induction false} NotSoundPast(entries: seq<Entry>, f: Fault, n: nat)
    requires FirstFault(entries, f) && n <= |entries|
    ensures f.at < n ==> !Sound(entries[..n])
  {
    if f.at < n {
      var front := entries[..n];
      assert forall i :: 0 <= i < n ==> front[i] == entries[i];
      hide TopicLeaf, ValidPlatform;
      match f
      case NoProperty(i) => assert front[i].property == "";
      case BadPlatform(i) => assert !ValidPlatform(front[i].platform);
      case SharedProperty(j, i) => assert Property(front[j]) == Property(front[i]);
      case SharedLeaf(j, i) => assert TopicLeaf(front[j]) == TopicLeaf(front[i]);
    }
  }
}
