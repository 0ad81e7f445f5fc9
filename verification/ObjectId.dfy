/** The entity-id seed (internal/hass/discovery.go): slugify, then drop repeated
    tokens in place. */
module ObjectId {
  import opened Sequences

  predicate Alnum(c: char) {
    'a' <= c <= 'z' || '0' <= c <= '9'
  }

  // ------------------------------------------------------------------- slugify

  /** What is no letter or digit separates. */
  function Masked(s: string): string {
    if s == "" then "" else Masked(s[..|s| - 1]) + [if Alnum(s[|s| - 1]) then s[|s| - 1] else '_']
  }

  function NonEmpty(parts: seq<string>): seq<string> {
    if parts == [] then []
    else NonEmpty(parts[..|parts| - 1]) + if parts[|parts| - 1] == "" then [] else [parts[|parts| - 1]]
  }

  /** The runs of letters and digits of a string. */
  function Words(s: string): seq<string> {
    NonEmpty(Split(Masked(s), '_'))
  }

  /** The runs, one underscore between each two. */
  function Slug(s: string): string {
    Join(Words(s), '_')
  }

  lemma {:induction false} SplitOne(c: char)
    ensures Split([c], '_') == if c == '_' then ["", ""] else [[c]]
  {
    assert [c][1..] == "";
    assert Split("", '_') == [""];
    assert [c] + "" == [c];
  }

  /** The parts of a string, from those of its tail. */
  function Prepended(first: char, rest: seq<string>): seq<string>
    requires rest != []
  {
    if first == '_' then [""] + rest else [[first] + rest[0]] + rest[1..]
  }

  lemma {:induction false} SplitCons(first: char, tail: string)
    ensures Split([first] + tail, '_') == Prepended(first, Split(tail, '_'))
  {
    assert ([first] + tail)[1..] == tail;
  }

  lemma {:induction false} SplitSnoc(s: string, c: char)
    ensures Split(s + [c], '_') == Followed(Split(s, '_'), c)
  {
    if s == "" {
      SplitOne(c);
      assert "" + [c] == [c];
      assert [""][..0] == [];
    } else {
      var first, tail := s[0], s[1..];
      SplitCons(first, tail);
      SplitCons(first, tail + [c]);
      hide Split;
      SplitSnoc(tail, c);
      assert s == [first] + tail && s + [c] == [first] + (tail + [c]);
      PartsSnoc(first, Split(tail, '_'), c);
    }
  }

  /** The parts once one more character follows. */
  function Followed(parts: seq<string>, c: char): seq<string>
    requires parts != []
  {
    if c == '_' then parts + [""] else parts[..|parts| - 1] + [parts[|parts| - 1] + [c]]
  }

  lemma {:induction false} PartsSnoc(first: char, rest: seq<string>, c: char)
    requires rest != []
    ensures Prepended(first, Followed(rest, c)) == Followed(Prepended(first, rest), c)
  {
    if first != '_' && c != '_' && |rest| == 1 {
      assert [first] + (rest[0] + [c]) == ([first] + rest[0]) + [c];
    }
  }

  lemma {:induction false} NonEmptySnoc(parts: seq<string>, last: string)
    ensures NonEmpty(parts + [last]) == NonEmpty(parts) + if last == "" then [] else [last]
  {
    assert (parts + [last])[..|parts|] == parts;
  }

  /** One more character of s: a letter or digit goes on the run it follows or
      begins the next, anything else adds nothing. */
  lemma {:induction false} SlugSnoc(s: string, c: char)
    ensures !Alnum(c) ==> Slug(s + [c]) == Slug(s) && Ended(s + [c])
    ensures Alnum(c) ==> Slug(s + [c]) == Slug(s) + (if Ended(s) && Slug(s) != "" then "_" else "") + [c]
    ensures Alnum(c) ==> !Ended(s + [c])
  {
    var parts := Split(Masked(s), '_');
    assert (s + [c])[..|s|] == s;
    MaskedIsPlain(c);
    SplitSnoc(Masked(s), if Alnum(c) then c else '_');
    PartsJoin(parts, c);
    hide Masked, Split, NonEmpty, Join, Alnum;
  }

  lemma {:induction false} PartsJoin(parts: seq<string>, c: char)
    requires parts != []
    ensures Join(NonEmpty(parts + [""]), '_') == Join(NonEmpty(parts), '_')
    ensures var last, slug := parts[|parts| - 1], Join(NonEmpty(parts), '_');
      Join(NonEmpty(parts[..|parts| - 1] + [last + [c]]), '_') ==
      slug + (if last == "" && slug != "" then "_" else "") + [c]
  {
    var front, last := parts[..|parts| - 1], parts[|parts| - 1];
    var words := NonEmpty(front);
    assert parts == front + [last];
    NonEmptySnoc(parts, "");
    NonEmptySnoc(front, last);
    NonEmptySnoc(front, last + [c]);
    NonEmptyFrom(front);
    hide NonEmpty;
    assert NonEmpty(parts) + [] == NonEmpty(parts) && words + [] == words;
    WordsJoin(words, last, c);
    if words != [] {
      NonEmptyJoin(words);
    }
    hide Join;
  }

  lemma {:induction false} MaskedIsPlain(c: char)
    ensures Alnum(c) ==> c != '_'
  {
  }

  lemma {:induction false} WordsJoin(words: seq<string>, last: string, c: char)
    ensures Join(words + [last + [c]], '_') ==
            (if last != "" then Join(words + [last], '_') else Join(words, '_') + if words == [] then "" else "_") + [c]
  {
    JoinSnoc(words, last + [c], '_');
    JoinSnoc(words, last, '_');
    assert "" + [c] == [c];
  }

  lemma {:induction false} NonEmptyJoin(words: seq<string>)
    requires words != []
    requires forall w :: w in words ==> w != ""
    ensures Join(words, '_') != ""
  {
    assert words[0] in words;
  }

  /** The run at the end of s, if any, is over: s is empty there. */
  ghost predicate Ended(s: string) {
    var parts := Split(Masked(s), '_');
    parts[|parts| - 1] == ""
  }

  /** German umlauts are spelled without them. */
  function Transliterated(s: string): string {
    if s == "" then "" else Transliterated(s[..|s| - 1]) + Spelled(s[|s| - 1])
  }

  function Spelled(c: char): string {
    match c
    case '\U{00E4}' => "a"
    case '\U{00F6}' => "o"
    case '\U{00FC}' => "u"
    case '\U{00DF}' => "ss"
    case _ => [c]
  }

  function Lowered(s: string, lower: char -> char): string {
    seq(|s|, i requires 0 <= i < |s| => lower(s[i]))
  }

  function Slugified(s: string, lower: char -> char): string {
    Slug(Transliterated(Lowered(s, lower)))
  }

  /** slugify: the loop with its pending separator. */
  method Slugify(s: string, lower: char -> char) returns (b: string)
    ensures b == Slugified(s, lower)
  {
    var t := Transliterated(Lowered(s, lower));
    assert Slugified(s, lower) == Slug(t) && t[..0] == "" && t[..|t|] == t;
    SlugOfNothing();
    b := "";
    var pendingSep := false;
    assert Spelling(t, 0, b, pendingSep);
    hide Slug, Alnum, Transliterated, Lowered, Slugified, Spelling;
    for i := 0 to |t|
      invariant Spelling(t, i, b, pendingSep)
    {
      SpellingOneMore(t, i, b, pendingSep);
      if Alnum(t[i]) {
        if pendingSep && |b| > 0 {
          b := b + "_";
        }
        pendingSep := false;
        b := b + [t[i]];
      } else {
        pendingSep := true;
      }
    }
    assert b == Slug(t[..|t|]) by { SpellingIsSlug(t, |t|, b, pendingSep); }
  }

  /** The first i characters are done; a separator may be pending. */
  ghost predicate Spelling(t: string, i: nat, b: string, pendingSep: bool)
    requires i <= |t|
  {
    b == Slug(t[..i]) && (b != "" ==> (pendingSep <==> Ended(t[..i])))
  }

  lemma {:induction false} SpellingIsSlug(t: string, i: nat, b: string, pendingSep: bool)
    requires i <= |t| && Spelling(t, i, b, pendingSep)
    ensures b == Slug(t[..i])
  {
    hide Slug, Ended;
  }

  lemma {:induction false} SpellingOneMore(t: string, i: nat, b: string, pendingSep: bool)
    requires i < |t| && Spelling(t, i, b, pendingSep)
    ensures Alnum(t[i]) ==> Spelling(t, i + 1, (if pendingSep && |b| > 0 then b + "_" else b) + [t[i]], false)
    ensures !Alnum(t[i]) ==> Spelling(t, i + 1, b, true)
  {
    assert t[..i + 1] == t[..i] + [t[i]] && b + "" == b;
    SlugSnoc(t[..i], t[i]);
    hide Slug, Ended, Alnum;
  }

  lemma {:induction false} SlugOfNothing()
    ensures Slug("") == ""
  {
    assert Split("", '_') == [""];
    assert [""][..0] == [];
    assert NonEmpty([""]) == NonEmpty([]) + [];
  }

  // ------------------------------------------------------------- collapseTokens

  /** Tokens without empty ones and without immediate repetitions. */
  function Collapsed(tokens: seq<string>): seq<string> {
    if tokens == [] then []
    else
      var out, last := Collapsed(tokens[..|tokens| - 1]), tokens[|tokens| - 1];
      if last == "" || (|out| > 0 && out[|out| - 1] == last) then out else out + [last]
  }

  lemma {:induction false} CollapsedSnoc(tokens: seq<string>, last: string)
    ensures var out := Collapsed(tokens);
      Collapsed(tokens + [last]) ==
      if last == "" || (|out| > 0 && out[|out| - 1] == last) then out else out + [last]
  {
    assert (tokens + [last])[..|tokens|] == tokens;
  }

  /** collapseTokens: the kept tokens are written over the front of the array they
      are read from; none that is still to be read is overwritten. */
  method CollapseTokens(s: string) returns (r: string)
    ensures r == Join(Collapsed(Split(s, '_')), '_')
  {
    var tokens := Split(s, '_');
    var parts := new string[|tokens|](i requires 0 <= i < |tokens| => tokens[i]);
    var n := Compact(parts, tokens);
    r := Join(parts[..n], '_');
  }

  /** The compaction, on an array that holds tokens. */
  method Compact(parts: array<string>, ghost tokens: seq<string>) returns (n: nat)
    requires parts[..] == tokens
    modifies parts
    ensures n <= parts.Length && parts[..n] == Collapsed(tokens)
  {
    n := 0;
    ghost var out: seq<string> := [];
    for i := 0 to parts.Length
      invariant n <= i && parts[..n] == out
      invariant out == Collapsed(tokens[..i])
      invariant forall k :: i <= k < parts.Length ==> parts[k] == tokens[k]
    {
      var p := parts[i];
      CollapsedSnoc(tokens[..i], p);
      assert tokens[..i + 1] == tokens[..i] + [p];
      hide Collapsed;
      if p == "" || (n > 0 && parts[n - 1] == p) {
        continue;
      }
      parts[n] := p;
      n := n + 1;
      out := out + [p];
    }
    assert tokens[..|tokens|] == tokens;
  }

  /** EntityObjectID. */
  function EntityObjectId(deviceName: string, topic: string, lower: char -> char): string {
    Join(Collapsed(Split(Slugified(deviceName + "_" + topic, lower), '_')), '_')
  }

  // -------------------------------------------------------------- what comes out

  ghost predicate Word(w: string) {
    w != "" && forall i :: 0 <= i < |w| ==> Alnum(w[i])
  }

  ghost predicate AllWords(tokens: seq<string>) {
    forall t :: t in tokens ==> Word(t)
  }

  ghost predicate NoRepeats(tokens: seq<string>) {
    forall i :: 0 < i < |tokens| ==> tokens[i - 1] != tokens[i]
  }

  lemma {:induction false} CollapsedLaws(tokens: seq<string>)
    ensures var out := Collapsed(tokens);
      && (forall t :: t in out ==> t in tokens && t != "")
      && NoRepeats(out)
      && (forall t :: t in tokens && t != "" ==> t in out)
      && (tokens != [] && tokens[|tokens| - 1] != "" ==> out != [] && out[|out| - 1] == tokens[|tokens| - 1])
  {
    if tokens != [] {
      var front, last := tokens[..|tokens| - 1], tokens[|tokens| - 1];
      var out, before := Collapsed(tokens), Collapsed(front);
      assert out == if last == "" || (|before| > 0 && before[|before| - 1] == last) then before else before + [last];
      CollapsedLaws(front);
      hide Collapsed;
      assert tokens == front + [last];
    }
  }

  /** Without empty tokens and repetitions there is nothing to drop. */
  lemma {:induction false} CollapsedFixes(tokens: seq<string>)
    requires NoRepeats(tokens) && "" !in tokens
    ensures Collapsed(tokens) == tokens
  {
    if tokens != [] {
      var front := tokens[..|tokens| - 1];
      forall i | 0 < i < |front| ensures front[i - 1] != front[i] {
        assert tokens[i - 1] != tokens[i];
      }
      CollapsedFixes(front);
      assert tokens[|tokens| - 1] in tokens;
      assert tokens == front + [tokens[|tokens| - 1]];
    }
  }

  ghost predicate AlnumOr_(s: string) {
    forall i :: 0 <= i < |s| ==> Alnum(s[i]) || s[i] == '_'
  }

  lemma {:induction false} MaskedForm(s: string)
    ensures AlnumOr_(Masked(s))
    ensures AlnumOr_(s) ==> Masked(s) == s
  {
    if s != "" {
      MaskedForm(s[..|s| - 1]);
      assert s == s[..|s| - 1] + [s[|s| - 1]];
    }
  }

  lemma {:induction false} NonEmptyFrom(parts: seq<string>)
    ensures forall w :: w in NonEmpty(parts) ==> w in parts && w != ""
    ensures "" !in parts ==> NonEmpty(parts) == parts
  {
    if parts != [] {
      NonEmptyFrom(parts[..|parts| - 1]);
      assert parts == parts[..|parts| - 1] + [parts[|parts| - 1]];
    }
  }

  /** Every part of such a string is made of letters and digits. */
  lemma {:induction false} PartsOfSplit(s: string)
    requires AlnumOr_(s)
    ensures forall w :: w in Split(s, '_') ==> w == "" || Word(w)
  {
    if s == "" {
    } else {
      assert AlnumOr_(s[1..]);
      PartsOfSplit(s[1..]);
      var rest := Split(s[1..], '_');
      assert rest[0] in rest;
      assert forall w :: w in rest[1..] ==> w in rest;
    }
  }

  lemma {:induction false} WordsAreWords(s: string)
    ensures AllWords(Words(s))
  {
    MaskedForm(s);
    PartsOfSplit(Masked(s));
    NonEmptyFrom(Split(Masked(s), '_'));
  }

  lemma {:induction false} WordsFree(tokens: seq<string>)
    requires AllWords(tokens)
    ensures AllFree(tokens, '_') && "" !in tokens
  {
  }

  lemma {:induction false} JoinedForm(tokens: seq<string>)
    requires AllWords(tokens)
    ensures AlnumOr_(Join(tokens, '_'))
  {
    if |tokens| > 0 {
      assert Word(tokens[0]);
      if |tokens| > 1 {
        assert AllWords(tokens[1..]);
        JoinedForm(tokens[1..]);
      }
    }
  }

  /** Joined words are split into themselves; no words, into one empty part. */
  lemma {:induction false} SplitJoined(tokens: seq<string>)
    requires AllWords(tokens)
    ensures Split(Join(tokens, '_'), '_') == if tokens == [] then [""] else tokens
  {
    WordsFree(tokens);
    if tokens != [] { SplitOfJoin(tokens, '_'); }
  }

  /** A lower-casing that leaves lower-case letters, digits and the underscore be. */
  ghost predicate Fixes(lower: char -> char) {
    forall c :: Alnum(c) || c == '_' ==> lower(c) == c
  }

  lemma {:induction false} PlainTextStays(s: string, lower: char -> char)
    requires Fixes(lower) && AlnumOr_(s)
    ensures Transliterated(Lowered(s, lower)) == s
  {
    assert Lowered(s, lower) == s;
    TransliteratedStays(s);
  }

  lemma {:induction false} TransliteratedStays(s: string)
    requires AlnumOr_(s)
    ensures Transliterated(s) == s
  {
    if s != "" {
      var front, last := s[..|s| - 1], s[|s| - 1];
      assert Transliterated(s) == Transliterated(front) + Spelled(last);
      assert Alnum(last) || last == '_';
      assert Spelled(last) == [last];
      assert s == front + [last];
      assert AlnumOr_(front);
      hide Spelled;
      TransliteratedStays(front);
    }
  }

  /** The tokens of the seed. */
  function Tokens(deviceName: string, topic: string, lower: char -> char): seq<string> {
    Collapsed(Words(Transliterated(Lowered(deviceName + "_" + topic, lower))))
  }

  /** The seed is words of letters and digits with one underscore between each
      two, no word twice in a row; both steps leave it as it is. */
  lemma {:induction false} ObjectIdCanonical(deviceName: string, topic: string, lower: char -> char)
    requires Fixes(lower)
    ensures var id, tokens := EntityObjectId(deviceName, topic, lower), Tokens(deviceName, topic, lower);
      && AllWords(tokens) && NoRepeats(tokens)
      && id == Join(tokens, '_')
      && Slugified(id, lower) == id
      && Join(Collapsed(Split(id, '_')), '_') == id
  {
    var text := Transliterated(Lowered(deviceName + "_" + topic, lower));
    var words := Words(text);
    WordsAreWords(text);
    SplitJoined(words);
    CollapsedLaws(words);
    var tokens := Collapsed(words);
    assert Collapsed([""]) == [] by { assert [""][..0] == []; }
    assert EntityObjectId(deviceName, topic, lower) == Join(tokens, '_');
    assert AllWords(tokens);
    hide Transliterated, Lowered, Words, AllWords, NoRepeats, Collapsed, Split, Join;
    CanonicalStays(tokens, lower);
  }

  lemma {:induction false} CanonicalStays(tokens: seq<string>, lower: char -> char)
    requires Fixes(lower) && AllWords(tokens) && NoRepeats(tokens)
    ensures Slugified(Join(tokens, '_'), lower) == Join(tokens, '_')
    ensures Join(Collapsed(Split(Join(tokens, '_'), '_')), '_') == Join(tokens, '_')
  {
    var id := Join(tokens, '_');
    JoinedForm(tokens);
    MaskedForm(id);
    PlainTextStays(id, lower);
    SplitJoined(tokens);
    WordsFree(tokens);
    NonEmptyFrom(tokens);
    CollapsedFixes(tokens);
    assert [""][..0] == [];
    assert NonEmpty([""]) == [] && Collapsed([""]) == [];
  }

  // ------------------------------------------------------------------- spelled out

  lemma {:induction false} AlnumSpelled(c: char)
    ensures Alnum(c) <==> 97 <= c as int <= 122 || 48 <= c as int <= 57
  {
  }

  /** Umlauts become their letter, sharp s two. */
  lemma {:induction false} UmlautsSpelled(s: string, c: char)
    ensures Transliterated("") == ""
    ensures Transliterated(s + [c]) ==
            Transliterated(s) + if c == 'ä' then "a" else if c == 'ö' then "o" else if c == 'ü' then "u"
                                else if c == 'ß' then "ss" else [c]
  {
    assert (s + [c])[..|s|] == s;
  }

  ghost predicate Gap(s: string) {
    forall i :: 0 <= i < |s| ==> !Alnum(s[i])
  }

  /** A string up to a run of letters and digits that something else precedes: its slug, an
      underscore if there is any, the run; what follows it adds nothing. */
  lemma {:induction false} SlugOfRun(s: string, gap: string, run: string, tail: string)
    requires Word(run) && Gap(gap) && Gap(tail) && (s != "" ==> gap != "")
    ensures Slug("") == ""
    ensures Slug(s + gap + run + tail) == Slug(s) + (if Slug(s) == "" then "" else "_") + run
  {
    SlugOfNothing();
    SlugOfGap(s, gap);
    SlugOfWord(s + gap, run);
    SlugOfGap(s + gap + run, tail);
    hide Slug, Ended, Alnum;
    assert s + gap == s || gap != "";
  }

  lemma {:induction false} SlugOfGap(s: string, gap: string)
    requires Gap(gap)
    ensures Slug(s + gap) == Slug(s)
    ensures gap != "" || s == "" ==> Ended(s + gap)
  {
    if gap == "" {
      assert s + gap == s;
      SlugOfNothing();
      assert Split("", '_') == [""];
    } else {
      var front, c := gap[..|gap| - 1], gap[|gap| - 1];
      assert s + gap == s + front + [c];
      assert Gap(front) && !Alnum(c);
      SlugOfGap(s, front);
      SlugSnoc(s + front, c);
      hide Slug, Ended;
    }
  }

  lemma {:induction false} SlugOfWord(s: string, run: string)
    requires Word(run) && Ended(s)
    ensures Slug(s + run) == Slug(s) + (if Slug(s) == "" then "" else "_") + run
    ensures !Ended(s + run)
  {
    var front, c := run[..|run| - 1], run[|run| - 1];
    assert Alnum(c);
    SlugSnoc(s + front, c);
    assert s + run == s + front + [c] && run == front + [c];
    if front == "" {
      assert s + front == s;
    } else {
      assert Word(front) by {
        forall i | 0 <= i < |front| ensures Alnum(front[i]) { assert front[i] == run[i]; }
      }
      SlugOfWord(s, front);
    }
    hide Slug, Ended, Alnum, Word;
  }

  /** The k-th kept token is at i or before it, with no other in between, and the same. */
  ghost predicate StandsFor(tokens: seq<string>, kept: seq<nat>, i: nat, k: nat) {
    && i < |tokens| && k < |kept| && kept[k] <= i && tokens[kept[k]] == tokens[i]
    && (k + 1 < |kept| ==> i < kept[k + 1])
  }

  ghost predicate Stands(tokens: seq<string>, kept: seq<nat>, i: nat) {
    exists k: nat :: StandsFor(tokens, kept, i, k)
  }

  /** The places in kept hold out, and none of it is empty. */
  ghost predicate Hold(tokens: seq<string>, kept: seq<nat>, out: seq<string>) {
    && |kept| == |out|
    && forall k :: 0 <= k < |kept| ==> kept[k] < |tokens| && out[k] == tokens[kept[k]] != ""
  }

  ghost predicate Increasing(kept: seq<nat>) {
    forall k :: 0 < k < |kept| ==> kept[k - 1] < kept[k]
  }

  ghost predicate AllStand(tokens: seq<string>, kept: seq<nat>) {
    forall i: nat :: i < |tokens| && tokens[i] != "" ==> Stands(tokens, kept, i)
  }

  /** Which tokens are kept: kept holds their places, in order. None is empty or the same
      as the one before it, and whatever else stands behind a kept one, up to the next, is
      empty or the same. */
  ghost predicate KeptAt(tokens: seq<string>, kept: seq<nat>) {
    && Hold(tokens, kept, Collapsed(tokens)) && Increasing(kept)
    && NoRepeats(Collapsed(tokens))
    && AllStand(tokens, kept)
  }

  lemma {:induction false} CollapsedKeeps(tokens: seq<string>) returns (kept: seq<nat>)
    ensures KeptAt(tokens, kept)
  {
    if tokens == [] {
      kept := [];
    } else {
      var n := |tokens| - 1;
      var before := CollapsedKeeps(tokens[..n]);
      hide KeptAt;
      kept := KeptWithMore(tokens[..n], tokens[n], before);
      assert tokens == tokens[..n] + [tokens[n]];
    }
  }

  lemma {:induction false} KeptWithMore(front: seq<string>, last: string, before: seq<nat>) returns (kept: seq<nat>)
    requires KeptAt(front, before)
    ensures KeptAt(front + [last], kept)
  {
    var out := Collapsed(front);
    CollapsedSnoc(front, last);
    NoRepeatsCollapsed(front + [last]);
    hide Collapsed, NoRepeats, Increasing, AllStand, Stands, Hold;
    HoldWithMore(front, last, before, out);
    AllStandWithMore(front, last, before, out);
    if last == "" || (|out| > 0 && out[|out| - 1] == last) {
      kept := before;
    } else {
      IncreasingWithMore(front, before, out);
      kept := before + [|front|];
    }
  }

  lemma {:induction false} NoRepeatsCollapsed(tokens: seq<string>)
    ensures NoRepeats(Collapsed(tokens))
  {
    CollapsedLaws(tokens);
  }

  lemma {:induction false} HoldWithMore(front: seq<string>, last: string, before: seq<nat>, out: seq<string>)
    requires Hold(front, before, out)
    ensures Hold(front + [last], before, out)
    ensures last != "" ==> Hold(front + [last], before + [|front|], out + [last])
  {
  }

  lemma {:induction false} IncreasingWithMore(front: seq<string>, before: seq<nat>, out: seq<string>)
    requires Hold(front, before, out) && Increasing(before)
    ensures Increasing(before + [|front|])
  {
  }

  lemma {:induction false} AllStandWithMore(front: seq<string>, last: string, before: seq<nat>, out: seq<string>)
    requires Hold(front, before, out) && AllStand(front, before)
    ensures last == "" || (out != [] && out[|out| - 1] == last) ==> AllStand(front + [last], before)
    ensures AllStand(front + [last], before + [|front|])
  {
    var tokens, kept := front + [last], before + [|front|];
    hide Stands;
    LastStands(tokens, kept);
    if out != [] && out[|out| - 1] == last {
      LastStands(tokens, before);
    }
    forall i: nat | i < |front| && tokens[i] != "" ensures Stands(tokens, before, i) && Stands(tokens, kept, i) {
      assert Stands(front, before, i);
      StandsWithMore(front, last, before, i);
    }
  }

  lemma {:induction false} LastStands(tokens: seq<string>, kept: seq<nat>)
    requires kept != [] && kept[|kept| - 1] < |tokens| && tokens[kept[|kept| - 1]] == tokens[|tokens| - 1]
    ensures Stands(tokens, kept, |tokens| - 1)
  {
    assert StandsFor(tokens, kept, |tokens| - 1, |kept| - 1);
  }

  lemma {:induction false} StandsWithMore(front: seq<string>, last: string, before: seq<nat>, i: nat)
    requires Stands(front, before, i) && forall k :: 0 <= k < |before| ==> before[k] < |front|
    ensures Stands(front + [last], before + [|front|], i)
    ensures Stands(front + [last], before, i)
  {
    var tokens, kept := front + [last], before + [|front|];
    var k: nat :| StandsFor(front, before, i, k);
    assert kept[k] == before[k] && tokens[kept[k]] == front[before[k]] && tokens[i] == front[i];
    assert k + 1 < |before| ==> kept[k + 1] == before[k + 1];
    assert StandsFor(tokens, kept, i, k);
    assert StandsFor(tokens, before, i, k);
  }

  /** The seed of two seeds: the words of the device's name, then those of the topic. */
  lemma {:induction false} DeviceThenTopic(device: seq<string>, topic: seq<string>, lower: char -> char)
    requires Fixes(lower) && AllWords(device) && AllWords(topic) && NoRepeats(device + topic)
    requires device != [] && topic != []
    ensures EntityObjectId(Join(device, '_'), Join(topic, '_'), lower) == Join(device + topic, '_')
  {
    var name := Join(device, '_') + "_" + Join(topic, '_');
    JoinedTogether(device, topic);
    assert AllWords(device + topic);
    hide Join, Collapsed, Split, AllWords, NoRepeats;
    CanonicalStays(device + topic, lower);
  }

  lemma {:induction false} JoinedTogether(a: seq<string>, b: seq<string>)
    requires a != [] && b != []
    ensures Join(a, '_') + "_" + Join(b, '_') == Join(a + b, '_')
  {
    if |a| == 1 {
      assert (a + b)[1..] == b;
    } else {
      assert (a + b)[1..] == a[1..] + b;
      JoinedTogether(a[1..], b);
    }
  }

  /** Upper and lower case give one slug. */
  lemma {:induction false} CaseDoesNotMatter(s: string, t: string, lower: char -> char)
    requires |s| == |t| && forall i :: 0 <= i < |s| ==> lower(s[i]) == lower(t[i])
    ensures Slugified(s, lower) == Slugified(t, lower)
  {
    assert Lowered(s, lower) == Lowered(t, lower);
  }
}
