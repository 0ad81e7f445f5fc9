/** The property catalog (internal/catalog): what Load accepts, the two indexes,
    and the tokens of an enumerated property. */
module Catalog {
  import opened Sequences

  datatype Entry = Entry(
    property: string, topic: string, group: string, platform: string,
    writable: bool, scale: real, offset: real, min: Option<real>, max: Option<real>,
    valueMap: map<string, string>, valueMapDe: map<string, string>)

  function TopicLeaf(e: Entry): string {
    if e.topic != "" then e.topic else e.property
  }

  datatype Catalog = Catalog(entries: seq<Entry>, byProp: map<string, Entry>, byTopic: map<string, Entry>)

  datatype Fault =
    | NoProperty(at: nat)
    | BadPlatform(at: nat)
    | SharedProperty(first: nat, at: nat)
    | SharedLeaf(first: nat, at: nat)

  datatype Loaded = Accepted(catalog: Catalog) | Refused(fault: Fault)

  predicate ValidPlatform(p: string) {
    p in ["", "sensor", "binary_sensor", "number", "select", "switch"]
  }

  ghost predicate DistinctBy(entries: seq<Entry>, key: Entry -> string) {
    forall i, j :: 0 <= i < j < |entries| ==> key(entries[i]) != key(entries[j])
  }

  function Property(e: Entry): string { e.property }

  ghost predicate WellFormed(e: Entry) {
    e.property != "" && ValidPlatform(e.platform)
  }

  /** What a catalog has to be: complete entries, no two of one property or of one
      topic leaf. */
  ghost predicate Sound(entries: seq<Entry>) {
    && (forall i :: 0 <= i < |entries| ==> WellFormed(entries[i]))
    && DistinctBy(entries, Property)
    && DistinctBy(entries, TopicLeaf)
  }

  /** The fault is there, and nothing before it is at fault. */
  ghost predicate FirstFault(entries: seq<Entry>, f: Fault) {
    && f.at < |entries|
    && Sound(entries[..f.at])
    && var e := entries[f.at];
       match f
       case NoProperty(_) => e.property == ""
       case BadPlatform(_) => e.property != "" && !ValidPlatform(e.platform)
       case SharedProperty(j, i) => WellFormed(e) && j < i && entries[j].property == e.property
       case SharedLeaf(j, i) =>
         && WellFormed(e) && j < i && TopicLeaf(entries[j]) == TopicLeaf(e)
         && forall k :: 0 <= k < i ==> entries[k].property != e.property
  }

  /** A later entry of a key replaces an earlier one. */
  function IndexBy(entries: seq<Entry>, key: Entry -> string): map<string, Entry> {
    if entries == [] then map[]
    else
      var last := entries[|entries| - 1];
      IndexBy(entries[..|entries| - 1], key)[key(last) := last]
  }

  function Indexed(entries: seq<Entry>): Catalog {
    Catalog(entries, IndexBy(entries, Property), IndexBy(entries, TopicLeaf))
  }

  method NewCatalog(entries: seq<Entry>) returns (c: Catalog)
    ensures c == Indexed(entries)
  {
    var byProp, byTopic := map[], map[];
    for i := 0 to |entries|
      invariant byProp == IndexBy(entries[..i], Property)
      invariant byTopic == IndexBy(entries[..i], TopicLeaf)
    {
      assert entries[..i + 1][..i] == entries[..i];
      byProp := byProp[entries[i].property := entries[i]];
      byTopic := byTopic[TopicLeaf(entries[i]) := entries[i]];
    }
    assert entries[..|entries|] == entries;
    c := Catalog(entries, byProp, byTopic);
  }

  /** The map says which of the first i entries has a key. */
  ghost predicate Seen(entries: seq<Entry>, i: nat, key: Entry -> string, seen: map<string, nat>)
    requires i <= |entries|
  {
    && (forall p :: p in seen ==> seen[p] < i && key(entries[seen[p]]) == p)
    && (forall k :: 0 <= k < i ==> key(entries[k]) in seen)
  }

  /** The checks of one entry, in their order. */
  function FaultAt(e: Entry, i: nat, seenProp: map<string, nat>, seenLeaf: map<string, nat>): Option<Fault> {
    if e.property == "" then Some(NoProperty(i))
    else if !ValidPlatform(e.platform) then Some(BadPlatform(i))
    else if e.property in seenProp then Some(SharedProperty(seenProp[e.property], i))
    else if TopicLeaf(e) in seenLeaf then Some(SharedLeaf(seenLeaf[TopicLeaf(e)], i))
    else None
  }

  /** Load, after the YAML is decoded: exactly the sound catalogs are accepted, and
      the first fault is the one reported. */
  method Load(entries: seq<Entry>) returns (r: Loaded)
    ensures r.Accepted? <==> Sound(entries)
    ensures r.Accepted? ==> r.catalog == Indexed(entries)
    ensures r.Refused? ==> FirstFault(entries, r.fault)
  {
    var seenProp: map<string, nat>, seenLeaf: map<string, nat> := map[], map[];
    assert Sound(entries[..0]) && entries[..|entries|] == entries;
    for i := 0 to |entries|
      invariant Sound(entries[..i])
      invariant Seen(entries, i, Property, seenProp) && Seen(entries, i, TopicLeaf, seenLeaf)
    {
      var e := entries[i];
      var fault := FaultAt(e, i, seenProp, seenLeaf);
      hide Sound, Seen, FirstFault, FaultAt;
      if fault.Some? {
        EntryAtFault(entries, i, seenProp, seenLeaf);
        return Refused(fault.value);
      }
      EntryPasses(entries, i, seenProp, seenLeaf);
      seenProp := seenProp[e.property := i];
      seenLeaf := seenLeaf[TopicLeaf(e) := i];
    }
    hide Sound, Seen;
    var c := NewCatalog(entries);
    return Accepted(c);
  }

  lemma {:induction false} EntryAtFault(
      entries: seq<Entry>, i: nat, seenProp: map<string, nat>, seenLeaf: map<string, nat>)
    requires i < |entries| && Sound(entries[..i])
    requires Seen(entries, i, Property, seenProp) && Seen(entries, i, TopicLeaf, seenLeaf)
    requires FaultAt(entries[i], i, seenProp, seenLeaf).Some?
    ensures FirstFault(entries, FaultAt(entries[i], i, seenProp, seenLeaf).value) && !Sound(entries)
  {
    var e, f := entries[i], FaultAt(entries[i], i, seenProp, seenLeaf).value;
    KeyChecked(entries, i, Property, seenProp);
    KeyChecked(entries, i, TopicLeaf, seenLeaf);
    hide Sound, ValidPlatform, Seen;
    hide FirstFault;
    match f
    case SharedProperty(j, _) => PropertyShared(entries, j, i);
    case SharedLeaf(j, _) => LeafShared(entries, j, i);
    case _ => Incomplete(entries, i);
  }

  lemma {:induction false} PropertyShared(entries: seq<Entry>, j: nat, i: nat)
    requires j < i < |entries| && Sound(entries[..i]) && WellFormed(entries[i])
    requires Property(entries[j]) == Property(entries[i])
    ensures FirstFault(entries, SharedProperty(j, i)) && !Sound(entries)
  {
    hide ValidPlatform;
  }

  lemma {:induction false} LeafShared(entries: seq<Entry>, j: nat, i: nat)
    requires j < i < |entries| && Sound(entries[..i]) && WellFormed(entries[i])
    requires TopicLeaf(entries[j]) == TopicLeaf(entries[i])
    requires forall k :: 0 <= k < i ==> Property(entries[k]) != Property(entries[i])
    ensures FirstFault(entries, SharedLeaf(j, i)) && !Sound(entries)
  {
    hide ValidPlatform;
  }

  lemma {:induction false} Incomplete(entries: seq<Entry>, i: nat)
    requires i < |entries| && Sound(entries[..i]) && !WellFormed(entries[i])
    ensures FirstFault(entries, if entries[i].property == "" then NoProperty(i) else BadPlatform(i)) && !Sound(entries)
  {
    hide ValidPlatform;
  }

  lemma {:induction false} EntryPasses(
      entries: seq<Entry>, i: nat, seenProp: map<string, nat>, seenLeaf: map<string, nat>)
    requires i < |entries| && Sound(entries[..i])
    requires Seen(entries, i, Property, seenProp) && Seen(entries, i, TopicLeaf, seenLeaf)
    requires FaultAt(entries[i], i, seenProp, seenLeaf) == None
    ensures Sound(entries[..i + 1])
    ensures Seen(entries, i + 1, Property, seenProp[entries[i].property := i])
    ensures Seen(entries, i + 1, TopicLeaf, seenLeaf[TopicLeaf(entries[i]) := i])
  {
    KeyChecked(entries, i, Property, seenProp);
    KeyChecked(entries, i, TopicLeaf, seenLeaf);
    hide Sound, ValidPlatform, Seen, TopicLeaf;
    OneMoreEntry(entries, i);
  }

  lemma {:induction false} KeyChecked(entries: seq<Entry>, i: nat, key: Entry -> string, seen: map<string, nat>)
    requires i < |entries| && Seen(entries, i, key, seen)
    ensures var k := key(entries[i]);
      && (k in seen ==> seen[k] < i && key(entries[seen[k]]) == k)
      && (k !in seen ==> forall j :: 0 <= j < i ==> key(entries[j]) != k)
      && (k !in seen ==> Seen(entries, i + 1, key, seen[k := i]))
  {
  }

  lemma {:induction false} OneMoreEntry(entries: seq<Entry>, i: nat)
    requires i < |entries| && Sound(entries[..i]) && WellFormed(entries[i])
    requires forall k :: 0 <= k < i ==>
      entries[k].property != entries[i].property && TopicLeaf(entries[k]) != TopicLeaf(entries[i])
    ensures Sound(entries[..i + 1])
  {
    var front, more := entries[..i], entries[..i + 1];
    assert forall k :: 0 <= k < i ==> more[k] == front[k];
  }

  // ------------------------------------------------------------------ the indexes

  lemma {:induction false} IndexHolds(entries: seq<Entry>, key: Entry -> string)
    ensures var index := IndexBy(entries, key);
      && (forall i :: 0 <= i < |entries| ==> key(entries[i]) in index)
      && (forall k :: k in index ==> index[k] in entries && key(index[k]) == k)
  {
    if entries != [] {
      IndexHolds(entries[..|entries| - 1], key);
    }
  }

  /** Every entry is found under its key exactly when no two different ones share it. */
  lemma {:induction false} FoundIffUnshared(entries: seq<Entry>, key: Entry -> string)
    ensures (forall i :: 0 <= i < |entries| ==> Lookup(IndexBy(entries, key), key(entries[i])) == Some(entries[i]))
            <==> (forall i, j :: 0 <= i < |entries| && 0 <= j < |entries| && key(entries[i]) == key(entries[j])
                   ==> entries[i] == entries[j])
  {
    IndexHolds(entries, key);
  }

  /** In an accepted catalog a property's leaf leads back to it, and only to it. */
  lemma {:induction false} LeafLeadsBack(entries: seq<Entry>, property: string)
    requires Sound(entries) && property in Indexed(entries).byProp
    ensures var c := Indexed(entries); var e := c.byProp[property];
      && e.property == property
      && Lookup(c.byTopic, TopicLeaf(e)) == Some(e)
      && forall other :: other in c.byProp && TopicLeaf(c.byProp[other]) == TopicLeaf(e) ==> other == property
  {
    IndexHolds(entries, Property);
    IndexHolds(entries, TopicLeaf);
    var c := Indexed(entries);
    var e := c.byProp[property];
    hide IndexBy, WellFormed;
    assert e in entries;
    SameKeySameEntry(entries, TopicLeaf, e, c.byTopic[TopicLeaf(e)]);
    forall other | other in c.byProp && TopicLeaf(c.byProp[other]) == TopicLeaf(e) ensures other == property {
      SameKeySameEntry(entries, TopicLeaf, e, c.byProp[other]);
    }
  }

  lemma {:induction false} SameKeySameEntry(entries: seq<Entry>, key: Entry -> string, e: Entry, f: Entry)
    requires DistinctBy(entries, key) && e in entries && f in entries && key(e) == key(f)
    ensures e == f
  {
    var i :| 0 <= i < |entries| && entries[i] == e;
    var j :| 0 <= j < |entries| && entries[j] == f;
    assert i == j;
  }

  // ----------------------------------------------------------------------- tokens

  function Folded(s: string, fold: char -> char): string {
    seq(|s|, i requires 0 <= i < |s| => fold(s[i]))
  }

  /** The codes of an entry, in some order without repetition. */
  ghost predicate Lists(codes: seq<string>, valueMap: map<string, string>) {
    NoDuplicates(codes) && forall c :: c in codes <==> c in valueMap
  }

  /** The first code of the list with that token, ignoring case. */
  ghost function FirstCode(
      valueMap: map<string, string>, codes: seq<string>, token: string, fold: char -> char): Option<string>
  {
    if codes == [] then None
    else if codes[0] in valueMap && Folded(valueMap[codes[0]], fold) == Folded(token, fold) then Some(codes[0])
    else FirstCode(valueMap, codes[1..], token, fold)
  }

  method CodeForToken(valueMap: map<string, string>, codes: seq<string>, token: string, fold: char -> char)
    returns (r: Option<string>)
    requires forall c :: c in codes ==> c in valueMap
    ensures r == FirstCode(valueMap, codes, token, fold)
  {
    for i := 0 to |codes|
      invariant FirstCode(valueMap, codes, token, fold) == FirstCode(valueMap, codes[i..], token, fold)
    {
      if Folded(valueMap[codes[i]], fold) == Folded(token, fold) {
        return Some(codes[i]);
      }
      assert codes[i..][1..] == codes[i + 1..];
    }
    return None;
  }

  lemma {:induction false} FirstCodeFound(
      valueMap: map<string, string>, codes: seq<string>, token: string, fold: char -> char)
    ensures match FirstCode(valueMap, codes, token, fold)
      case Some(c) => c in codes && c in valueMap && Folded(valueMap[c], fold) == Folded(token, fold)
      case None => forall c :: c in codes && c in valueMap ==> Folded(valueMap[c], fold) != Folded(token, fold)
  {
    if codes != [] {
      FirstCodeFound(valueMap, codes[1..], token, fold);
    }
  }

  ghost predicate TokensDiffer(valueMap: map<string, string>, fold: char -> char) {
    forall c, d :: c in valueMap && d in valueMap && Folded(valueMap[c], fold) == Folded(valueMap[d], fold) ==> c == d
  }

  /** Whatever the order of the codes, each code's token leads back to the code
      exactly when no two tokens are the same ignoring case. */
  lemma {:induction false} TokensLeadBackIffDifferent(
      valueMap: map<string, string>, codes: seq<string>, fold: char -> char)
    requires Lists(codes, valueMap)
    ensures (forall c :: c in valueMap ==> FirstCode(valueMap, codes, valueMap[c], fold) == Some(c))
            <==> TokensDiffer(valueMap, fold)
  {
    forall c | c in valueMap
      ensures var r := FirstCode(valueMap, codes, valueMap[c], fold);
        r.Some? && r.value in valueMap && Folded(valueMap[r.value], fold) == Folded(valueMap[c], fold)
    {
      FirstCodeFound(valueMap, codes, valueMap[c], fold);
    }
    forall c, d | c in valueMap && d in valueMap && Folded(valueMap[c], fold) == Folded(valueMap[d], fold)
      ensures FirstCode(valueMap, codes, valueMap[c], fold) == FirstCode(valueMap, codes, valueMap[d], fold)
    {
      SameFoldSameCode(valueMap, codes, valueMap[c], valueMap[d], fold);
    }
  }

  lemma {:induction false} SameFoldSameCode(
      valueMap: map<string, string>, codes: seq<string>, s: string, t: string, fold: char -> char)
    requires Folded(s, fold) == Folded(t, fold)
    ensures FirstCode(valueMap, codes, s, fold) == FirstCode(valueMap, codes, t, fold)
  {
    if codes != [] {
      SameFoldSameCode(valueMap, codes[1..], s, t, fold);
    }
  }
}
