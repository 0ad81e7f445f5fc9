/** What several parts of the daemon lean on: an optional value, splitting a
    sequence at a separator and joining it again, and the pigeonhole principle. */
module Sequences {

  datatype Option<+T> = None | Some(value: T)

  function Lookup<V>(m: map<string, V>, key: string): Option<V> {
    if key in m then Some(m[key]) else None
  }

  /** Go's strings.Split: always at least one part, separators dropped. */
  function Split<T(==)>(s: seq<T>, sep: T): (parts: seq<seq<T>>)
    ensures |parts| >= 1
  {
    if s == [] then [[]]
    else if s[0] == sep then [[]] + Split(s[1..], sep)
    else
      var rest := Split(s[1..], sep);
      [[s[0]] + rest[0]] + rest[1..]
  }

  /** Go's strings.Join. */
  function Join<T>(parts: seq<seq<T>>, sep: T): seq<T> {
    if |parts| == 0 then []
    else if |parts| == 1 then parts[0]
    else parts[0] + [sep] + Join(parts[1..], sep)
  }

  ghost predicate Free<T>(part: seq<T>, sep: T) {
    sep !in part
  }

  ghost predicate AllFree<T(!new)>(parts: seq<seq<T>>, sep: T) {
    forall part :: part in parts ==> Free(part, sep)
  }

  lemma {:induction false} JoinOfSplit<T>(s: seq<T>, sep: T)
    ensures Join(Split(s, sep), sep) == s
  {
    if s == [] {
    } else {
      var rest := Split(s[1..], sep);
      var parts := Split(s, sep);
      assert parts == if s[0] == sep then [[]] + rest else [[s[0]] + rest[0]] + rest[1..];
      assert parts[1..] == if s[0] == sep then rest else rest[1..];
      assert Join(rest, sep) == if |rest| == 1 then rest[0] else rest[0] + [sep] + Join(rest[1..], sep);
      assert Join(parts, sep) == if |parts| == 1 then parts[0] else parts[0] + [sep] + Join(parts[1..], sep);
      hide Split, Join;
      JoinOfSplit(s[1..], sep);
      assert s == [s[0]] + s[1..];
      if s[0] != sep && |rest| > 1 {
        assert parts[0] + [sep] + Join(rest[1..], sep) == [s[0]] + (rest[0] + [sep] + Join(rest[1..], sep));
      }
    }
  }

  lemma {:induction false} SplitPartsFree<T(!new)>(s: seq<T>, sep: T)
    ensures AllFree(Split(s, sep), sep)
  {
    if s == [] {
    } else {
      SplitPartsFree(s[1..], sep);
      var rest := Split(s[1..], sep);
      assert rest[0] in rest;
      assert Free(rest[0], sep);
    }
  }

  /** The first separator ends the first part. */
  lemma {:induction false} SplitAtFirst<T>(part: seq<T>, sep: T, rest: seq<T>)
    requires Free(part, sep)
    ensures Split(part, sep) == [part]
    ensures Split(part + [sep] + rest, sep) == [part] + Split(rest, sep)
  {
    if part == [] {
      assert [] + [sep] + rest == [sep] + rest;
      assert ([sep] + rest)[1..] == rest;
    } else {
      SplitAtFirst(part[1..], sep, rest);
      var s := part + [sep] + rest;
      assert s[1..] == part[1..] + [sep] + rest;
      assert part[0] != sep;
      assert [part[0]] + part[1..] == part;
    }
  }

  lemma {:induction false} SplitOfJoin<T(!new)>(parts: seq<seq<T>>, sep: T)
    requires |parts| >= 1 && AllFree(parts, sep)
    ensures Split(Join(parts, sep), sep) == parts
  {
    assert parts[0] in parts;
    assert Free(parts[0], sep);
    if |parts| == 1 {
      SplitAtFirst(parts[0], sep, []);
    } else {
      SplitOfJoin(parts[1..], sep);
      SplitAtFirst(parts[0], sep, Join(parts[1..], sep));
      assert [parts[0]] + parts[1..] == parts;
    }
  }

  lemma {:induction false} JoinSnoc<T>(parts: seq<seq<T>>, last: seq<T>, sep: T)
    ensures Join(parts + [last], sep) == if parts == [] then last else Join(parts, sep) + [sep] + last
  {
    if |parts| == 0 {
    } else if |parts| == 1 {
      assert (parts + [last])[1..] == [last];
    } else {
      assert (parts + [last])[1..] == parts[1..] + [last];
      JoinSnoc(parts[1..], last, sep);
    }
  }

  ghost function Elements<T>(s: seq<T>): set<T> {
    set x | x in s
  }

  ghost predicate NoDuplicates<T>(s: seq<T>) {
    forall i, j :: 0 <= i < j < |s| ==> s[i] != s[j]
  }

  lemma {:induction false} CardinalityOfDistinct<T>(s: seq<T>)
    requires NoDuplicates(s)
    ensures |Elements(s)| == |s|
  {
    if |s| == 0 {
      assert Elements(s) == {};
    } else {
      var front := s[..|s| - 1];
      var last := s[|s| - 1];
      CardinalityOfDistinct(front);
      assert forall x :: x in s <==> x in front || x == last;
      assert Elements(s) == Elements(front) + {last};
      assert last !in front;
    }
  }

  /** The numbers below n. */
  ghost function Below(n: nat): (all: set<int>)
    ensures forall x :: x in all <==> 0 <= x < n
    ensures |all| == n
  {
    if n == 0 then {} else Below(n - 1) + {n - 1}
  }

  lemma {:induction false} SubsetCardinality<T>(a: set<T>, b: set<T>)
    requires a <= b
    ensures |a| <= |b|
  {
    if a == {} {
    } else {
      var x :| x in a;
      SubsetCardinality(a - {x}, b - {x});
    }
  }

  /** More numbers below n than n: two of them are the same. */
  lemma Pigeonhole(s: seq<int>, n: nat) returns (i: nat, j: nat)
    requires |s| > n
    requires forall k :: 0 <= k < |s| ==> 0 <= s[k] < n
    ensures i < j < |s| && s[i] == s[j]
  {
    if NoDuplicates(s) {
      CardinalityOfDistinct(s);
      assert Elements(s) <= Below(n);
      SubsetCardinality(Elements(s), Below(n));
      assert false;
    } else {
      i, j :| 0 <= i < j < |s| && s[i] == s[j];
    }
  }
}
