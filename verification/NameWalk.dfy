/** Reading a domain name as a walk over positions.

    What to do at a position is an arbitrary function here; the messages of
    DnsName supply it. The walk has no counter: a name is the labels of the one
    walk that starts at its offset and stops, and a walk that never halts comes
    back to a pointer it has already met. */
module NameWalk {
  import opened Sequences

  newtype Byte = x: int | 0 <= x < 256
  type Bytes = seq<Byte>

  /** A conversion to byte: the low eight bits. */
  function ByteOf(n: nat): Byte {
    (n % 256) as Byte
  }

  const DOT: Byte := 46

  datatype NameError =
    | OutOfBounds
    | TruncatedPointer
    | PointerLoop
    | NonBackwardPointer
    | LabelOutOfBounds

  datatype Parsed = Ok(name: Bytes, next: int) | Err(error: NameError)

  /** What there is to do at a position. */
  datatype Step = Stop | Take(text: Bytes, to: int) | Jump(to: int) | Fail(error: NameError)

  type Steps = int -> Step

  /** The steps of a message of this size: labels go forward and pointers back,
      and nothing is read outside it. */
  ghost predicate Within(step: Steps, size: nat) {
    forall pos :: StepWithin(step(pos), pos, size)
  }

  predicate StepWithin(s: Step, pos: int, size: nat) {
    match s
    case Stop => 0 <= pos < size
    case Take(_, to) => 0 <= pos < to <= size
    case Jump(to) => 0 <= to < pos && pos + 2 <= size
    case Fail(error) => error != PointerLoop
  }

  ghost predicate Moves(step: Steps, pos: int) {
    step(pos).Take? || step(pos).Jump?
  }

  /** Where the walk from off stands after n moves, if it gets that far. */
  ghost function At(step: Steps, off: int, n: nat): Option<int> {
    if n == 0 then Some(off)
    else
      match At(step, off, n - 1)
      case None => None
      case Some(pos) => if Moves(step, pos) then Some(step(pos).to) else None
  }

  /** The labels taken in the first n moves. */
  ghost function Labels(step: Steps, off: int, n: nat): seq<Bytes>
    requires At(step, off, n).Some?
  {
    if n == 0 then []
    else Labels(step, off, n - 1) + LabelsTaken(step, At(step, off, n - 1).value)
  }

  function LabelsTaken(step: Steps, pos: int): seq<Bytes> {
    if step(pos).Take? then [step(pos).text] else []
  }

  /** Just past the first pointer met in the first n moves, -1 if there was none. */
  ghost function PastFirstJump(step: Steps, off: int, n: nat): int
    requires At(step, off, n).Some?
  {
    if n == 0 then -1
    else if PastFirstJump(step, off, n - 1) != -1 then PastFirstJump(step, off, n - 1)
    else
      var pos := At(step, off, n - 1).value;
      if step(pos).Jump? then pos + 2 else -1
  }

  /** Where the record stream goes on after a walk of n moves that then stops. */
  ghost function NextOf(step: Steps, off: int, n: nat): int
    requires At(step, off, n).Some?
  {
    if PastFirstJump(step, off, n) != -1 then PastFirstJump(step, off, n) else At(step, off, n).value + 1
  }

  /** The walk comes to a halt, one way or another, after n moves. */
  ghost predicate Halts(step: Steps, off: int, n: nat) {
    At(step, off, n).Some? && !Moves(step, At(step, off, n).value)
  }

  ghost predicate Endless(step: Steps, off: int) {
    forall n: nat :: At(step, off, n).Some?
  }

  /** A finite decoding of n moves from off: these labels, and the record goes
      on at next. */
  ghost predicate Decodes(step: Steps, off: int, n: nat, labels: seq<Bytes>, next: int) {
    && At(step, off, n).Some?
    && step(At(step, off, n).value).Stop?
    && labels == Labels(step, off, n)
    && next == NextOf(step, off, n)
  }

  /** The labels joined by dots, with a trailing dot. */
  function Dotted(labels: seq<Bytes>): Bytes {
    Join(labels, DOT) + [DOT]
  }

  /** The name at off: what the walk from there amounts to. */
  ghost function NameAt(step: Steps, off: int): Parsed {
    if exists n: nat :: Halts(step, off, n) then
      var n: nat :| Halts(step, off, n);
      var pos := At(step, off, n).value;
      if step(pos).Fail? then Err(step(pos).error)
      else Ok(Dotted(Labels(step, off, n)), NextOf(step, off, n))
    else Err(PointerLoop)
  }

  // ------------------------------------------------- the walk is deterministic

  lemma {:induction false} WalkPrefix(step: Steps, off: int, m: nat, n: nat)
    requires m <= n && At(step, off, n).Some?
    ensures At(step, off, m).Some?
    decreases n
  {
    if m < n { WalkPrefix(step, off, m, n - 1); }
  }

  lemma {:induction false} WalkCompose(step: Steps, off: int, k: nat, m: nat)
    requires At(step, off, k).Some?
    ensures At(step, off, k + m) == At(step, At(step, off, k).value, m)
  {
    if m > 0 { WalkCompose(step, off, k, m - 1); }
  }

  lemma {:induction false} NothingPastHalt(step: Steps, off: int, m: nat, n: nat)
    requires Halts(step, off, m) && m < n
    ensures At(step, off, n).None?
  {
    assert At(step, off, m + 1).None?;
    if At(step, off, n).Some? {
      WalkPrefix(step, off, m + 1, n);
      assert false;
    }
  }

  lemma {:induction false} HaltsOnce(step: Steps, off: int, m: nat, n: nat)
    requires Halts(step, off, m) && Halts(step, off, n)
    ensures m == n
  {
    if m < n {
      NothingPastHalt(step, off, m, n);
    } else if n < m {
      NothingPastHalt(step, off, n, m);
    }
  }

  /** Standing twice in the same place, the walk goes round for ever. */
  lemma {:induction false} RecurringIsEndless(step: Steps, off: int, i: nat, j: nat, n: nat)
    requires i < j && At(step, off, i).Some? && At(step, off, i) == At(step, off, j)
    ensures At(step, off, n).Some?
    decreases n
  {
    if n <= j {
      WalkPrefix(step, off, n, j);
    } else {
      WalkCompose(step, off, j, n - j);
      WalkCompose(step, off, i, n - j);
      RecurringIsEndless(step, off, i, j, i + (n - j));
    }
  }

  lemma {:induction false} TakeStep(step: Steps, off: int, n: nat, text: Bytes, to: int)
    requires At(step, off, n).Some? && step(At(step, off, n).value) == Take(text, to)
    ensures At(step, off, n + 1) == Some(to)
    ensures Labels(step, off, n + 1) == Labels(step, off, n) + [text]
    ensures PastFirstJump(step, off, n + 1) == PastFirstJump(step, off, n)
  {
  }

  lemma {:induction false} JumpStep(step: Steps, off: int, n: nat, to: int)
    requires At(step, off, n).Some? && step(At(step, off, n).value) == Jump(to)
    ensures At(step, off, n + 1) == Some(to)
    ensures Labels(step, off, n + 1) == Labels(step, off, n)
    ensures PastFirstJump(step, off, n + 1) ==
            if PastFirstJump(step, off, n) == -1 then At(step, off, n).value + 2 else PastFirstJump(step, off, n)
  {
    assert Labels(step, off, n) + [] == Labels(step, off, n);
  }

  /** A finite decoding is what the name is; there cannot be two. */
  lemma {:induction false} DecodingIsName(step: Steps, off: int, n: nat, labels: seq<Bytes>, next: int)
    requires Decodes(step, off, n, labels, next)
    ensures NameAt(step, off) == Ok(Dotted(labels), next)
  {
    assert Halts(step, off, n);
    var m: nat :| Halts(step, off, m);
    HaltsOnce(step, off, m, n);
    forall k: nat | Halts(step, off, k) ensures k == n { HaltsOnce(step, off, k, n); }
  }

  lemma {:induction false} FailureIsError(step: Steps, off: int, n: nat)
    requires At(step, off, n).Some? && step(At(step, off, n).value).Fail?
    ensures NameAt(step, off) == Err(step(At(step, off, n).value).error)
  {
    assert Halts(step, off, n);
    forall k: nat | Halts(step, off, k) ensures k == n { HaltsOnce(step, off, k, n); }
  }

  lemma {:induction false} EndlessIsLoop(step: Steps, off: int)
    requires Endless(step, off)
    ensures NameAt(step, off) == Err(PointerLoop)
  {
    forall n: nat ensures !Halts(step, off, n) {
      assert At(step, off, n + 1).Some?;
    }
  }

  /** The positions where the walk stood at the given moves. */
  ghost function Places(step: Steps, off: int, moves: seq<nat>): seq<int>
    requires forall k :: 0 <= k < |moves| ==> At(step, off, moves[k]).Some?
  {
    seq(|moves|, k requires 0 <= k < |moves| => At(step, off, moves[k]).value)
  }

  /** The moves of a walk that met a pointer, in the order they happened. */
  ghost predicate PointerMoves(step: Steps, size: nat, off: int, moves: seq<nat>) {
    && (forall k :: 0 <= k < |moves| ==>
          && At(step, off, moves[k]).Some?
          && 0 <= At(step, off, moves[k]).value < size)
    && (forall k, l :: 0 <= k < l < |moves| ==> moves[k] < moves[l])
  }

  /** More pointers met than the message has bytes: one of them recurred. */
  lemma {:induction false} TooManyPointers(step: Steps, size: nat, off: int, moves: seq<nat>)
    requires PointerMoves(step, size, off, moves) && |moves| > size
    ensures NameAt(step, off) == Err(PointerLoop)
  {
    var places := Places(step, off, moves);
    var i, j := Pigeonhole(places, size);
    assert At(step, off, moves[i]) == At(step, off, moves[j]);
    forall n: nat ensures At(step, off, n).Some? {
      RecurringIsEndless(step, off, moves[i], moves[j], n);
    }
    EndlessIsLoop(step, off);
  }

  /** What the loop of ParseName knows after n moves: where it stands, what it
      has gathered, and at which moves it met a pointer. */
  ghost predicate Walked(
      step: Steps, size: nat, off: int, n: nat, met: seq<nat>, pos: int, parts: seq<Bytes>, next: int) {
    && At(step, off, n) == Some(pos)
    && parts == Labels(step, off, n)
    && next == PastFirstJump(step, off, n)
    && (next == -1 || next >= 2)
    && PointerMoves(step, size, off, met)
    && (forall k :: 0 <= k < |met| ==> met[k] < n)
  }

  lemma {:induction false} WalkBegins(step: Steps, size: nat, off: int)
    ensures Walked(step, size, off, 0, [], off, [], -1)
  {
  }

  lemma {:induction false} WalkLabel(
      step: Steps, size: nat, off: int, n: nat, met: seq<nat>, pos: int, parts: seq<Bytes>, next: int)
    requires Walked(step, size, off, n, met, pos, parts, next)
    requires step(pos).Take?
    ensures Walked(step, size, off, n + 1, met, step(pos).to, parts + [step(pos).text], next)
  {
    TakeStep(step, off, n, step(pos).text, step(pos).to);
  }

  lemma {:induction false} MeetPointer(
      step: Steps, size: nat, off: int, n: nat, met: seq<nat>, pos: int, parts: seq<Bytes>, next: int)
    requires Walked(step, size, off, n, met, pos, parts, next) && 0 <= pos < size
    ensures PointerMoves(step, size, off, met + [n])
  {
  }

  lemma {:induction false} WalkPointer(
      step: Steps, size: nat, off: int, n: nat, met: seq<nat>, pos: int, parts: seq<Bytes>, next: int)
    requires Walked(step, size, off, n, met, pos, parts, next)
    requires step(pos).Jump? && 0 <= pos < size
    ensures Walked(step, size, off, n + 1, met + [n], step(pos).to, parts, if next < 0 then pos + 2 else next)
  {
    MeetPointer(step, size, off, n, met, pos, parts, next);
    JumpStep(step, off, n, step(pos).to);
  }

  /** Where the loop leaves, the walk says the same. */
  lemma {:induction false} LeaveAtStop(
      step: Steps, size: nat, off: int, n: nat, met: seq<nat>, pos: int, parts: seq<Bytes>, next: int)
    requires Walked(step, size, off, n, met, pos, parts, next) && step(pos).Stop?
    ensures NameAt(step, off) == Ok(Dotted(parts), if next < 0 then pos + 1 else next)
  {
    DecodingIsName(step, off, n, parts, NextOf(step, off, n));
  }

  lemma {:induction false} LeaveAtFailure(
      step: Steps, size: nat, off: int, n: nat, met: seq<nat>, pos: int, parts: seq<Bytes>, next: int)
    requires Walked(step, size, off, n, met, pos, parts, next) && step(pos).Fail?
    ensures NameAt(step, off) == Err(step(pos).error)
  {
    FailureIsError(step, off, n);
  }

  lemma {:induction false} LeaveAtBound(
      step: Steps, size: nat, off: int, n: nat, met: seq<nat>, pos: int, parts: seq<Bytes>, next: int)
    requires Walked(step, size, off, n, met, pos, parts, next) && 0 <= pos < size
    requires |met| + 1 > size
    ensures NameAt(step, off) == Err(PointerLoop)
  {
    MeetPointer(step, size, off, n, met, pos, parts, next);
    TooManyPointers(step, size, off, met + [n]);
  }

  // ------------------------------------------- what the decoder's answers mean

  /** Success is exactly a finite decoding: the hop bound refuses none of them. */
  lemma {:induction false} NameIffDecoding(step: Steps, off: int, name: Bytes, next: int)
    ensures NameAt(step, off) == Ok(name, next) <==>
            exists n: nat, labels: seq<Bytes> :: Decodes(step, off, n, labels, next) && name == Dotted(labels)
  {
    if NameAt(step, off) == Ok(name, next) {
      var n: nat :| Halts(step, off, n);
      forall k: nat | Halts(step, off, k) ensures k == n { HaltsOnce(step, off, k, n); }
      assert Decodes(step, off, n, Labels(step, off, n), next);
    }
    if n: nat, labels: seq<Bytes> :| Decodes(step, off, n, labels, next) && name == Dotted(labels) {
      DecodingIsName(step, off, n, labels, next);
    }
  }

  /** The walk stands on the same pointer at two different moves. */
  ghost predicate PointerRecurs(step: Steps, off: int, i: nat, j: nat) {
    && i < j
    && At(step, off, i).Some?
    && At(step, off, i) == At(step, off, j)
    && step(At(step, off, i).value).Jump?
  }

  /** A walk without pointers only moves forward. */
  lemma {:induction false} LabelsMoveForward(step: Steps, size: nat, off: int, i: nat, j: nat)
    requires Within(step, size)
    requires i < j && At(step, off, j).Some?
    requires forall k: nat :: i <= k < j && At(step, off, k).Some? ==> !step(At(step, off, k).value).Jump?
    ensures At(step, off, i).Some? && At(step, off, i).value < At(step, off, j).value
    decreases j
  {
    WalkPrefix(step, off, j - 1, j);
    if i < j - 1 { LabelsMoveForward(step, size, off, i, j - 1); }
  }

  lemma {:induction false} RecurringPointerIsLoop(step: Steps, off: int, i: nat, j: nat)
    requires PointerRecurs(step, off, i, j)
    ensures NameAt(step, off) == Err(PointerLoop)
  {
    forall n: nat ensures At(step, off, n).Some? { RecurringIsEndless(step, off, i, j, n); }
    EndlessIsLoop(step, off);
  }

  lemma {:induction false} LoopHasRecurringPointer(step: Steps, size: nat, off: int) returns (i: nat, j: nat)
    requires Within(step, size)
    requires NameAt(step, off) == Err(PointerLoop)
    ensures PointerRecurs(step, off, i, j)
  {
    LoopIsEndless(step, size, off);
    var a, b := EndlessComesBack(step, size, off);
    i := PointerBetween(step, size, off, a, b);
    j := b + (i - a);
    WalkCompose(step, off, a, i - a);
    WalkCompose(step, off, b, i - a);
  }

  /** Coming back to a place takes a pointer. */
  lemma {:induction false} PointerBetween(step: Steps, size: nat, off: int, a: nat, b: nat) returns (i: nat)
    requires Within(step, size)
    requires a < b && At(step, off, a).Some? && At(step, off, a) == At(step, off, b)
    ensures a <= i < b && At(step, off, i).Some? && step(At(step, off, i).value).Jump?
  {
    if forall k: nat :: a <= k < b && At(step, off, k).Some? ==> !step(At(step, off, k).value).Jump? {
      LabelsMoveForward(step, size, off, a, b);
      assert false;
    }
    i :| a <= i < b && At(step, off, i).Some? && step(At(step, off, i).value).Jump?;
  }

  /** The loop error is exactly a pointer position that comes up again. */
  lemma {:induction false} LoopIffPointerRecurs(step: Steps, size: nat, off: int)
    requires Within(step, size)
    ensures NameAt(step, off) == Err(PointerLoop) <==> exists i: nat, j: nat :: PointerRecurs(step, off, i, j)
  {
    if i: nat, j: nat :| PointerRecurs(step, off, i, j) {
      RecurringPointerIsLoop(step, off, i, j);
    }
    if NameAt(step, off) == Err(PointerLoop) {
      var i, j := LoopHasRecurringPointer(step, size, off);
    }
  }

  lemma {:induction false} LoopIsEndless(step: Steps, size: nat, off: int)
    requires Within(step, size)
    requires NameAt(step, off) == Err(PointerLoop)
    ensures forall n: nat :: At(step, off, n).Some? && Moves(step, At(step, off, n).value)
  {
    assert forall k: nat :: !Halts(step, off, k) by {
      if k: nat :| Halts(step, off, k) {
        assert StepWithin(step(At(step, off, k).value), At(step, off, k).value, size);
        NoLoopIfHalts(step, off, k);
      }
    }
    forall n: nat ensures At(step, off, n).Some? && Moves(step, At(step, off, n).value) {
      NeverHalting(step, off, n);
    }
  }

  lemma {:induction false} NoLoopIfHalts(step: Steps, off: int, n: nat)
    requires Halts(step, off, n)
    ensures NameAt(step, off) != Err(PointerLoop) || step(At(step, off, n).value) == Fail(PointerLoop)
  {
    forall k: nat | Halts(step, off, k) ensures k == n { HaltsOnce(step, off, k, n); }
  }

  lemma {:induction false} NeverHalting(step: Steps, off: int, n: nat)
    requires forall k: nat :: !Halts(step, off, k)
    ensures At(step, off, n).Some? && Moves(step, At(step, off, n).value)
  {
    if n > 0 { NeverHalting(step, off, n - 1); }
    assert !Halts(step, off, n);
  }

  lemma {:induction false} EndlessComesBack(step: Steps, size: nat, off: int) returns (i: nat, j: nat)
    requires Within(step, size)
    requires forall n: nat :: At(step, off, n).Some? && Moves(step, At(step, off, n).value)
    ensures i < j && At(step, off, i) == At(step, off, j)
  {
    var places := seq(size + 1, (k: nat) requires At(step, off, k).Some? => At(step, off, k).value);
    forall k | 0 <= k < |places| ensures 0 <= places[k] < size {
      assert Moves(step, At(step, off, k).value);
    }
    i, j := Pigeonhole(places, size);
  }

  /** The record stream always moves on, and never past the message. */
  lemma {:induction false} NextInBounds(step: Steps, size: nat, off: int)
    requires Within(step, size)
    requires NameAt(step, off).Ok?
    ensures 0 <= off < NameAt(step, off).next <= size
  {
    var n: nat :| Halts(step, off, n);
    forall k: nat | Halts(step, off, k) ensures k == n { HaltsOnce(step, off, k, n); }
    BeforeFirstJump(step, size, off, n);
    WalkPrefix(step, off, 0, n);
    if n > 0 {
      WalkPrefix(step, off, 1, n);
      assert At(step, off, 1).Some?;
      assert At(step, off, 0) == Some(off);
    }
  }

  lemma {:induction false} BeforeFirstJump(step: Steps, size: nat, off: int, n: nat)
    requires Within(step, size)
    requires At(step, off, n).Some?
    ensures PastFirstJump(step, off, n) == -1 ==> At(step, off, n).value >= off
    ensures PastFirstJump(step, off, n) != -1 ==> off < PastFirstJump(step, off, n) <= size
  {
    if n > 0 { BeforeFirstJump(step, size, off, n - 1); }
  }

  lemma {:induction false} LabelsCompose(step: Steps, off: int, k: nat, m: nat)
    requires At(step, off, k).Some? && At(step, off, k + m).Some?
    ensures At(step, At(step, off, k).value, m) == At(step, off, k + m)
    ensures Labels(step, off, k + m) == Labels(step, off, k) + Labels(step, At(step, off, k).value, m)
  {
    if m == 0 {
    } else {
      WalkCompose(step, off, k, m - 1);
      LabelsCompose(step, off, k, m - 1);
      SameLabels(step, off, k + m - 1, At(step, off, k).value, m - 1);
    }
  }

  /** Two walks standing in the same place take the same label, if any. */
  lemma {:induction false} SameLabels(step: Steps, off: int, k: nat, base: int, m: nat)
    requires At(step, off, k).Some? && At(step, off, k) == At(step, base, m) && At(step, off, k + 1).Some?
    ensures At(step, base, m + 1) == At(step, off, k + 1)
    ensures Labels(step, off, k + 1) == Labels(step, off, k) + LabelsTaken(step, At(step, off, k).value)
    ensures Labels(step, base, m + 1) == Labels(step, base, m) + LabelsTaken(step, At(step, off, k).value)
  {
  }

  lemma {:induction false} FirstJumpStays(step: Steps, off: int, k: nat, m: nat)
    requires At(step, off, k).Some? && At(step, off, k + m).Some?
    requires PastFirstJump(step, off, k) != -1
    ensures PastFirstJump(step, off, k + m) == PastFirstJump(step, off, k)
  {
    if m > 0 { FirstJumpStays(step, off, k, m - 1); }
  }

  /** A walk that meets its first pointer goes on as the walk from its target. */
  lemma {:induction false} PointerJoinsTail(
      step: Steps, off: int, k: nat, base: int, m: nat, tail: seq<Bytes>, past: int)
    requires At(step, off, k).Some? && step(At(step, off, k).value) == Jump(base)
    requires PastFirstJump(step, off, k) == -1 && At(step, off, k).value >= 0
    requires Decodes(step, base, m, tail, past)
    ensures Decodes(step, off, k + 1 + m, Labels(step, off, k) + tail, At(step, off, k).value + 2)
    ensures NameAt(step, off) == Ok(Dotted(Labels(step, off, k) + tail), At(step, off, k).value + 2)
  {
    JumpStep(step, off, k, base);
    WalkCompose(step, off, k + 1, m);
    LabelsCompose(step, off, k + 1, m);
    FirstJumpStays(step, off, k + 1, m);
    DecodingIsName(step, off, k + 1 + m, Labels(step, off, k) + tail, At(step, off, k).value + 2);
  }
}
