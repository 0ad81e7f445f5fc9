/** The discovery plane as its goroutines run it: reports, orphan sweeps and
    reconnects interleave at every place where a lock is given up
    (internal/hass/discovery.go, internal/coordinator/coordinator.go). */
module DiscoveryRuns {
  import opened Sequences
  import opened HaRuntime
  import opened Discovery
  import opened DiscoveryLaws

  /** A document past the guard: its write is ahead, or done but not noted. */
  datatype Publish = Publish(b: Bundle, written: bool)

  /** A sweep past its claims: what it has still to retract, and all it will forget. */
  datatype Sweep = Sweep(todo: seq<string>, orphans: seq<string>)

  datatype System = System(plane: Plane, publishes: map<nat, Publish>, sweeps: map<nat, Sweep>)

  /** Publishes and sweeps go by numbers; any number of each may be under way. A new
      connection may be to a broker with any store and lose or refuse what it likes;
      Reset and Reopen follow when PublishOnline comes to them. */
  datatype Move =
    | Checks(c: nat, b: Bundle)
    | Writes(c: nat)
    | Notes(c: nat)
    | Claims(w: nat, seen: seq<string>, published: set<string>)
    | Clears(w: nat)
    | Forgets(w: nat)
    | Reconnects(retained: Retained, fates: nat -> Fate)
    | Resets
    | Reopens

  ghost predicate Can(s: System, m: Move) {
    match m
    case Checks(c, _) => c !in s.publishes
    case Writes(c) => c in s.publishes && !s.publishes[c].written
    case Notes(c) => c in s.publishes && s.publishes[c].written
    case Claims(w, _, _) => w !in s.sweeps
    case Clears(w) => w in s.sweeps && s.sweeps[w].todo != []
    case Forgets(w) => w in s.sweeps && s.sweeps[w].todo == []
    case Reconnects(_, _) => true
    case Resets => true
    case Reopens => true
  }

  ghost function Moved(s: System, m: Move): System
    requires Can(s, m)
  {
    match m
    case Checks(c, b) =>
      if Fresh(s.plane.sent, b) then s.(publishes := s.publishes[c := Publish(b, false)]) else s
    case Writes(c) =>
      var (link', ok) := Published(s.plane.link, s.publishes[c].b);
      s.(plane := s.plane.(link := link'),
         publishes := if ok then s.publishes[c := Publish(s.publishes[c].b, true)] else s.publishes - {c})
    case Notes(c) => s.(plane := Noted(s.plane, s.publishes[c].b), publishes := s.publishes - {c})
    case Claims(w, seen, published) =>
      var orphans := Orphans(s.plane, seen, published);
      if orphans == [] then s else s.(sweeps := s.sweeps[w := Sweep(orphans, orphans)])
    case Clears(w) =>
      var sweep := s.sweeps[w];
      s.(plane := s.plane.(link := ClearedOne(s.plane.link, sweep.todo[0])),
         sweeps := s.sweeps[w := sweep.(todo := sweep.todo[1..])])
    case Forgets(w) => s.(plane := Forgotten(s.plane, s.sweeps[w].orphans), sweeps := s.sweeps - {w})
    case Reconnects(retained, fates) => s.(plane := s.plane.(link := Reconnected(s.plane.link, retained, fates)))
    case Resets => s.(plane := s.plane.(link := ResetLink(s.plane.link)))
    case Reopens => s.(plane := s.plane.(sent := {}))
  }

  /** The system after the moves, if each of them could be made. */
  ghost function Run(s: System, moves: seq<Move>): Option<System> {
    if moves == [] then Some(s)
    else
      var before, m := Run(s, moves[..|moves| - 1]), moves[|moves| - 1];
      if before.Some? && Can(before.value, m) then Some(Moved(before.value, m)) else None
  }

  ghost predicate Possible(s: System, moves: seq<Move>) {
    Run(s, moves).Some?
  }

  ghost function End(s: System, moves: seq<Move>): System
    requires Possible(s, moves)
  {
    Run(s, moves).value
  }

  lemma {:induction false} PrefixPossible(s: System, moves: seq<Move>, n: nat)
    requires Possible(s, moves) && n <= |moves|
    ensures Possible(s, moves[..n])
    ensures n < |moves| ==> Can(End(s, moves[..n]), moves[n])
    decreases |moves|
  {
    if n == |moves| {
      assert moves[..n] == moves;
    } else {
      var front := moves[..|moves| - 1];
      PrefixPossible(s, front, n);
      assert front[..n] == moves[..n];
      if n == |front| {
        assert moves[..n] == front;
      }
    }
  }

  lemma {:induction false} OneMove(s: System, front: seq<Move>, m: Move)
    requires Possible(s, front) && Can(End(s, front), m)
    ensures Possible(s, front + [m]) && End(s, front + [m]) == Moved(End(s, front), m)
  {
    assert (front + [m])[..|front|] == front;
  }

  // ------------------------------------------------------------ one topic, one move

  /** The topic is declared, and the broker retains this body for it. */
  ghost predicate Stands(s: System, topic: string, body: string) {
    topic in s.plane.link.declared && Lookup(s.plane.link.retained, topic) == Some(body)
  }

  ghost predicate Missing(s: System, topic: string) {
    topic !in s.plane.link.retained
  }

  /** What the runtime remembers of the topic is so. */
  ghost predicate Remembered(l: Link, topic: string) {
    topic in l.gate ==> topic in l.declared && Lookup(l.retained, topic) == Some(l.gate[topic])
  }

  /** The sweep claimed the topic as an orphan and has not come to it yet. */
  ghost predicate Listed(s: System, w: nat, topic: string) {
    w in s.sweeps && topic in s.sweeps[w].todo
  }

  ghost predicate ClearsNow(s: System, m: Move, topic: string) {
    m.Clears? && Can(s, m) && s.sweeps[m.w].todo[0] == topic
  }

  ghost predicate WritesNow(s: System, m: Move, topic: string) {
    m.Writes? && Can(s, m) && s.publishes[m.c].b.topic == topic
  }

  /** No document is under way that supersedes the topic. */
  ghost predicate Unsuperseded(s: System, topic: string) {
    forall c :: c in s.publishes ==> topic !in s.publishes[c].b.legacy
  }

  /** One connection throughout, and no document supersedes the topic. */
  ghost predicate SteadyFor(moves: seq<Move>, topic: string) {
    forall i :: 0 <= i < |moves| ==> SteadyMove(moves[i], topic)
  }

  ghost predicate SteadyMove(m: Move, topic: string) {
    !m.Reconnects? && (m.Checks? ==> topic !in m.b.legacy)
  }

  /** A lossless link on which the topic is a document's and nothing else. */
  ghost predicate Sound(s: System, topic: string) {
    Lossless(s.plane.link) && Remembered(s.plane.link, topic) && Unsuperseded(s, topic)
  }

  lemma {:induction false} WriteStep(l: Link, b: Bundle, topic: string)
    requires Lossless(l) && Remembered(l, topic) && topic !in b.legacy
    ensures var (l', ok) := Published(l, b);
      && ok && Lossless(l') && Remembered(l', topic)
      && (topic != b.topic ==>
           && Lookup(l'.retained, topic) == Lookup(l.retained, topic)
           && (topic in l'.declared <==> topic in l.declared))
      && (topic == b.topic ==> topic in l'.declared && Lookup(l'.retained, topic) == Some(b.body))
  {
    LosslessRetractions(l, b.legacy);
    hide Retracted;
  }

  lemma {:induction false} ClearStep(l: Link, t: string, topic: string)
    requires Lossless(l) && Remembered(l, topic)
    ensures var l' := ClearedOne(l, t);
      && Lossless(l') && Remembered(l', topic)
      && Lookup(l'.retained, topic) == (if t == topic then None else Lookup(l.retained, topic))
      && (topic in l'.declared <==> topic in l.declared && t != topic)
  {
  }

  /** What a move does to a topic: a write puts it there, a sweep that comes to it
      takes it away, nothing else touches it; and only what is undeclared gets onto
      a sweep's list. */
  lemma {:induction false} StepOfTopic(s: System, m: Move, topic: string)
    requires Sound(s, topic) && Can(s, m) && SteadyMove(m, topic)
    ensures var s' := Moved(s, m);
      && Sound(s', topic)
      && (WritesNow(s, m, topic) ==> Stands(s', topic, s.publishes[m.c].b.body))
      && (ClearsNow(s, m, topic) ==> Missing(s', topic))
      && (!WritesNow(s, m, topic) && !ClearsNow(s, m, topic) ==>
           && Lookup(s'.plane.link.retained, topic) == Lookup(s.plane.link.retained, topic)
           && (topic in s'.plane.link.declared <==> topic in s.plane.link.declared))
  {
    match m
    case Writes(c) =>
      WriteStep(s.plane.link, s.publishes[c].b, topic);
      hide Published;
    case Clears(w) =>
      ClearStep(s.plane.link, s.sweeps[w].todo[0], topic);
      hide ClearedOne;
    case Forgets(w) => ForgettingKeepsLink(s.plane, s.sweeps[w].orphans);
    case _ =>
  }

  lemma {:induction false} StepOfLists(s: System, m: Move, w: nat, topic: string)
    requires Can(s, m)
    ensures var s' := Moved(s, m);
      && (Listed(s', w, topic) ==> Listed(s, w, topic) || topic !in s.plane.link.declared)
      && (Listed(s, w, topic) ==> Listed(s', w, topic) || (ClearsNow(s, m, topic) && m.w == w))
  {
    if m.Claims? {
      OrphansUnclaimed(s.plane, m.seen, m.published, topic);
    }
    hide Published, Fresh, ClearedOne, Forgotten, Orphans;
  }

  // ----------------------------------------- when a written document goes missing

  ghost predicate WrittenAt(s: System, moves: seq<Move>, i: nat, topic: string) {
    i < |moves| && Possible(s, moves[..i]) && WritesNow(End(s, moves[..i]), moves[i], topic)
  }

  ghost predicate NotWritten(s: System, moves: seq<Move>, topic: string) {
    forall i: nat :: !WrittenAt(s, moves, i, topic)
  }

  /** The sweep w comes to the topic. */
  ghost predicate ClearedAt(s: System, moves: seq<Move>, k: nat, w: nat, topic: string) {
    && k < |moves| && Possible(s, moves[..k])
    && moves[k] == Clears(w) && ClearsNow(End(s, moves[..k]), moves[k], topic)
  }

  lemma {:induction false} NotWrittenBefore(s: System, moves: seq<Move>, topic: string)
    requires moves != [] && Possible(s, moves) && NotWritten(s, moves, topic)
    ensures var front := moves[..|moves| - 1];
      && NotWritten(s, front, topic)
      && !WritesNow(End(s, front), moves[|moves| - 1], topic)
  {
    var front := moves[..|moves| - 1];
    forall i: nat ensures !WrittenAt(s, front, i, topic) {
      if i < |front| {
        assert front[..i] == moves[..i];
        assert !WrittenAt(s, moves, i, topic);
      }
    }
    assert !WrittenAt(s, moves, |front|, topic);
  }

  /** What may still be cleared was listed when the run began. */
  ghost predicate OnlyListedBefore(s: System, e: System, topic: string) {
    forall w: nat :: Listed(e, w, topic) ==> Listed(s, w, topic)
  }

  ghost predicate ClearedByListed(s: System, moves: seq<Move>, topic: string) {
    exists k: nat, w: nat :: ClearedAt(s, moves, k, w, topic) && Listed(s, w, topic)
  }

  lemma {:induction false} ClearedEarlier(s: System, moves: seq<Move>, topic: string)
    requires moves != [] && ClearedByListed(s, moves[..|moves| - 1], topic)
    ensures ClearedByListed(s, moves, topic)
  {
    var front := moves[..|moves| - 1];
    var k: nat, w: nat :| ClearedAt(s, front, k, w, topic) && Listed(s, w, topic);
    assert front[..k] == moves[..k];
    assert ClearedAt(s, moves, k, w, topic);
  }

  lemma {:induction false} NotClearedEarlier(s: System, moves: seq<Move>, topic: string)
    requires moves != [] && Possible(s, moves) && !ClearedByListed(s, moves[..|moves| - 1], topic)
    requires !ClearsNow(End(s, moves[..|moves| - 1]), moves[|moves| - 1], topic)
    ensures !ClearedByListed(s, moves, topic)
  {
    var front := moves[..|moves| - 1];
    if ClearedByListed(s, moves, topic) {
      var k: nat, w: nat :| ClearedAt(s, moves, k, w, topic) && Listed(s, w, topic);
      if k < |front| {
        assert front[..k] == moves[..k];
        assert ClearedAt(s, front, k, w, topic);
      }
    }
  }

  /** From the last write of a document on: it stays as written until a sweep that
      had listed it before that write comes to it, and is missing exactly from then
      on. A sweep that makes its claims later takes no written document. */
  lemma {:induction false} MissingIffListedBeforeWritten(s: System, moves: seq<Move>, topic: string, body: string)
    requires Sound(s, topic) && Stands(s, topic, body)
    requires Possible(s, moves) && SteadyFor(moves, topic) && NotWritten(s, moves, topic)
    ensures var e := End(s, moves);
      && Sound(e, topic)
      && (Missing(e, topic) <==> ClearedByListed(s, moves, topic))
      && (!Missing(e, topic) ==> Stands(e, topic, body) && OnlyListedBefore(s, e, topic))
  {
    if moves == [] {
    } else {
      var front, m := moves[..|moves| - 1], moves[|moves| - 1];
      var before := End(s, front);
      NotWrittenBefore(s, moves, topic);
      assert SteadyFor(front, topic);
      MissingIffListedBeforeWritten(s, front, topic, body);
      StepOfTopic(before, m, topic);
      MissingStep(s, moves, topic, body);
    }
  }

  lemma {:induction false} MissingStep(s: System, moves: seq<Move>, topic: string, body: string)
    requires moves != [] && Possible(s, moves)
    requires var before, m := End(s, moves[..|moves| - 1]), moves[|moves| - 1];
      && (Missing(before, topic) <==> ClearedByListed(s, moves[..|moves| - 1], topic))
      && (!Missing(before, topic) ==> Stands(before, topic, body) && OnlyListedBefore(s, before, topic))
      && !WritesNow(before, m, topic)
      && (ClearsNow(before, m, topic) ==> Missing(End(s, moves), topic))
      && (!ClearsNow(before, m, topic) ==>
           && Lookup(End(s, moves).plane.link.retained, topic) == Lookup(before.plane.link.retained, topic)
           && (topic in End(s, moves).plane.link.declared <==> topic in before.plane.link.declared))
    ensures var e := End(s, moves);
      && (Missing(e, topic) <==> ClearedByListed(s, moves, topic))
      && (!Missing(e, topic) ==> Stands(e, topic, body) && OnlyListedBefore(s, e, topic))
  {
    var front, m := moves[..|moves| - 1], moves[|moves| - 1];
    var before, e := End(s, front), End(s, moves);
    assert e == Moved(before, m);
    if Missing(before, topic) {
      ClearedEarlier(s, moves, topic);
    } else if ClearsNow(before, m, topic) {
      assert Listed(before, m.w, topic);
      assert ClearedAt(s, moves, |front|, m.w, topic);
    } else {
      NotClearedEarlier(s, moves, topic);
      forall w: nat | Listed(e, w, topic) ensures Listed(s, w, topic) {
        StepOfLists(before, m, w, topic);
      }
    }
  }

  lemma {:induction false} RunInParts(s: System, a: seq<Move>, b: seq<Move>)
    requires Possible(s, a)
    ensures Run(s, a + b) == Run(End(s, a), b)
  {
    if b == [] {
      assert a + b == a;
    } else {
      var front := b[..|b| - 1];
      assert (a + b)[..|a + b| - 1] == a + front;
      RunInParts(s, a, front);
    }
  }

  lemma {:induction false} TailPart(s: System, moves: seq<Move>, n: nat, k: nat)
    requires Possible(s, moves) && n <= k <= |moves|
    ensures Possible(s, moves[..n])
    ensures Run(s, moves[..k]) == Run(End(s, moves[..n]), moves[n..][..k - n])
  {
    PrefixPossible(s, moves, n);
    assert moves[..n] + moves[n..][..k - n] == moves[..k];
    RunInParts(s, moves[..n], moves[n..][..k - n]);
  }

  /** In every run, over any number of connections: a document last written on the
      present connection, a lossless one, is missing at the end exactly when a sweep
      came to it after that write, having listed it before. */
  lemma {:induction false} WrittenIsMissingIff(s: System, moves: seq<Move>, i: nat, topic: string)
    requires Possible(s, moves) && WrittenAt(s, moves, i, topic)
    requires Sound(End(s, moves[..i]), topic) && SteadyFor(moves[i..], topic)
    requires forall j: nat :: j > i ==> !WrittenAt(s, moves, j, topic)
    ensures Missing(End(s, moves), topic) <==>
            exists k: nat, w: nat :: k > i && ClearedAt(s, moves, k, w, topic) && Listed(End(s, moves[..i]), w, topic)
  {
    PrefixPossible(s, moves, i + 1);
    var before, after := End(s, moves[..i]), End(s, moves[..i + 1]);
    assert moves[..i + 1][..i] == moves[..i] && moves[i..][0] == moves[i];
    assert after == Moved(before, moves[i]);
    StepOfTopic(before, moves[i], topic);
    SteadyTail(moves, i, topic);
    TailOfRun(s, moves, i + 1, topic);
    hide Run;
    MissingIffListedBeforeWritten(after, moves[i + 1..], topic, before.publishes[moves[i].c].b.body);
    ShiftedClears(s, moves, i, topic);
  }

  lemma {:induction false} SteadyTail(moves: seq<Move>, i: nat, topic: string)
    requires i < |moves| && SteadyFor(moves[i..], topic)
    ensures SteadyFor(moves[i + 1..], topic)
  {
    var tail := moves[i + 1..];
    forall j | 0 <= j < |tail| ensures SteadyMove(tail[j], topic) {
      assert tail[j] == moves[i..][j + 1];
    }
  }

  /** A connection is sound for a topic once it was reset: what is remembered is of it. */
  lemma {:induction false} SoundOnceReset(s: System, moves: seq<Move>, k: nat, topic: string)
    requires Possible(s, moves) && k < |moves| && moves[k].Resets? && SteadyFor(moves[k..], topic)
    requires Possible(s, moves[..k]) && Lossless(End(s, moves[..k]).plane.link)
    requires Unsuperseded(End(s, moves[..k]), topic)
    ensures Sound(End(s, moves), topic)
  {
    PrefixPossible(s, moves, k + 1);
    assert moves[..k + 1][..k] == moves[..k];
    var after, tail := End(s, moves[..k + 1]), moves[k + 1..];
    assert after == Moved(End(s, moves[..k]), moves[k]);
    SteadyTail(moves, k, topic);
    TailPart(s, moves, k + 1, |moves|);
    assert tail[..|moves| - (k + 1)] == tail && moves[..|moves|] == moves;
    SoundThrough(after, tail, topic);
  }

  lemma {:induction false} TailOfRun(s: System, moves: seq<Move>, n: nat, topic: string)
    requires Possible(s, moves) && n <= |moves| && SteadyFor(moves[n..], topic)
    requires forall j: nat :: j >= n ==> !WrittenAt(s, moves, j, topic)
    ensures Possible(s, moves[..n])
    ensures var after, tail := End(s, moves[..n]), moves[n..];
      && Possible(after, tail) && End(after, tail) == End(s, moves)
      && NotWritten(after, tail, topic)
  {
    var tail := moves[n..];
    TailPart(s, moves, n, |moves|);
    assert tail[..|moves| - n] == tail && moves[..|moves|] == moves;
    var after := End(s, moves[..n]);
    hide Run;
    forall j: nat ensures !WrittenAt(after, tail, j, topic) {
      if j < |tail| {
        TailPart(s, moves, n, n + j);
        assert !WrittenAt(s, moves, n + j, topic);
      }
    }
  }

  lemma {:induction false} ShiftedClears(s: System, moves: seq<Move>, i: nat, topic: string)
    requires i < |moves| && Possible(s, moves) && Possible(s, moves[..i]) && Possible(s, moves[..i + 1])
    requires End(s, moves[..i + 1]).sweeps == End(s, moves[..i]).sweeps
    ensures ClearedByListed(End(s, moves[..i + 1]), moves[i + 1..], topic) <==>
            exists k: nat, w: nat :: k > i && ClearedAt(s, moves, k, w, topic) && Listed(End(s, moves[..i]), w, topic)
  {
    hide Run;
    var after, tail := End(s, moves[..i + 1]), moves[i + 1..];
    if ClearedByListed(after, tail, topic) {
      var k: nat, w: nat :| ClearedAt(after, tail, k, w, topic) && Listed(after, w, topic);
      TailPart(s, moves, i + 1, i + 1 + k);
      assert ClearedAt(s, moves, i + 1 + k, w, topic);
    }
    if k: nat, w: nat :| k > i && ClearedAt(s, moves, k, w, topic) && Listed(End(s, moves[..i]), w, topic) {
      TailPart(s, moves, i + 1, k);
      assert ClearedAt(after, tail, k - i - 1, w, topic);
    }
  }

  lemma {:induction false} SoundThrough(s: System, moves: seq<Move>, topic: string)
    requires Sound(s, topic) && Possible(s, moves) && SteadyFor(moves, topic)
    ensures Sound(End(s, moves), topic)
  {
    if moves != [] {
      var front := moves[..|moves| - 1];
      assert SteadyFor(front, topic);
      SoundThrough(s, front, topic);
      StepOfTopic(End(s, front), moves[|moves| - 1], topic);
    }
  }

  // -------------------------------------------------------------- what is for good

  lemma {:induction false} UnlistedStands(s: System, moves: seq<Move>, topic: string, body: string)
    requires Sound(s, topic) && Stands(s, topic, body) && forall w: nat :: !Listed(s, w, topic)
    requires Possible(s, moves) && SteadyFor(moves, topic)
    ensures var e := End(s, moves);
      && Sound(e, topic) && (forall w: nat :: !Listed(e, w, topic))
      && exists last :: Stands(e, topic, last)
  {
    if moves == [] {
    } else {
      var front, m := moves[..|moves| - 1], moves[|moves| - 1];
      var before, e := End(s, front), End(s, moves);
      assert SteadyFor(front, topic);
      UnlistedStands(s, front, topic, body);
      StepOfTopic(before, m, topic);
      forall w: nat ensures !Listed(e, w, topic) {
        StepOfLists(before, m, w, topic);
      }
      var last :| Stands(before, topic, last);
      if ClearsNow(before, m, topic) {
        assert Listed(before, m.w, topic);
      } else if !WritesNow(before, m, topic) {
        assert Stands(e, topic, last);
      }
    }
  }

  /** Letting a sweep go on until it has come to a topic it lists. */
  lemma {:induction false} SweepComesToIt(s: System, w: nat, topic: string) returns (moves: seq<Move>)
    requires Sound(s, topic) && Listed(s, w, topic)
    ensures Possible(s, moves) && SteadyFor(moves, topic) && Missing(End(s, moves), topic)
    decreases |s.sweeps[w].todo|
  {
    var s1 := Moved(s, Clears(w));
    StepOfTopic(s, Clears(w), topic);
    OneMove(s, [], Clears(w));
    assert [] + [Clears(w)] == [Clears(w)];
    if s.sweeps[w].todo[0] == topic {
      moves := [Clears(w)];
    } else {
      var rest := SweepComesToIt(s1, w, topic);
      RunFromNext(s, Clears(w), rest);
      moves := [Clears(w)] + rest;
      forall i | 0 <= i < |moves| ensures SteadyMove(moves[i], topic) {
        assert i > 0 ==> moves[i] == rest[i - 1];
      }
    }
  }

  lemma {:induction false} RunFromNext(s: System, m: Move, rest: seq<Move>)
    requires Can(s, m)
    ensures Run(s, [m] + rest) == Run(Moved(s, m), rest)
  {
    var all := [m] + rest;
    if rest == [] {
      assert all[..0] == [] && all == [m];
      assert Run(s, []) == Some(s);
    } else {
      assert all[..|all| - 1] == [m] + rest[..|rest| - 1];
      RunFromNext(s, m, rest[..|rest| - 1]);
    }
  }

  /** A document that stands goes on standing whatever happens exactly when no sweep
      under way has it on its list. */
  lemma {:induction false} StandsForGoodIffUnlisted(s: System, topic: string, body: string)
    requires Sound(s, topic) && Stands(s, topic, body)
    ensures (forall moves: seq<Move> :: Possible(s, moves) && SteadyFor(moves, topic) ==>
        !Missing(End(s, moves), topic))
            <==> (forall w: nat :: !Listed(s, w, topic))
  {
    if w: nat :| Listed(s, w, topic) {
      var moves := SweepComesToIt(s, w, topic);
    } else {
      forall moves: seq<Move> | Possible(s, moves) && SteadyFor(moves, topic)
        ensures !Missing(End(s, moves), topic)
      {
        UnlistedStands(s, moves, topic, body);
      }
    }
  }

  /** Whatever a sweep lists is gone once it is through, unless it was written meanwhile. */
  lemma {:induction false} ListedIsCleared(s: System, moves: seq<Move>, w: nat, topic: string)
    requires Sound(s, topic) && Listed(s, w, topic)
    requires Possible(s, moves) && SteadyFor(moves, topic) && NotWritten(s, moves, topic)
    ensures var e := End(s, moves); Sound(e, topic) && (Listed(e, w, topic) || Missing(e, topic))
  {
    if moves == [] {
    } else {
      var front, m := moves[..|moves| - 1], moves[|moves| - 1];
      NotWrittenBefore(s, moves, topic);
      assert SteadyFor(front, topic);
      ListedIsCleared(s, front, w, topic);
      StepOfTopic(End(s, front), m, topic);
      StepOfLists(End(s, front), m, w, topic);
    }
  }
}
