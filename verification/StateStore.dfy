/** The notifying cache behind the diagnostic UI (internal/state/state.go). */
module StateStore {
  import opened Sequences

  datatype Entry = Entry(group: string, topic: string, packSn: string, name: string, unit: string, value: string)

  datatype Device = Device(sn: string, model: string, product: string, updatedAt: int, entries: seq<Entry>)

  /** at is 0 while unset. */
  datatype Problem = Problem(at: int, sn: string, event: string, detail: string)

  /** A unit as a snapshot lists it; without a report, by serial only. */
  datatype Listed = Listed(sn: string, report: Option<Device>, entries: seq<Entry>, online: Option<bool>)

  const MAX_PROBLEMS: nat := 20

  datatype Cache = Cache(
    devices: map<string, Device>,
    evcc: map<string, seq<Entry>>,
    online: map<string, bool>,
    upstream: Option<bool>,
    problems: seq<Problem>)

  const EMPTY := Cache(map[], map[], map[], None, [])

  /** What a mutator is called with. */
  datatype Change =
    | Update(sn: string, device: Device)
    | SetEvcc(sn: string, entries: seq<Entry>)
    | SetOnline(sn: string, online: bool)
    | SetUpstream(usable: bool)
    | AddProblem(problem: Problem)

  function Last<T>(s: seq<T>, n: nat): seq<T> {
    if |s| <= n then s else s[|s| - n..]
  }

  function Reversed<T>(s: seq<T>): seq<T> {
    if s == [] then [] else [s[|s| - 1]] + Reversed(s[..|s| - 1])
  }

  /** A mutator's section under the lock. */
  function Changed(c: Cache, change: Change): Cache {
    match change
    case Update(sn, device) => c.(devices := c.devices[sn := device])
    case SetEvcc(sn, entries) => c.(evcc := c.evcc[sn := entries])
    case SetOnline(sn, online) => c.(online := c.online[sn := online])
    case SetUpstream(usable) => c.(upstream := Some(usable))
    case AddProblem(p) => c.(problems := Last(c.problems + [p], MAX_PROBLEMS))
  }

  /** Whether the mutator then notifies. */
  function Notifies(c: Cache, change: Change): bool {
    match change
    case SetOnline(sn, online) => Lookup(c.online, sn) != Some(online)
    case SetUpstream(usable) => c.upstream != Some(usable)
    case _ => true
  }

  /** How a snapshot lists a known unit. */
  function ListedAs(c: Cache, sn: string): Listed {
    var extra := if sn in c.evcc then c.evcc[sn] else [];
    if sn in c.devices then Listed(sn, Some(c.devices[sn]), c.devices[sn].entries + extra, Lookup(c.online, sn))
    else Listed(sn, None, [], Lookup(c.online, sn))
  }

  class Store {
    var devices: map<string, Device>
    var evcc: map<string, seq<Entry>>
    var online: map<string, bool>
    var upstream: Option<bool>
    var problems: seq<Problem>
    /** Each subscription's channel holds at most one signal. */
    var subs: map<nat, bool>

    constructor ()
      ensures Held() == EMPTY && subs == map[]
    {
      devices, evcc, online, upstream, problems, subs := map[], map[], map[], None, [], map[];
    }

    ghost function Held(): Cache
      reads this
    {
      Cache(devices, evcc, online, upstream, problems)
    }

    method Update(sn: string, device: Device)
      modifies this
      ensures Held() == Changed(old(Held()), Change.Update(sn, device))
      ensures subs == map c | c in old(subs) :: true
    {
      devices := devices[sn := device];
      Notify();
    }

    method SetEvcc(sn: string, entries: seq<Entry>)
      modifies this
      ensures Held() == Changed(old(Held()), Change.SetEvcc(sn, entries))
      ensures subs == map c | c in old(subs) :: true
    {
      evcc := evcc[sn := entries];
      Notify();
    }

    method SetOnline(sn: string, on: bool)
      modifies this
      ensures Held() == Changed(old(Held()), Change.SetOnline(sn, on))
      ensures Notifies(old(Held()), Change.SetOnline(sn, on)) ==> subs == map c | c in old(subs) :: true
      ensures !Notifies(old(Held()), Change.SetOnline(sn, on)) ==> subs == old(subs)
    {
      var prev := Lookup(online, sn);
      online := online[sn := on];
      if prev == None || prev.value != on {
        Notify();
      }
    }

    method SetUpstream(usable: bool)
      modifies this
      ensures Held() == Changed(old(Held()), Change.SetUpstream(usable))
      ensures Notifies(old(Held()), Change.SetUpstream(usable)) ==> subs == map c | c in old(subs) :: true
      ensures !Notifies(old(Held()), Change.SetUpstream(usable)) ==> subs == old(subs)
    {
      var changed := upstream == None || upstream.value != usable;
      upstream := Some(usable);
      if changed {
        Notify();
      }
    }

    /** A problem without a time gets the current one. */
    method AddProblem(p: Problem, now: int)
      modifies this
      ensures Held() == Changed(old(Held()), Change.AddProblem(if p.at == 0 then p.(at := now) else p))
      ensures subs == map c | c in old(subs) :: true
    {
      problems := problems + [if p.at == 0 then p.(at := now) else p];
      var n := |problems| - MAX_PROBLEMS;
      if n > 0 {
        problems := problems[n..];
      }
      Notify();
    }

    /** The problem log, newest first: a copy, reversed in place. */
    method Problems() returns (out: seq<Problem>)
      ensures out == Reversed(problems)
    {
      out := problems;
      var i, j := 0, |out| - 1;
      while i < j
        invariant 0 <= i && i + j == |out| - 1 && |out| == |problems|
        invariant i <= j + 1
        invariant forall k :: 0 <= k < i ==> out[k] == problems[|problems| - 1 - k]
        invariant forall k :: j < k < |out| ==> out[k] == problems[|problems| - 1 - k]
        invariant forall k :: i <= k <= j ==> out[k] == problems[k]
      {
        out := out[i := out[j]][j := out[i]];
        i, j := i + 1, j - 1;
      }
      ReversedAt(problems);
    }

    /** Every known unit once; the order they are sorted into is not modelled. */
    method Snapshot() returns (devs: seq<Listed>)
      ensures NoDuplicates(devs)
      ensures forall d :: d in devs <==> d.sn in devices.Keys + online.Keys && d == ListedAs(Held(), d.sn)
    {
      devs := [];
      var left := devices.Keys;
      while left != {}
        invariant left <= devices.Keys
        invariant NoDuplicates(devs)
        invariant forall d :: d in devs <==> d.sn in devices.Keys - left && d == ListedAs(Held(), d.sn)
        decreases left
      {
        var sn :| sn in left;
        var d := devices[sn];
        var cp := Listed(sn, Some(d), d.entries, None);
        if sn in evcc && |evcc[sn]| > 0 {
          cp := cp.(entries := d.entries + evcc[sn]);
        }
        if sn in online {
          cp := cp.(online := Some(online[sn]));
        }
        assert cp == ListedAs(Held(), sn);
        devs := devs + [cp];
        left := left - {sn};
      }
      left := online.Keys;
      while left != {}
        invariant left <= online.Keys
        invariant NoDuplicates(devs)
        invariant forall d :: d in devs <==> d.sn in devices.Keys + (online.Keys - left) && d == ListedAs(Held(), d.sn)
        decreases left
      {
        var sn :| sn in left;
        if sn !in devices {
          devs := devs + [Listed(sn, None, [], Some(online[sn]))];
        }
        left := left - {sn};
      }
    }

    /** Signals every subscription without waiting: a full channel is left full. */
    method Notify()
      modifies this`subs
      ensures subs == map c | c in old(subs) :: true
    {
      var left := subs.Keys;
      while left != {}
        invariant left <= subs.Keys == old(subs.Keys)
        invariant forall c :: c in subs ==> subs[c] == (c !in left || old(subs)[c])
        decreases left
      {
        var c :| c in left;
        if !subs[c] {
          subs := subs[c := true];
        }
        left := left - {c};
      }
    }
  }

  lemma {:induction false} ReversedAt<T>(s: seq<T>)
    ensures |Reversed(s)| == |s|
    ensures forall k :: 0 <= k < |s| ==> Reversed(s)[k] == s[|s| - 1 - k]
  {
    if s != [] {
      ReversedAt(s[..|s| - 1]);
    }
  }

  // --------------------------------------------------------------- every history

  function Cached(history: seq<Change>): Cache {
    if history == [] then EMPTY else Changed(Cached(history[..|history| - 1]), history[|history| - 1])
  }

  function Additions(history: seq<Change>): seq<Problem> {
    if history == [] then []
    else
      var last := history[|history| - 1];
      Additions(history[..|history| - 1]) + if last.AddProblem? then [last.problem] else []
  }

  /** Whatever else happens in between, the log is the last twenty additions. */
  lemma {:induction false} LogIsTheLatest(history: seq<Change>)
    ensures Cached(history).problems == Last(Additions(history), MAX_PROBLEMS)
  {
    if history != [] {
      var front, last := history[..|history| - 1], history[|history| - 1];
      LogIsTheLatest(front);
      assert Additions(front) + [] == Additions(front);
      if last.AddProblem? {
        LastOfLast(Additions(front), last.problem, MAX_PROBLEMS);
      }
    }
  }

  lemma {:induction false} LastOfLast<T>(s: seq<T>, x: T, n: nat)
    ensures Last(Last(s, n) + [x], n) == Last(s + [x], n)
  {
  }

  /** Problems, in those terms: entry k is the k-th addition before the latest one. */
  lemma {:induction false} ProblemsNewestFirst(history: seq<Change>)
    ensures var out, added := Reversed(Cached(history).problems), Additions(history);
      && |out| == (if |added| < MAX_PROBLEMS then |added| else MAX_PROBLEMS)
      && forall k :: 0 <= k < |out| ==> out[k] == added[|added| - 1 - k]
  {
    LogIsTheLatest(history);
    ReversedAt(Cached(history).problems);
  }

  // ------------------------------------------------- subscribers and their signals

  /** What a subscriber's goroutine holds: whether its channel is full, whether it
      took a signal it has not looked after yet, and what it saw last; a new one
      counts as having seen the cache it subscribed to. */
  datatype Subscriber = Subscriber(signalled: bool, woken: bool, saw: Cache)

  /** owing: mutators past their section and before notify's lock.
      round: the subscriptions a notify under way has still to reach. */
  datatype System = System(cache: Cache, subs: map<nat, Subscriber>, owing: nat, round: Option<set<nat>>)

  const FRESH := System(EMPTY, map[], 0, None)

  datatype Move =
    | Mutates(change: Change)
    | BeginsRound
    | Signals(c: nat)
    | EndsRound
    | Subscribes(c: nat)
    | Cancels(c: nat)
    | Receives(c: nat)
    | Looks(c: nat)

  ghost predicate Can(s: System, m: Move) {
    match m
    case Mutates(_) => true
    case BeginsRound => s.owing > 0 && s.round == None
    case Signals(c) => s.round.Some? && c in s.round.value && c in s.subs
    case EndsRound => s.round == Some({})
    case Subscribes(c) => s.round == None && c !in s.subs
    case Cancels(c) => s.round == None && c in s.subs
    case Receives(c) => c in s.subs && s.subs[c].signalled && !s.subs[c].woken
    case Looks(c) => c in s.subs
  }

  ghost function Moved(s: System, m: Move): System
    requires Can(s, m)
  {
    match m
    case Mutates(change) =>
      s.(cache := Changed(s.cache, change), owing := s.owing + if Notifies(s.cache, change) then 1 else 0)
    case BeginsRound => s.(owing := s.owing - 1, round := Some(s.subs.Keys))
    case Signals(c) =>
      s.(subs := s.subs[c := s.subs[c].(signalled := true)], round := Some(s.round.value - {c}))
    case EndsRound => s.(round := None)
    case Subscribes(c) => s.(subs := s.subs[c := Subscriber(false, false, s.cache)])
    case Cancels(c) => s.(subs := s.subs - {c})
    case Receives(c) => s.(subs := s.subs[c := s.subs[c].(signalled := false, woken := true)])
    case Looks(c) => s.(subs := s.subs[c := s.subs[c].(woken := false, saw := s.cache)])
  }

  ghost function Run(moves: seq<Move>): Option<System> {
    if moves == [] then Some(FRESH)
    else
      var before, m := Run(moves[..|moves| - 1]), moves[|moves| - 1];
      if before.Some? && Can(before.value, m) then Some(Moved(before.value, m)) else None
  }

  /** Something will still make the subscriber look. */
  ghost predicate WillLook(s: System, c: nat)
    requires c in s.subs
  {
    || s.subs[c].signalled || s.subs[c].woken || s.owing > 0
    || (s.round.Some? && c in s.round.value)
  }

  ghost predicate NoLostWakeUp(s: System) {
    && (forall c :: c in s.subs ==> s.subs[c].saw == s.cache || WillLook(s, c))
    && (s.round.Some? ==> s.round.value <= s.subs.Keys)
  }

  /** A mutator that does not notify has changed nothing. */
  lemma {:induction false} SilentMeansUnchanged(c: Cache, change: Change)
    ensures !Notifies(c, change) ==> Changed(c, change) == c
  {
    if change.SetOnline? && !Notifies(c, change) {
      assert c.online[change.sn := change.online] == c.online;
    }
  }

  lemma {:induction false} MoveKeepsWakeUps(s: System, m: Move)
    requires NoLostWakeUp(s) && Can(s, m)
    ensures NoLostWakeUp(Moved(s, m))
  {
    var s' := Moved(s, m);
    if m.Mutates? {
      SilentMeansUnchanged(s.cache, m.change);
    }
    forall c | c in s'.subs ensures s'.subs[c].saw == s'.cache || WillLook(s', c) {
      if !m.Subscribes? {
        assert s.subs[c].saw == s.cache || WillLook(s, c);
      }
    }
  }

  /** In every interleaving of mutators, notifications and receivers, a subscriber
      that has not seen the current cache has a signal waiting, is about to look, or
      somebody still has to signal it. */
  lemma {:induction false} NoWakeUpIsLost(moves: seq<Move>)
    requires Run(moves).Some?
    ensures NoLostWakeUp(Run(moves).value)
  {
    if moves != [] {
      NoWakeUpIsLost(moves[..|moves| - 1]);
      MoveKeepsWakeUps(Run(moves[..|moves| - 1]).value, moves[|moves| - 1]);
    }
  }

  ghost predicate AtRest(s: System) {
    s.owing == 0 && s.round == None && forall c :: c in s.subs ==> !s.subs[c].signalled && !s.subs[c].woken
  }

  /** When nothing is left to do, every subscriber has seen the cache as it is. */
  lemma {:induction false} AtRestAllHaveSeen(moves: seq<Move>)
    requires Run(moves).Some? && AtRest(Run(moves).value)
    ensures var s := Run(moves).value; forall c :: c in s.subs ==> s.subs[c].saw == s.cache
  {
    NoWakeUpIsLost(moves);
  }

  // ------------------------------------------------------- what the latest call says

  /** d is about the same thing as c. */
  ghost predicate Supersedes(c: Change, d: Change) {
    || (c.Update? && d.Update? && c.sn == d.sn)
    || (c.SetEvcc? && d.SetEvcc? && c.sn == d.sn)
    || (c.SetOnline? && d.SetOnline? && c.sn == d.sn)
    || (c.SetUpstream? && d.SetUpstream?)
  }

  /** Of each unit the latest report, the latest evcc entries and the latest word whether
      it is online stand, whatever else came after them. */
  lemma {:induction false} LatestStands(before: seq<Change>, c: Change, after: seq<Change>)
    requires forall i :: 0 <= i < |after| ==> !Supersedes(c, after[i])
    ensures var cache := Cached(before + [c] + after);
      && (c.Update? ==> Lookup(cache.devices, c.sn) == Some(c.device))
      && (c.SetEvcc? ==> Lookup(cache.evcc, c.sn) == Some(c.entries))
      && (c.SetOnline? ==> Lookup(cache.online, c.sn) == Some(c.online))
      && (c.SetUpstream? ==> cache.upstream == Some(c.usable))
    ensures var cache := Cached(after);
      && (c.Update? ==> Lookup(cache.devices, c.sn) == None)
      && (c.SetEvcc? ==> Lookup(cache.evcc, c.sn) == None)
      && (c.SetOnline? ==> Lookup(cache.online, c.sn) == None)
      && (c.SetUpstream? ==> cache.upstream == None)
  {
    var all := before + [c] + after;
    if after == [] {
      assert all == before + [c] && all[..|before|] == before;
    } else {
      var front, last := after[..|after| - 1], after[|after| - 1];
      assert all[..|all| - 1] == before + [c] + front && all[|all| - 1] == last;
      LatestStands(before, c, front);
      hide Last;
    }
  }

  /** A unit in the list: its report, the report's entries with those of the evcc profile
      behind them, and whether it is online; a unit without a report is listed with no
      entries. */
  lemma {:induction false} ListedSpelled(c: Cache, sn: string)
    ensures var l := ListedAs(c, sn);
      && l.sn == sn && l.report == Lookup(c.devices, sn) && l.online == Lookup(c.online, sn)
    ensures var l := ListedAs(c, sn);
      && (sn !in c.devices ==> l.entries == [])
      && (sn in c.devices && sn !in c.evcc ==> l.entries == c.devices[sn].entries)
      && (sn in c.devices && sn in c.evcc ==>
          var own, extra := c.devices[sn].entries, c.evcc[sn];
          && |l.entries| == |own| + |extra|
          && (forall i :: 0 <= i < |own| ==> l.entries[i] == own[i])
          && (forall i :: 0 <= i < |extra| ==> l.entries[|own| + i] == extra[i]))
  {
  }

  /** The log holds twenty problems at most, and a problem is what an AddProblem adds. */
  lemma {:induction false} LogSpelled(history: seq<Change>, last: Change)
    ensures |Cached(history).problems| <= 20
    ensures |Additions(history)| <= 20 ==> Cached(history).problems == Additions(history)
    ensures Additions(history + [last]) == Additions(history) + if last.AddProblem? then [last.problem] else []
  {
    LogIsTheLatest(history);
    assert (history + [last])[..|history|] == history;
  }

  /** Setting a level notifies exactly when that changes something; reports, evcc entries
      and problems always do. */
  lemma {:induction false} NotifiesIffChanged(c: Cache, change: Change)
    ensures change.SetOnline? || change.SetUpstream? ==> (Notifies(c, change) <==> Changed(c, change) != c)
    ensures change.Update? || change.SetEvcc? || change.AddProblem? ==> Notifies(c, change)
  {
    SilentMeansUnchanged(c, change);
    if change.SetOnline? && Notifies(c, change) {
      assert Lookup(Changed(c, change).online, change.sn) != Lookup(c.online, change.sn);
    }
  }
}
