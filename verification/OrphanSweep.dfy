/** One device's orphan sweep from the retained configs its window delivers to the
    broker's store afterwards (internal/coordinator/coordinator.go): both gates of
    Ownership, both claim sets of Discovery. */
module OrphanSweep {
  import opened Sequences
  import opened Ownership
  import HaRuntime
  import Discovery
  import DiscoveryLaws
  import opened DiscoveryRuns
  import opened DiscoveryHealing

  /** A retained config as the window delivers it. */
  datatype Delivered = Delivered(topic: ConfigTopic, payload: Payload)

  /** The instance, the serial the sweep is for and the discovery prefix. */
  datatype Scope = Scope(name: string, identity: string, sn: string, base: string)

  /** Topic levels hold no slash, and "device" is no platform. */
  ghost predicate Parsed(t: ConfigTopic) {
    && '/' !in t.nodeId && '/' !in t.platform && '/' !in t.objectId
    && (t.bundle ==> t.platform == "" && t.objectId == "")
    && (!t.bundle ==> t.platform != "device")
  }

  function PathOf(base: string, t: ConfigTopic): string {
    if t.bundle then DocumentPath(base, t.nodeId) else EntityPath(base, t.platform, t.objectId)
  }

  predicate Owned(s: Scope, d: Delivered) {
    OwnsDeviceConfigTopic(s.identity, s.sn, d.topic) && IsOwnConfig(s.name, s.identity, d.payload)
  }

  function OwnedPaths(s: Scope, window: seq<Delivered>): seq<string> {
    if window == [] then []
    else (if Owned(s, window[0]) then [PathOf(s.base, window[0].topic)] else []) + OwnedPaths(s, window[1..])
  }

  /** The window: Owns decides on the topic, Inspect on the payload. */
  method Collect(s: Scope, window: seq<Delivered>) returns (owned: seq<string>)
    ensures owned == OwnedPaths(s, window)
  {
    hide OwnsDeviceConfigTopic, IsOwnConfig, PathOf;
    owned := [];
    for i := 0 to |window|
      invariant OwnedPaths(s, window) == owned + OwnedPaths(s, window[i..])
    {
      assert window[i..][1..] == window[i + 1..];
      if OwnsDeviceConfigTopic(s.identity, s.sn, window[i].topic) {
        if IsOwnConfig(s.name, s.identity, window[i].payload) {
          owned := owned + [PathOf(s.base, window[i].topic)];
        }
      }
    }
    assert owned + [] == owned;
  }

  /** sweepOrphans: the window, then what nobody claims is retracted and forgotten. */
  method SweepDevice(d: Discovery.Discovery, s: Scope, window: seq<Delivered>, published: set<string>)
    modifies d, d.runtime
    ensures d.View() == Discovery.Swept(old(d.View()), OwnedPaths(s, window), published)
  {
    var owned := Collect(s, window);
    Discovery.SweepOrphans(d, owned, published);
  }

  lemma {:induction false} OwnedPathsHold(s: Scope, window: seq<Delivered>, path: string)
    ensures path in OwnedPaths(s, window) <==>
            exists w :: w in window && Owned(s, w) && PathOf(s.base, w.topic) == path
  {
    if window != [] {
      OwnedPathsHold(s, window[1..], path);
      if path in OwnedPaths(s, window[1..]) {
        var w :| w in window[1..] && Owned(s, w) && PathOf(s.base, w.topic) == path;
        assert w in window;
      }
    }
  }

  // -------------------------------------------------------------- telling topics apart

  lemma {:induction false} PathLevels(base: string, t: ConfigTopic)
    requires Parsed(t)
    ensures var levels := if t.bundle then ["device", t.nodeId, "config"] else [t.platform, t.objectId, "config"];
      && PathOf(base, t) == base + "/" + Join(levels, '/')
      && Split(Join(levels, '/'), '/') == levels
  {
    var a, b := if t.bundle then "device" else t.platform, if t.bundle then t.nodeId else t.objectId;
    JoinThree(a, b, "config");
    SplitOfJoin([a, b, "config"], '/');
    hide Join, Split;
    if t.bundle {
      assert "/device/" == "/" + "device" + "/" && base + "/device/" == base + "/" + "device" + "/";
    }
    assert PathOf(base, t) == base + "/" + a + "/" + b + "/config";
    hide PathOf;
    PathConcat(base, a, b, "config");
  }

  lemma {:induction false} PathConcat(base: string, a: string, b: string, c: string)
    ensures base + "/" + a + "/" + b + ("/" + c) == base + "/" + (a + "/" + (b + "/" + c))
  {
    var tail := "/" + c;
    ConcatAgain(base + "/", a + "/", b);
    ConcatAgain(a + "/", b, tail);
    ConcatAgain(base + "/", a + "/" + b, tail);
    ConcatAgain(b, "/", c);
    ConcatAgain(base + "/", a, "/");
  }

  lemma {:induction false} ConcatAgain(a: string, b: string, c: string)
    ensures (a + b) + c == a + (b + c)
  {
  }

  lemma {:induction false} JoinThree(a: string, b: string, c: string)
    ensures Join([a, b, c], '/') == a + "/" + (b + "/" + c)
  {
    assert [a, b, c][1..] == [b, c] && [b, c][1..] == [c];
    assert Join([b, c], '/') == b + ['/'] + c;
  }

  /** Two parsed topics a device may own have one path only if they are one. */
  lemma {:induction false} OnePathOneTopic(base: string, t: ConfigTopic, u: ConfigTopic)
    requires Parsed(t) && Parsed(u) && PathOf(base, t) == PathOf(base, u)
    requires !t.bundle ==> t.nodeId == ""
    requires !u.bundle ==> u.nodeId == ""
    ensures t == u
  {
    PathLevels(base, t);
    PathLevels(base, u);
    var a := if t.bundle then ["device", t.nodeId, "config"] else [t.platform, t.objectId, "config"];
    var b := if u.bundle then ["device", u.nodeId, "config"] else [u.platform, u.objectId, "config"];
    hide PathOf, Join, Split;
    PrefixUnderCommon(base + "/", Join(a, '/'), Join(b, '/'));
    assert a == b;
    assert a[0] == b[0] && a[1] == b[1];
  }

  // ------------------------------------------------------------------ what is swept

  /** On a lossless link a sweep removes exactly the delivered configs that are this
      device's by topic, this instance's by payload, not in the report just
      published and not written by this process. */
  lemma {:induction false} SweepRemovesExactlyOrphans(
    p: Discovery.Plane, s: Scope, window: seq<Delivered>, published: set<string>, path: string)
    requires HaRuntime.Lossless(p.link)
    ensures var after := Discovery.Swept(p, OwnedPaths(s, window), published).link.retained;
      path in after <==>
        && path in p.link.retained
        && !(path !in published && path !in p.link.declared
             && exists w :: w in window && Owned(s, w) && PathOf(s.base, w.topic) == path)
    ensures var after := Discovery.Swept(p, OwnedPaths(s, window), published).link.retained;
      path in after ==> after[path] == p.link.retained[path]
  {
    OwnedPathsHold(s, window, path);
    DiscoveryLaws.SweepIsExact(p, OwnedPaths(s, window), published);
    hide OwnedPaths, Discovery.Swept;
  }

  // ---------------------------------------------------- what is spared in every run

  /** What the window delivers under the topic is not owned. */
  ghost predicate NothingOwned(s: Scope, window: seq<Delivered>, t: ConfigTopic) {
    && (forall w :: w in window ==> Parsed(w.topic))
    && (forall w :: w in window && w.topic == t ==> !Owned(s, w))
  }

  lemma {:induction false} UnownedIsNotSeen(s: Scope, window: seq<Delivered>, t: ConfigTopic)
    requires Parsed(t) && (!t.bundle ==> t.nodeId == "") && NothingOwned(s, window, t)
    ensures PathOf(s.base, t) !in OwnedPaths(s, window)
  {
    OwnedPathsHold(s, window, PathOf(s.base, t));
    forall w | w in window && Owned(s, w) ensures PathOf(s.base, w.topic) != PathOf(s.base, t) {
      if PathOf(s.base, w.topic) == PathOf(s.base, t) {
        OnePathOneTopic(s.base, w.topic, t);
      }
    }
  }

  /** The sweeps of a run, each with its serial and window; of other moves, nothing. */
  ghost predicate SweepsOf(name: string, identity: string, base: string, moves: seq<Move>,
                           serials: seq<string>, windows: seq<seq<Delivered>>)
  {
    && |serials| == |windows| == |moves|
    && forall i :: 0 <= i < |moves| && moves[i].Claims? ==>
         moves[i].seen == OwnedPaths(Scope(name, identity, serials[i], base), windows[i])
  }

  /** A retained config of no claim to being ours: no document of ours stands there
      and no sweep is at it. */
  ghost predicate Foreign(s: System, moves: seq<Move>, path: string) {
    && Possible(s, moves) && NotWritten(s, moves, path)
    && Unsuperseded(s, path) && SteadyFor(moves, path)
    && forall w: nat :: !Listed(s, w, path)
  }

  /** In every run of reports and sweeps, of any units and on any connection, what
      another instance wrote stays as it is, wherever it stands. */
  lemma {:induction false} SiblingIsSpared(
    s: System, moves: seq<Move>, name: string, identity: string, base: string,
    serials: seq<string>, windows: seq<seq<Delivered>>, t: ConfigTopic, sibling: string, root: string)
    requires InstancePair(name, identity) && InstancePair(sibling, root) && root != identity
    requires SweepsOf(name, identity, base, moves, serials, windows)
    requires Parsed(t) && (!t.bundle ==> t.nodeId == "") && Foreign(s, moves, PathOf(base, t))
    requires forall i :: 0 <= i < |moves| ==> forall w :: w in windows[i] ==>
      Parsed(w.topic) && (w.topic == t ==> WrittenBy(sibling, root, w.payload))
    ensures Lookup(End(s, moves).plane.link.retained, PathOf(base, t)) == Lookup(s.plane.link.retained, PathOf(base, t))
  {
    forall i | 0 <= i < |moves| && moves[i].Claims? ensures PathOf(base, t) !in moves[i].seen {
      var scope := Scope(name, identity, serials[i], base);
      forall w | w in windows[i] && w.topic == t ensures !Owned(scope, w) {
        OwnershipNeverCrosses(name, identity, sibling, root, w.payload);
      }
      UnownedIsNotSeen(scope, windows[i], t);
    }
    UnseenIsKept(s, moves, PathOf(base, t));
  }

  /** In every run whose sweeps are all of one unit, on any connection, what is
      retained for another unit, a document or an old per-entity config, stays
      retained, as long as neither serial has an underscore. */
  lemma {:induction false} OtherUnitIsSpared(
    s: System, moves: seq<Move>, name: string, identity: string, base: string, sn: string,
    windows: seq<seq<Delivered>>, t: ConfigTopic,
    other: string, packSn: string, platform: string, leaf: string)
    requires Plain(sn) && Plain(other) && other != sn && platform != ""
    requires t == DocumentTopic(identity, other, packSn) || t == EntityTopic(platform, identity, other, packSn, leaf)
    requires SweepsOf(name, identity, base, moves, seq(|moves|, _ => sn), windows)
    requires Parsed(t) && forall i :: 0 <= i < |moves| ==> forall w :: w in windows[i] ==> Parsed(w.topic)
    requires Possible(s, moves) && Unsuperseded(s, PathOf(base, t)) && SteadyFor(moves, PathOf(base, t))
    requires forall w: nat :: !Listed(s, w, PathOf(base, t))
    ensures PathOf(base, t) in s.plane.link.retained ==> PathOf(base, t) in End(s, moves).plane.link.retained
  {
    DocumentClaims(identity, sn, other, packSn);
    EntityClaims(platform, identity, sn, other, packSn, leaf);
    forall i | 0 <= i < |moves| && moves[i].Claims? ensures PathOf(base, t) !in moves[i].seen {
      UnownedIsNotSeen(Scope(name, identity, sn, base), windows[i], t);
    }
    UnseenIsKept(s, moves, PathOf(base, t));
  }

  /** What cannot be read stays, wherever it stands. */
  lemma {:induction false} UnparsableIsKept(
    p: Discovery.Plane, s: Scope, window: seq<Delivered>, published: set<string>, path: string)
    requires HaRuntime.Lossless(p.link) && path in p.link.retained
    requires forall w :: w in window && PathOf(s.base, w.topic) == path ==> w.payload == Garbage
    ensures Lookup(Discovery.Swept(p, OwnedPaths(s, window), published).link.retained, path) ==
            Some(p.link.retained[path])
  {
    SweepRemovesExactlyOrphans(p, s, window, published, path);
    hide OwnedPaths, Discovery.Swept, OwnsDeviceConfigTopic;
  }
}
