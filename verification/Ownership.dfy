/** Whose retained config is it? The two gates of the orphan sweep
    (internal/hass/cleanup.go), over the identity strings of
    internal/hass/discovery.go and internal/harender/harender.go. */
module Ownership {
  import Sequences

  datatype Component = Component(uniqueId: string, stateTopic: string)

  /** A retained payload: no JSON object, or the identity it carries itself and
      those of its components. */
  datatype Payload = Garbage | Config(own: Component, components: seq<Component>)

  predicate HasPrefix(s: string, prefix: string) {
    prefix <= s
  }

  predicate OwnsIdentity(name: string, identity: string, c: Component) {
    && HasPrefix(c.uniqueId, identity + "_")
    && (c.stateTopic == "" || HasPrefix(c.stateTopic, name + "/") || HasPrefix(c.stateTopic, identity + "/"))
  }

  predicate IsOwnConfig(name: string, identity: string, payload: Payload) {
    match payload
    case Garbage => false
    case Config(own, components) =>
      if |components| > 0 then forall c :: c in components ==> OwnsIdentity(name, identity, c)
      else OwnsIdentity(name, identity, own)
  }

  // ------------------------------------------------------------ other instances

  /** A configured instance has its topic name as identity root; one that never
      set it has these two. */
  predicate InstancePair(name: string, identity: string) {
    name == identity || (name == "zendure" && identity == "zendure2mqtt")
  }

  predicate EntityOf(root: string, c: Component) {
    HasPrefix(c.uniqueId, root + "_") && HasPrefix(c.stateTopic, root + "/")
  }

  /** An entity of the instance of that name and identity root: its unique_id is
      under the root, its state topic under the name or, in a config older releases
      left, under the root. */
  ghost predicate EntityOfInstance(name: string, root: string, c: Component) {
    && HasPrefix(c.uniqueId, root + "_")
    && (HasPrefix(c.stateTopic, name + "/") || HasPrefix(c.stateTopic, root + "/"))
  }

  /** Every entity in the payload is one of that instance. */
  ghost predicate WrittenBy(name: string, root: string, payload: Payload) {
    payload.Config? &&
    if |payload.components| > 0 then forall c :: c in payload.components ==> EntityOfInstance(name, root, c)
    else EntityOfInstance(name, root, payload.own)
  }

  /** Every state topic in the payload is under our name or our identity root. */
  ghost predicate UnderUs(name: string, identity: string, payload: Payload) {
    payload.Config? &&
    if |payload.components| > 0 then forall c :: c in payload.components ==> StateUnderUs(name, identity, c)
    else StateUnderUs(name, identity, payload.own)
  }

  ghost predicate StateUnderUs(name: string, identity: string, c: Component) {
    HasPrefix(c.stateTopic, name + "/") || HasPrefix(c.stateTopic, identity + "/")
  }

  /** What a prefix ending in one more character says about a string. */
  lemma {:induction false} PrefixChars(s: string, part: string, last: char)
    requires HasPrefix(s, part + [last])
    ensures |part| < |s| && s[|part|] == last && s[..|part|] == part
    ensures forall i :: 0 <= i < |part| ==> s[i] == part[i]
  {
    var whole := part + [last];
    assert s[|part|] == whole[|part|];
    assert forall i :: 0 <= i < |part| ==> s[i] == whole[i];
  }

  lemma {:induction false} RootNotShorter(a: string, b: string, c: Component)
    requires EntityOf(a, c) && EntityOf(b, c)
    ensures |a| >= |b|
  {
    PrefixChars(c.uniqueId, a, '_');
    PrefixChars(c.uniqueId, b, '_');
    PrefixChars(c.stateTopic, a, '/');
    PrefixChars(c.stateTopic, b, '/');
  }

  /** Two roots in front of one unique_id and of one state topic are the same:
      what follows the shorter one would have to be two different characters. */
  lemma {:induction false} RootsAgree(a: string, b: string, c: Component)
    requires EntityOf(a, c) && EntityOf(b, c)
    ensures a == b
  {
    RootNotShorter(a, b, c);
    RootNotShorter(b, a, c);
    PrefixChars(c.uniqueId, a, '_');
    PrefixChars(c.uniqueId, b, '_');
  }

  /** The default name is no prefix trap either: nothing whose unique_id is under the
      default identity and under another root has its state topic under the default
      name and under that other root. */
  lemma {:induction false} DefaultNameAgrees(root: string, c: Component)
    requires HasPrefix(c.uniqueId, root + "_") && HasPrefix(c.uniqueId, "zendure2mqtt" + "_")
    requires HasPrefix(c.stateTopic, "zendure" + "/")
    ensures !HasPrefix(c.stateTopic, root + "/")
  {
    PrefixChars(c.uniqueId, "zendure2mqtt", '_');
    PrefixChars(c.uniqueId, root, '_');
    PrefixChars(c.stateTopic, "zendure", '/');
    if HasPrefix(c.stateTopic, root + "/") {
      PrefixChars(c.stateTopic, root, '/');
    }
  }

  lemma {:induction false} SiblingEntity(name: string, identity: string, sibling: string, root: string, c: Component)
    requires InstancePair(name, identity) && InstancePair(sibling, root) && EntityOfInstance(sibling, root, c)
    ensures OwnsIdentity(name, identity, c) <==> root == identity && StateUnderUs(name, identity, c)
  {
    if OwnsIdentity(name, identity, c) {
      assert c.stateTopic != "";
      SiblingRoots(name, identity, sibling, root, c);
    }
  }

  lemma {:induction false} SiblingRoots(name: string, identity: string, sibling: string, root: string, c: Component)
    requires InstancePair(name, identity) && InstancePair(sibling, root) && EntityOfInstance(sibling, root, c)
    requires HasPrefix(c.uniqueId, identity + "_") && StateUnderUs(name, identity, c)
    ensures root == identity
  {
    if HasPrefix(c.stateTopic, root + "/") {
      if HasPrefix(c.stateTopic, identity + "/") {
        RootsAgree(identity, root, c);
      } else {
        DefaultNameAgrees(root, c);
      }
    } else if root != identity {
      if HasPrefix(c.stateTopic, identity + "/") {
        DefaultNameAgrees(identity, c);
      }
    }
  }

  /** A payload another instance wrote, on the default pair or any other, is judged our
      own if and only if its identity root is ours and its state topics are under us:
      not if the root is nested under ours by a slash, extends it by an underscore, or
      is anything else. */
  lemma {:induction false} OwnershipNeverCrosses(
    name: string, identity: string, sibling: string, root: string, payload: Payload)
    requires InstancePair(name, identity) && InstancePair(sibling, root) && WrittenBy(sibling, root, payload)
    ensures IsOwnConfig(name, identity, payload) <==> root == identity && UnderUs(name, identity, payload)
  {
    if |payload.components| > 0 {
      forall c | c in payload.components
        ensures OwnsIdentity(name, identity, c) <==> root == identity && StateUnderUs(name, identity, c)
      {
        SiblingEntity(name, identity, sibling, root, c);
      }
      assert payload.components[0] in payload.components;
    } else {
      SiblingEntity(name, identity, sibling, root, payload.own);
    }
  }

  /** When one name and an underscore begin what another name and an underscore begin:
      the names are one, the longer extends the shorter by an underscore, and if ours is
      the longer, by what follows the other. */
  lemma {:induction false} UnderNameIff(own: string, name: string, rest: string)
    ensures HasPrefix(name + "_" + rest, own + "_") <==>
            || name == own
            || HasPrefix(name, own + "_")
            || (HasPrefix(own, name + "_") && HasPrefix(rest, own[|name| + 1..] + "_"))
  {
    var whole, prefix := name + "_" + rest, own + "_";
    if |own| < |name| {
      assert whole[..|prefix|] == name[..|prefix|];
    } else if |own| == |name| {
      assert whole[..|name|] == name && prefix[..|name|] == own;
    } else {
      assert whole[..|name| + 1] == name + "_";
      if HasPrefix(whole, prefix) {
        PrefixChars(whole, own, '_');
        assert own[..|name| + 1] == name + "_";
      }
      if HasPrefix(own, name + "_") {
        var more := own[|name| + 1..];
        assert prefix == (name + "_") + (more + "_");
        PrefixUnderCommon(name + "_", rest, more + "_");
      }
    }
  }

  /** Without a state topic only the unique_id speaks: an entity of another root is
      taken for ours exactly when its root is ours, extends ours by an underscore, or
      ours extends it by what the rest of the unique_id goes on with. */
  lemma {:induction false} StatelessIsOursIff(name: string, identity: string, root: string, rest: string)
    ensures OwnsIdentity(name, identity, Component(root + "_" + rest, "")) <==>
            || root == identity
            || HasPrefix(root, identity + "_")
            || (HasPrefix(identity, root + "_") && HasPrefix(rest, identity[|root| + 1..] + "_"))
  {
    UnderNameIff(identity, root, rest);
  }

  /** So an entity without one, of a sibling named a_b, is taken for one of a. */
  lemma {:induction false} StatelessSiblingIsTaken()
    ensures IsOwnConfig("a", "a", Config(Component("a_b_SN_leaf", ""), []))
  {
    assert "a_b_SN_leaf" == "a_b" + "_" + "SN_leaf";
    StatelessIsOursIff("a", "a", "a_b", "SN_leaf");
  }

  // -------------------------------------------------------------- topics of units

  /** A parsed retained config topic. */
  datatype ConfigTopic = ConfigTopic(bundle: bool, platform: string, nodeId: string, objectId: string)

  predicate OwnsDeviceConfigTopic(identity: string, sn: string, t: ConfigTopic) {
    var device := identity + "_" + sn;
    if t.bundle then t.nodeId == device || HasPrefix(t.nodeId, device + "_pack_")
    else if t.platform == "" || t.nodeId != "" || t.objectId == "" then false
    else HasPrefix(t.objectId, device + "_")
  }

  function UniqueId(root: string, sn: string, packSn: string, leaf: string): string {
    if packSn != "" then root + "_" + sn + "_pack_" + packSn + "_" + leaf
    else root + "_" + sn + "_" + leaf
  }

  function NodeId(root: string, sn: string, packSn: string): string {
    if packSn == "" then root + "_" + sn else root + "_" + sn + "_pack_" + packSn
  }

  function DocumentTopic(identity: string, sn: string, packSn: string): ConfigTopic {
    ConfigTopic(true, "", NodeId(identity, sn, packSn), "")
  }

  function EntityTopic(platform: string, identity: string, sn: string, packSn: string, leaf: string): ConfigTopic {
    ConfigTopic(false, platform, "", UniqueId(identity, sn, packSn, leaf))
  }

  ghost predicate Plain(s: string) {
    '_' !in s
  }

  /** Up to its first underscore a string is one plain part and no other. */
  lemma {:induction false} PlainPartUnique(a: string, b: string, whole: string)
    requires Plain(a) && Plain(b)
    requires HasPrefix(whole, a + "_") && HasPrefix(whole, b + "_")
    ensures a == b
  {
    PrefixChars(whole, a, '_');
    PrefixChars(whole, b, '_');
  }

  lemma {:induction false} PrefixUnderCommon(common: string, a: string, b: string)
    ensures HasPrefix(common + a, common + b) <==> HasPrefix(a, b)
    ensures common + a == common + b <==> a == b
  {
    if HasPrefix(common + a, common + b) {
      assert (common + a)[|common|..] == a && (common + b)[|common|..] == b;
    }
    if common + a == common + b {
      assert a == (common + a)[|common|..] == b;
    }
  }

  /** For serials without an underscore a device claims its own document and
      every pack's, and none of another device. */
  lemma {:induction false} DocumentClaims(identity: string, sn: string, other: string, packSn: string)
    requires Plain(sn) && Plain(other)
    ensures OwnsDeviceConfigTopic(identity, sn, DocumentTopic(identity, other, packSn)) <==> sn == other
  {
    var root := identity + "_";
    var tail := if packSn == "" then other else other + "_pack_" + packSn;
    assert NodeId(identity, other, packSn) == root + tail;
    PrefixUnderCommon(root, tail, sn);
    PrefixUnderCommon(root, tail, sn + "_pack_");
    assert root + (sn + "_pack_") == identity + "_" + sn + "_pack_";
    if packSn == "" {
      PlainNoPack(sn, other);
    } else {
      assert tail == (other + "_") + ("pack_" + packSn);
      PackTail(sn, other, packSn);
    }
  }

  lemma {:induction false} PlainNoPack(sn: string, other: string)
    requires Plain(other)
    ensures !HasPrefix(other, sn + "_pack_")
  {
    if HasPrefix(other, sn + "_pack_") {
      assert HasPrefix(sn + "_pack_", sn + "_");
      PrefixChars(other, sn, '_');
    }
  }

  lemma {:induction false} PackTail(sn: string, other: string, packSn: string)
    requires Plain(sn) && Plain(other)
    ensures var tail := other + "_pack_" + packSn;
      && tail != sn
      && (HasPrefix(tail, sn + "_pack_") <==> sn == other)
  {
    var tail := other + "_pack_" + packSn;
    assert tail == (other + "_") + ("pack_" + packSn);
    PrefixChars(tail, other, '_');
    assert tail[|other|] in tail;
    if HasPrefix(tail, sn + "_pack_") {
      assert HasPrefix(sn + "_pack_", sn + "_");
      PlainPartUnique(sn, other, tail);
    }
  }

  /** The same for the per-entity configs older releases left. */
  lemma {:induction false} EntityClaims(
      platform: string, identity: string, sn: string, other: string, packSn: string, leaf: string)
    requires Plain(sn) && Plain(other) && platform != ""
    ensures OwnsDeviceConfigTopic(identity, sn, EntityTopic(platform, identity, other, packSn, leaf)) <==> sn == other
  {
    var id, root := UniqueId(identity, other, packSn, leaf), identity + "_";
    var tail := if packSn == "" then other + "_" + leaf else other + "_pack_" + packSn + "_" + leaf;
    assert id == root + tail;
    PrefixUnderCommon(root, tail, sn + "_");
    assert root + (sn + "_") == identity + "_" + sn + "_";
    assert tail == (other + "_") + tail[|other| + 1..];
    if HasPrefix(tail, sn + "_") {
      PlainPartUnique(sn, other, tail);
    }
  }

  /** What follows the serial in an entity's unique_id. */
  function AfterSerial(packSn: string, leaf: string): string {
    if packSn != "" then "pack_" + packSn + "_" + leaf else leaf
  }

  /** For all serials: a per-entity config of another unit is claimed exactly when its
      serial is this one, extends it by an underscore, or this one extends it by what
      follows the serial there. */
  lemma {:induction false} EntityIsClaimedIff(
      platform: string, identity: string, sn: string, other: string, packSn: string, leaf: string)
    requires platform != ""
    ensures OwnsDeviceConfigTopic(identity, sn, EntityTopic(platform, identity, other, packSn, leaf)) <==>
            || other == sn
            || HasPrefix(other, sn + "_")
            || (HasPrefix(sn, other + "_") && HasPrefix(AfterSerial(packSn, leaf), sn[|other| + 1..] + "_"))
  {
    var common, rest := identity + "_", AfterSerial(packSn, leaf);
    assert UniqueId(identity, other, packSn, leaf) == common + (other + "_" + rest) by {
      if packSn != "" {
        assert "_pack_" == "_" + "pack_";
      }
    }
    assert identity + "_" + sn + "_" == common + (sn + "_");
    PrefixUnderCommon(common, other + "_" + rest, sn + "_");
    UnderNameIff(sn, other, rest);
  }

  /** And a document, the unit's own or a pack's, exactly when what follows the identity
      is this serial, or begins with it and the infix. */
  lemma {:induction false} DocumentIsClaimedIff(identity: string, sn: string, other: string, packSn: string)
    ensures var tail := if packSn == "" then other else other + "_pack_" + packSn;
      OwnsDeviceConfigTopic(identity, sn, DocumentTopic(identity, other, packSn)) <==>
      tail == sn || HasPrefix(tail, sn + "_pack_")
  {
    var common, tail := identity + "_", if packSn == "" then other else other + "_pack_" + packSn;
    assert NodeId(identity, other, packSn) == common + tail;
    assert identity + "_" + sn == common + sn && identity + "_" + sn + "_pack_" == common + (sn + "_pack_");
    PrefixUnderCommon(common, tail, sn);
    PrefixUnderCommon(common, sn, tail);
    PrefixUnderCommon(common, tail, sn + "_pack_");
  }

  /** A serial that extends this one by an underscore is claimed with it. */
  lemma {:induction false} UnderscoredSerialIsClaimed(
      platform: string, identity: string, sn: string, more: string, leaf: string)
    requires platform != ""
    ensures OwnsDeviceConfigTopic(identity, sn, EntityTopic(platform, identity, sn + "_" + more, "", leaf))
  {
    var id := UniqueId(identity, sn + "_" + more, "", leaf);
    assert id == (identity + "_" + sn + "_") + (more + "_" + leaf);
  }

  // ------------------------------------------------------------- identity strings

  /** A pack's entity has the unique_id of an entity of its unit exactly when the
      unit's leaf spells out that battery and its leaf. */
  lemma {:induction false} UniqueIdClash(root: string, sn: string, leaf: string, packSn: string, packLeaf: string)
    requires packSn != ""
    ensures UniqueId(root, sn, "", leaf) == UniqueId(root, sn, packSn, packLeaf) <==>
        leaf == "pack_" + packSn + "_" + packLeaf
  {
    var common, tail := root + "_" + sn + "_", "pack_" + packSn + "_" + packLeaf;
    assert UniqueId(root, sn, packSn, packLeaf) == common + tail;
    PrefixUnderCommon(common, leaf, tail);
  }

  /** Two packs with plain serials never share one. */
  lemma {:induction false} PackIdsDistinct(root: string, sn: string, a: string, leafA: string, b: string, leafB: string)
    requires a != "" && b != "" && Plain(a) && Plain(b)
    ensures UniqueId(root, sn, a, leafA) == UniqueId(root, sn, b, leafB) <==> a == b && leafA == leafB
  {
    var common := root + "_" + sn + "_pack_";
    var tailA, tailB := a + "_" + leafA, b + "_" + leafB;
    assert UniqueId(root, sn, a, leafA) == common + tailA && UniqueId(root, sn, b, leafB) == common + tailB;
    PrefixUnderCommon(common, tailA, tailB);
    if tailA == tailB {
      assert tailA[..|a| + 1] == a + "_" && tailB[..|b| + 1] == b + "_";
      PlainPartUnique(a, b, tailA);
      assert leafA == tailA[|a| + 1..] && leafB == tailB[|b| + 1..];
    }
  }

  /** Documents of two roots may still share a topic: a pack of ours has the node id of a
      unit of an instance whose root spells out ours, the unit and the infix. */
  lemma {:induction false} NodeIdClash(root: string, sn: string, packSn: string)
    requires packSn != ""
    ensures NodeId(root, sn, packSn) == NodeId(root + "_" + sn + "_pack", packSn, "")
  {
    assert root + "_" + sn + "_pack_" + packSn == root + "_" + sn + "_pack" + "_" + packSn;
  }

  const PLATFORMS := {"sensor", "binary_sensor", "number", "select", "switch"}

  function DocumentPath(base: string, node: string): string {
    base + "/device/" + node + "/config"
  }

  function EntityPath(base: string, platform: string, uniqueId: string): string {
    base + "/" + platform + "/" + uniqueId + "/config"
  }

  /** No document stands where a per-entity config stood. */
  lemma {:induction false} PathsApart(base: string, node: string, platform: string, uniqueId: string)
    requires platform in PLATFORMS
    ensures DocumentPath(base, node) != EntityPath(base, platform, uniqueId)
  {
    var tail, tail' := "device/" + node + "/config", platform + "/" + uniqueId + "/config";
    assert DocumentPath(base, node) == (base + "/") + tail;
    assert EntityPath(base, platform, uniqueId) == (base + "/") + tail';
    PrefixUnderCommon(base + "/", tail, tail');
    assert tail[0] == 'd' && tail'[0] == platform[0] != 'd';
  }

  // ------------------------------------------------------------------ spelled out

  lemma {:induction false} PrefixSpelled(s: string, prefix: string)
    ensures HasPrefix(s, prefix) <==> exists rest :: s == prefix + rest
  {
    if HasPrefix(s, prefix) {
      assert s == prefix + s[|prefix|..];
    }
  }

  /** A pair of identities is ours: a unique_id of our root, and a state topic of our name
      or root where there is one. */
  lemma {:induction false} IdentitySpelled(name: string, identity: string, uniqueId: string, stateTopic: string)
    ensures OwnsIdentity(name, identity, Component(uniqueId, stateTopic)) <==>
            && (exists rest :: uniqueId == identity + "_" + rest)
            && (|| stateTopic == ""
                || (exists rest :: stateTopic == name + "/" + rest)
                || (exists rest :: stateTopic == identity + "/" + rest))
  {
    PrefixSpelled(uniqueId, identity + "_");
    PrefixSpelled(stateTopic, name + "/");
    PrefixSpelled(stateTopic, identity + "/");
    hide HasPrefix;
  }

  /** A payload is ours by all its components, by its own pair when it has none, and never
      when it cannot be read. */
  lemma {:induction false} PayloadSpelled(name: string, identity: string, own: Component, components: seq<Component>)
    ensures !IsOwnConfig(name, identity, Garbage)
    ensures IsOwnConfig(name, identity, Config(own, [])) <==> OwnsIdentity(name, identity, own)
    ensures components != [] ==>
      (IsOwnConfig(name, identity, Config(own, components)) <==>
       forall i :: 0 <= i < |components| ==> OwnsIdentity(name, identity, components[i]))
  {
    hide OwnsIdentity;
    if components != [] && forall i :: 0 <= i < |components| ==> OwnsIdentity(name, identity, components[i]) {
      assert forall c :: c in components ==> exists i :: 0 <= i < |components| && components[i] == c;
    }
  }

  /** A topic is a unit's: the document of the unit or of one of its packs, or a config of
      one of its entities with a platform and without a node. */
  lemma {:induction false} DeviceTopicSpelled(identity: string, sn: string, t: ConfigTopic)
    ensures t.bundle ==>
      (OwnsDeviceConfigTopic(identity, sn, t) <==>
       || t.nodeId == identity + "_" + sn
       || exists pack :: t.nodeId == identity + "_" + sn + "_pack_" + pack)
    ensures !t.bundle ==>
      (OwnsDeviceConfigTopic(identity, sn, t) <==>
       t.platform != "" && t.nodeId == "" && exists rest :: t.objectId == identity + "_" + sn + "_" + rest)
  {
    PrefixSpelled(t.nodeId, identity + "_" + sn + "_pack_");
    PrefixSpelled(t.objectId, identity + "_" + sn + "_");
    hide HasPrefix;
  }

  /** The identity strings and topics, level by level. */
  lemma {:induction false} IdentitiesSpelled(
      root: string, sn: string, packSn: string, leaf: string, base: string, platform: string)
    ensures UniqueId(root, sn, "", leaf) == Sequences.Join([root, sn, leaf], '_')
    ensures NodeId(root, sn, "") == Sequences.Join([root, sn], '_')
    ensures packSn != "" ==>
      && UniqueId(root, sn, packSn, leaf) == Sequences.Join([root, sn, "pack", packSn, leaf], '_')
      && NodeId(root, sn, packSn) == Sequences.Join([root, sn, "pack", packSn], '_')
    ensures DocumentPath(base, root) == Sequences.Join([base, "device", root, "config"], '/')
    ensures EntityPath(base, platform, leaf) == Sequences.Join([base, platform, leaf, "config"], '/')
  {
    Sequences.JoinSnoc([], root, '_');
    Sequences.JoinSnoc([root], sn, '_');
    Sequences.JoinSnoc([root, sn], leaf, '_');
    Sequences.JoinSnoc([root, sn], "pack", '_');
    Sequences.JoinSnoc([root, sn, "pack"], packSn, '_');
    Sequences.JoinSnoc([root, sn, "pack", packSn], leaf, '_');
    PathSpelled(base, "device", root);
    PathSpelled(base, platform, leaf);
    hide Sequences.Join;
    assert [] + [root] == [root] && [root] + [sn] == [root, sn] && [root, sn] + [leaf] == [root, sn, leaf];
    assert [root, sn] + ["pack"] == [root, sn, "pack"] && [root, sn, "pack"] + [packSn] == [root, sn, "pack", packSn];
    assert [root, sn, "pack", packSn] + [leaf] == [root, sn, "pack", packSn, leaf];
    assert root + "_" + sn + "_" + "pack" + "_" + packSn == root + "_" + sn + "_pack_" + packSn;
  }

  lemma {:induction false} PathSpelled(base: string, a: string, b: string)
    ensures Sequences.Join([base, a, b, "config"], '/') == base + "/" + a + "/" + b + "/config"
  {
    Sequences.JoinSnoc([], base, '/');
    Sequences.JoinSnoc([base], a, '/');
    Sequences.JoinSnoc([base, a], b, '/');
    Sequences.JoinSnoc([base, a, b], "config", '/');
    hide Sequences.Join;
    assert [] + [base] == [base] && [base] + [a] == [base, a] && [base, a] + [b] == [base, a, b];
    assert [base, a, b] + ["config"] == [base, a, b, "config"];
    assert base + "/" + a + "/" + b + "/" + "config" == base + "/" + a + "/" + b + "/config";
  }
}
