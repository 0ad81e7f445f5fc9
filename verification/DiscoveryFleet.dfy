/** Reports and reconnects by device and owner: which document of which owner of
    which device is retained afterwards (internal/hass/discovery.go,
    internal/coordinator/coordinator.go). */
module DiscoveryFleet {
  import opened Sequences
  import opened HaRuntime
  import opened Discovery
  import opened DiscoveryLaws

  type Fleet = seq<seq<Option<Bundle>>>

  /** The document of the j-th owner of the i-th device, if there is one. */
  function DocAt(fleet: Fleet, i: nat, j: nat): Option<Bundle> {
    if i < |fleet| && j < |fleet[i]| then fleet[i][j] else None
  }

  /** No two owners share a document topic, and no document stands where a config
      superseded by any of them stands. */
  ghost predicate FleetPlaced(fleet: Fleet) {
    forall i: nat, j: nat, k: nat, l: nat :: DocAt(fleet, i, j).Some? && DocAt(fleet, k, l).Some? ==>
      && ((i, j) != (k, l) ==> DocAt(fleet, i, j).value.topic != DocAt(fleet, k, l).value.topic)
      && DocAt(fleet, i, j).value.topic !in DocAt(fleet, k, l).value.legacy
  }

  ghost predicate Earlier(k: nat, l: nat, i: nat, j: nat) {
    k < i || (k == i && l < j)
  }

  /** No document of an earlier device, or of an earlier owner of this one, has the id. */
  ghost predicate NewAt(fleet: Fleet, i: nat, j: nat, id: string) {
    forall k: nat, l: nat :: Earlier(k, l, i, j) && DocAt(fleet, k, l).Some? ==> id !in DocAt(fleet, k, l).value.ids
  }

  /** Every document carries an id not sent yet that none before it carries. */
  ghost predicate FleetFresh(sent: set<string>, fleet: Fleet) {
    forall i: nat, j: nat :: DocAt(fleet, i, j).Some? ==>
      exists id :: id in DocAt(fleet, i, j).value.ids && id !in sent && NewAt(fleet, i, j, id)
  }

  // --------------------------------------------------- where the documents come from

  /** slots are owners with these documents, in their order. */
  ghost predicate Slotted(owners: seq<Option<Bundle>>, docs: seq<Bundle>, slots: seq<nat>) {
    && |slots| == |docs|
    && (forall k :: 0 <= k < |slots| ==> slots[k] < |owners| && owners[slots[k]] == Some(docs[k]))
    && (forall k, l :: 0 <= k < l < |slots| ==> slots[k] < slots[l])
  }

  ghost predicate AllSlotted(owners: seq<Option<Bundle>>, slots: seq<nat>) {
    forall j: nat :: j < |owners| && owners[j].Some? ==> j in slots
  }

  ghost predicate SlotsOf(owners: seq<Option<Bundle>>, slots: seq<nat>) {
    Slotted(owners, Rendered(owners), slots) && AllSlotted(owners, slots)
  }

  lemma {:induction false} Slots(owners: seq<Option<Bundle>>) returns (slots: seq<nat>)
    ensures SlotsOf(owners, slots)
  {
    if owners == [] {
      slots := [];
    } else {
      var later := Slots(owners[1..]);
      RenderedStep(owners);
      hide Rendered, Slotted, AllSlotted, OneUp;
      SlottedBelow(owners, Rendered(owners[1..]), later);
      AllSlottedBelow(owners, later);
      if owners[0].Some? {
        SlottedFirst(owners, Rendered(owners[1..]), OneUp(later));
        slots := [0] + OneUp(later);
      } else {
        slots := OneUp(later);
      }
    }
  }

  lemma {:induction false} RenderedStep(owners: seq<Option<Bundle>>)
    requires owners != []
    ensures Rendered(owners) ==
            if owners[0].Some? then [owners[0].value] + Rendered(owners[1..]) else Rendered(owners[1..])
  {
    assert [] + Rendered(owners[1..]) == Rendered(owners[1..]);
  }

  ghost function OneUp(later: seq<nat>): (slots: seq<nat>)
    ensures |slots| == |later| && forall n :: 0 <= n < |later| ==> slots[n] == later[n] + 1
  {
    seq(|later|, n requires 0 <= n < |later| => later[n] + 1)
  }

  lemma {:induction false} SlottedBelow(owners: seq<Option<Bundle>>, docs: seq<Bundle>, later: seq<nat>)
    requires owners != [] && Slotted(owners[1..], docs, later)
    ensures Slotted(owners, docs, OneUp(later)) && 0 !in OneUp(later)
  {
    hide OneUp;
    forall k | 0 <= k < |later|
      ensures OneUp(later)[k] < |owners| && owners[OneUp(later)[k]] == Some(docs[k])
    {
      assert owners[1..][later[k]] == owners[OneUp(later)[k]];
    }
  }

  lemma {:induction false} SlottedFirst(owners: seq<Option<Bundle>>, docs: seq<Bundle>, below: seq<nat>)
    requires owners != [] && owners[0].Some? && Slotted(owners, docs, below) && 0 !in below
    ensures Slotted(owners, [owners[0].value] + docs, [0] + below)
  {
    forall k | 0 <= k < |below| ensures below[k] > 0 {
      assert below[k] in below;
    }
  }

  lemma {:induction false} AllSlottedBelow(owners: seq<Option<Bundle>>, later: seq<nat>)
    requires owners != [] && AllSlotted(owners[1..], later)
    ensures AllSlotted(owners, [0] + OneUp(later))
    ensures owners[0] == None ==> AllSlotted(owners, OneUp(later))
  {
    hide OneUp;
    forall j: nat | 0 < j < |owners| && owners[j].Some? ensures j in OneUp(later) && j in [0] + OneUp(later) {
      assert owners[1..][j - 1].Some?;
      var k :| 0 <= k < |later| && later[k] == j - 1;
      assert OneUp(later)[k] == j;
    }
  }

  /** cells are the owners with a document, device after device. */
  ghost predicate CellsOf(fleet: Fleet, cells: seq<(nat, nat)>) {
    && |cells| == |AllRendered(fleet)|
    && (forall n :: 0 <= n < |cells| ==> DocAt(fleet, cells[n].0, cells[n].1) == Some(AllRendered(fleet)[n]))
    && (forall m, n :: 0 <= m < n < |cells| ==> Earlier(cells[m].0, cells[m].1, cells[n].0, cells[n].1))
    && (forall i: nat, j: nat :: DocAt(fleet, i, j).Some? ==> (i, j) in cells)
  }

  lemma {:induction false} Cells(fleet: Fleet) returns (cells: seq<(nat, nat)>)
    ensures CellsOf(fleet, cells)
  {
    if fleet == [] {
      cells := [];
    } else {
      var slots := Slots(fleet[0]);
      var later := Cells(fleet[1..]);
      cells := Beside(slots) + Below(later);
      AllRenderedStep(fleet);
      hide SlotsOf, CellsOf;
      CellsInOrder(fleet, slots, later);
      CellsComplete(fleet, slots, later);
      hide Rendered, AllRendered, Beside, Below;
      assert CellsOf(fleet, cells) by { CellsJoined(fleet, cells); }
    }
  }

  ghost function Beside(slots: seq<nat>): (cells: seq<(nat, nat)>)
    ensures |cells| == |slots| && forall n :: 0 <= n < |slots| ==> cells[n] == (0, slots[n])
  {
    seq(|slots|, n requires 0 <= n < |slots| => (0, slots[n]))
  }

  ghost function Below(later: seq<(nat, nat)>): (cells: seq<(nat, nat)>)
    ensures |cells| == |later| && forall n :: 0 <= n < |later| ==> cells[n] == (later[n].0 + 1, later[n].1)
  {
    seq(|later|, n requires 0 <= n < |later| => (later[n].0 + 1, later[n].1))
  }

  ghost predicate InOrderOf(fleet: Fleet, cells: seq<(nat, nat)>) {
    && |cells| == |AllRendered(fleet)|
    && (forall n :: 0 <= n < |cells| ==> DocAt(fleet, cells[n].0, cells[n].1) == Some(AllRendered(fleet)[n]))
    && (forall m, n :: 0 <= m < n < |cells| ==> Earlier(cells[m].0, cells[m].1, cells[n].0, cells[n].1))
  }

  ghost predicate HasAll(fleet: Fleet, cells: seq<(nat, nat)>) {
    forall i: nat, j: nat :: DocAt(fleet, i, j).Some? ==> (i, j) in cells
  }

  lemma {:induction false} CellsJoined(fleet: Fleet, cells: seq<(nat, nat)>)
    requires InOrderOf(fleet, cells) && HasAll(fleet, cells)
    ensures CellsOf(fleet, cells)
  {
  }

  lemma {:induction false} CellsInOrder(fleet: Fleet, slots: seq<nat>, later: seq<(nat, nat)>)
    requires fleet != [] && SlotsOf(fleet[0], slots) && CellsOf(fleet[1..], later)
    ensures InOrderOf(fleet, Beside(slots) + Below(later))
  {
    AllRenderedStep(fleet);
    var cells := Beside(slots) + Below(later);
    hide Rendered, AllRendered, Beside, Below;
    hide DocAt;
    forall m, n | 0 <= m < n < |cells| ensures Earlier(cells[m].0, cells[m].1, cells[n].0, cells[n].1) {
      if m >= |slots| {
        var a, b := later[m - |slots|], later[n - |slots|];
        assert Earlier(a.0, a.1, b.0, b.1);
      }
    }
    forall n | 0 <= n < |cells| ensures DocAt(fleet, cells[n].0, cells[n].1) == Some(AllRendered(fleet)[n]) {
      CellMoved(fleet, cells[n].0, cells[n].1);
    }
  }

  lemma {:induction false} CellMoved(fleet: Fleet, i: nat, j: nat)
    requires fleet != []
    ensures DocAt(fleet, i, j) ==
            if i > 0 then DocAt(fleet[1..], i - 1, j) else if j < |fleet[0]| then fleet[0][j] else None
  {
  }

  lemma {:induction false} CellsComplete(fleet: Fleet, slots: seq<nat>, later: seq<(nat, nat)>)
    requires fleet != [] && SlotsOf(fleet[0], slots) && CellsOf(fleet[1..], later)
    ensures HasAll(fleet, Beside(slots) + Below(later))
  {
    hide Rendered, AllRendered;
    forall i: nat, j: nat | DocAt(fleet, i, j).Some? ensures (i, j) in Beside(slots) + Below(later) {
      if i == 0 {
        var k :| 0 <= k < |slots| && slots[k] == j;
        assert Beside(slots)[k] == (0, j);
      } else {
        assert DocAt(fleet[1..], i - 1, j).Some?;
        var k :| 0 <= k < |later| && later[k] == (i - 1, j);
        assert Below(later)[k] == (i, j);
      }
    }
  }

  lemma {:induction false} AllRenderedStep(fleet: Fleet)
    requires fleet != []
    ensures AllRendered(fleet) == Rendered(fleet[0]) + AllRendered(fleet[1..])
  {
  }

  /** The condition on the fleet is that on its documents in a row. */
  lemma {:induction false} PlacedByCell(fleet: Fleet)
    requires FleetPlaced(fleet)
    ensures Placed(AllRendered(fleet))
  {
    var cells := Cells(fleet);
    var docs := AllRendered(fleet);
    hide AllRendered;
    forall m, n | 0 <= m < n < |docs| ensures docs[m].topic != docs[n].topic {
      assert Earlier(cells[m].0, cells[m].1, cells[n].0, cells[n].1);
      assert DocAt(fleet, cells[m].0, cells[m].1) == Some(docs[m]);
      assert DocAt(fleet, cells[n].0, cells[n].1) == Some(docs[n]);
    }
    forall m, n | 0 <= m < |docs| && 0 <= n < |docs| ensures docs[m].topic !in docs[n].legacy {
      assert DocAt(fleet, cells[m].0, cells[m].1) == Some(docs[m]);
      assert DocAt(fleet, cells[n].0, cells[n].1) == Some(docs[n]);
    }
  }

  ghost predicate NewIn(docs: seq<Bundle>, n: nat, id: string) {
    forall m :: 0 <= m < n && m < |docs| ==> id !in docs[m].ids
  }

  ghost predicate HasNew(sent: set<string>, docs: seq<Bundle>, n: nat)
    requires n < |docs|
  {
    exists id :: id in docs[n].ids && id !in sent && NewIn(docs, n, id)
  }

  /** Freshness of documents in a row, one by one. */
  lemma {:induction false} AllFreshIff(sent: set<string>, docs: seq<Bundle>)
    ensures AllFresh(sent, docs) <==> forall n: nat :: n < |docs| ==> HasNew(sent, docs, n)
    decreases |docs|
  {
    if docs != [] {
      var rest := docs[1..];
      AllFreshIff(sent + Ids(docs[0]), rest);
      HasNewFirst(sent, docs);
      forall n: nat | n < |rest| ensures HasNew(sent + Ids(docs[0]), rest, n) <==> HasNew(sent, docs, n + 1) {
        HasNewLater(sent, docs, n);
      }
      hide HasNew, Fresh, Ids;
      assert forall n: nat :: 0 < n < |docs| ==> HasNew(sent, docs, (n - 1) + 1) == HasNew(sent, docs, n);
      if AllFresh(sent, docs) {
        forall n: nat | n < |docs| ensures HasNew(sent, docs, n) {
          assert n > 0 ==> HasNew(sent + Ids(docs[0]), rest, n - 1);
        }
      }
    }
  }

  lemma {:induction false} HasNewFirst(sent: set<string>, docs: seq<Bundle>)
    requires docs != []
    ensures HasNew(sent, docs, 0) <==> Fresh(sent, docs[0])
  {
    if id :| id in docs[0].ids && id !in sent {
      assert NewIn(docs, 0, id);
    }
  }

  lemma {:induction false} HasNewLater(sent: set<string>, docs: seq<Bundle>, n: nat)
    requires docs != [] && n < |docs[1..]|
    ensures HasNew(sent + Ids(docs[0]), docs[1..], n) <==> HasNew(sent, docs, n + 1)
  {
    var rest := docs[1..];
    assert forall m :: 0 <= m < |rest| ==> rest[m] == docs[m + 1];
    forall id ensures NewIn(docs, n + 1, id) <==> id !in docs[0].ids && NewIn(rest, n, id) {
      if id !in docs[0].ids && NewIn(rest, n, id) {
        forall m | 0 <= m < n + 1 && m < |docs| ensures id !in docs[m].ids {
          assert m > 0 ==> docs[m] == rest[m - 1];
        }
      }
    }
    hide NewIn;
  }

  lemma {:induction false} NewByCell(fleet: Fleet, cells: seq<(nat, nat)>, n: nat, id: string)
    requires CellsOf(fleet, cells) && n < |cells|
    ensures NewIn(AllRendered(fleet), n, id) <==> NewAt(fleet, cells[n].0, cells[n].1, id)
  {
    var docs := AllRendered(fleet);
    hide AllRendered;
    if NewIn(docs, n, id) {
      forall k: nat, l: nat | Earlier(k, l, cells[n].0, cells[n].1) && DocAt(fleet, k, l).Some?
        ensures id !in DocAt(fleet, k, l).value.ids
      {
        var m :| 0 <= m < |cells| && cells[m] == (k, l);
        assert m < n;
      }
    }
    if NewAt(fleet, cells[n].0, cells[n].1, id) {
      forall m | 0 <= m < n && m < |docs| ensures id !in docs[m].ids {
        assert Earlier(cells[m].0, cells[m].1, cells[n].0, cells[n].1);
        assert DocAt(fleet, cells[m].0, cells[m].1) == Some(docs[m]);
      }
    }
  }

  lemma {:induction false} FreshByCell(sent: set<string>, fleet: Fleet)
    ensures AllFresh(sent, AllRendered(fleet)) <==> FleetFresh(sent, fleet)
  {
    var cells := Cells(fleet);
    var docs := AllRendered(fleet);
    AllFreshIff(sent, docs);
    hide AllRendered, AllFresh, NewIn, NewAt;
    if AllFresh(sent, docs) {
      forall i: nat, j: nat | DocAt(fleet, i, j).Some?
        ensures exists id :: id in DocAt(fleet, i, j).value.ids && id !in sent && NewAt(fleet, i, j, id)
      {
        var n: nat :| n < |cells| && cells[n] == (i, j);
        assert HasNew(sent, docs, n);
        var id :| id in docs[n].ids && id !in sent && NewIn(docs, n, id);
        NewByCell(fleet, cells, n, id);
        assert id in DocAt(fleet, i, j).value.ids;
      }
    }
    if FleetFresh(sent, fleet) {
      forall n: nat | n < |docs| ensures HasNew(sent, docs, n) {
        var i, j := cells[n].0, cells[n].1;
        assert DocAt(fleet, i, j) == Some(docs[n]);
        var id :| id in DocAt(fleet, i, j).value.ids && id !in sent && NewAt(fleet, i, j, id);
        NewByCell(fleet, cells, n, id);
        assert id in docs[n].ids && id !in sent && NewIn(docs, n, id);
      }
    }
  }

  // -------------------------------------------------------------------- a reconnect

  /** PublishOnline on a lossless connection, whatever the broker held and whatever was
      sent before: the document of every owner of every device is retained with its
      latest body, nothing any of them supersedes is, and all else is as it was. */
  lemma {:induction false} FleetIsRestored(p: Plane, fleet: Fleet)
    requires Lossless(p.link) && FleetPlaced(fleet) && FleetFresh({}, fleet)
    ensures var before, after := p.link.retained, Online(p, AllRendered(fleet)).link.retained;
      && (forall i, j :: 0 <= i < |fleet| && 0 <= j < |fleet[i]| && fleet[i][j].Some? ==>
        && fleet[i][j].value.topic in after
        && after[fleet[i][j].value.topic] == fleet[i][j].value.body
        && forall t :: t in fleet[i][j].value.legacy ==> t !in after)
      && (forall t :: NoDocumentOf(fleet, t) ==> Lookup(after, t) == Lookup(before, t))
  {
    var cells := Cells(fleet);
    var docs := AllRendered(fleet);
    PlacedByCell(fleet);
    FreshByCell({}, fleet);
    OnlineRestores(p, docs);
    var after := Online(p, docs).link.retained;
    hide Online, AllRendered, Rendered;
    forall i, j | 0 <= i < |fleet| && 0 <= j < |fleet[i]| && fleet[i][j].Some?
      ensures exists n :: 0 <= n < |docs| && docs[n] == fleet[i][j].value
    {
      assert DocAt(fleet, i, j).Some?;
      var n :| 0 <= n < |cells| && cells[n] == (i, j);
      assert docs[n] == fleet[i][j].value;
    }
    forall t | NoDocumentOf(fleet, t) ensures t !in LegacyTopics(docs) && t !in Documents(docs) {
      DocumentsKeys(docs, t);
      NotInDocs(fleet, t);
    }
  }

  /** Nobody publishes or supersedes the topic. */
  ghost predicate NoDocumentOf(fleet: Fleet, t: string) {
    forall i: nat, j: nat :: DocAt(fleet, i, j).Some? ==>
      t != DocAt(fleet, i, j).value.topic && t !in DocAt(fleet, i, j).value.legacy
  }

  lemma {:induction false} NotInDocs(fleet: Fleet, t: string)
    requires NoDocumentOf(fleet, t)
    ensures var docs := AllRendered(fleet);
      forall n :: 0 <= n < |docs| ==> t != docs[n].topic && t !in docs[n].legacy
  {
    var cells := Cells(fleet);
    var docs := AllRendered(fleet);
    hide AllRendered;
    forall n | 0 <= n < |docs| ensures t != docs[n].topic && t !in docs[n].legacy {
      assert DocAt(fleet, cells[n].0, cells[n].1) == Some(docs[n]);
    }
  }

  /** To a broker that lost its store: all of them come back if and only if each carries
      an id that no earlier device and no earlier owner of its device carries. */
  lemma {:induction false} FleetIsRestoredIffFresh(p: Plane, fleet: Fleet)
    requires Lossless(p.link) && FleetPlaced(fleet) && p.link.retained == map[]
    ensures FleetFresh({}, fleet) <==>
            forall i, j :: 0 <= i < |fleet| && 0 <= j < |fleet[i]| && fleet[i][j].Some? ==>
              fleet[i][j].value.topic in Online(p, AllRendered(fleet)).link.retained
  {
    if FleetFresh({}, fleet) {
      FleetIsRestored(p, fleet);
    } else {
      var cells := Cells(fleet);
      var docs := AllRendered(fleet);
      PlacedByCell(fleet);
      FreshByCell({}, fleet);
      OnlineRestoresIffFresh(p, docs);
      hide Online, AllRendered;
      var n :| 0 <= n < |docs| && docs[n].topic !in Online(p, docs).link.retained;
      assert DocAt(fleet, cells[n].0, cells[n].1) == Some(docs[n]);
      assert fleet[cells[n].0][cells[n].1].value.topic !in Online(p, docs).link.retained;
    }
  }

  // ----------------------------------------------------------------------- one report

  /** Publish of one report on a lossless connection that has written none of its
      documents yet: every owner's document is retained with its body, and what it
      supersedes is gone but for what was remembered as retracted and stands again. */
  lemma {:induction false} ReportIsPublished(p: Plane, owners: seq<Option<Bundle>>)
    requires Lossless(p.link) && FleetPlaced([owners]) && FleetFresh(p.sent, [owners])
    requires forall j :: 0 <= j < |owners| && owners[j].Some? ==> owners[j].value.topic !in p.link.gate
    ensures var before, after := p.link, PublishedAll(p, Rendered(owners)).link;
      && (forall j :: 0 <= j < |owners| && owners[j].Some? ==>
        && owners[j].value.topic in after.declared
        && owners[j].value.topic in after.retained
        && after.retained[owners[j].value.topic] == owners[j].value.body
        && forall t :: t in owners[j].value.legacy ==>
          (t in after.retained <==> t in before.retained && t in before.superseded))
      && (forall t :: NoDocumentOf([owners], t) ==> Lookup(after.retained, t) == Lookup(before.retained, t))
  {
    var fleet: Fleet := [owners];
    var cells := Cells(fleet);
    var docs := Rendered(owners);
    AllRenderedStep(fleet);
    assert fleet[1..] == [] && AllRendered(fleet) == docs;
    PlacedByCell(fleet);
    FreshByCell(p.sent, fleet);
    hide AllRendered, Rendered, FleetFresh, FleetPlaced, AllFresh;
    forall n | 0 <= n < |docs| ensures docs[n].topic !in p.link.gate {
      assert DocAt(fleet, cells[n].0, cells[n].1) == Some(docs[n]);
    }
    LosslessDocuments(p, docs);
    hide PublishedAll;
    forall j | 0 <= j < |owners| && owners[j].Some?
      ensures owners[j].value.topic in Documents(docs)
      ensures Documents(docs)[owners[j].value.topic] == owners[j].value.body
      ensures forall t :: t in owners[j].value.legacy ==> t in LegacyTopics(docs) && t !in Documents(docs)
    {
      assert DocAt(fleet, 0, j).Some?;
      var n :| 0 <= n < |cells| && cells[n] == (0, j);
      assert docs[n] == owners[j].value;
      DocumentBody(docs, n);
      forall t | t in owners[j].value.legacy ensures t in LegacyTopics(docs) && t !in Documents(docs) {
        DocumentsKeys(docs, t);
      }
    }
    forall t | NoDocumentOf(fleet, t) ensures t !in LegacyTopics(docs) && t !in Documents(docs) {
      DocumentsKeys(docs, t);
      NotInDocs(fleet, t);
    }
  }

  /** The topics Publish returns: those of all owners' documents, sent or not. */
  lemma {:induction false} ReportTopics(owners: seq<Option<Bundle>>, t: string)
    ensures t in DocTopics(Rendered(owners)) <==>
            exists j :: 0 <= j < |owners| && owners[j].Some? && owners[j].value.topic == t
  {
    var slots := Slots(owners);
    var docs := Rendered(owners);
    hide Rendered;
    if t in DocTopics(docs) {
      var n :| 0 <= n < |docs| && docs[n].topic == t;
      assert owners[slots[n]].value.topic == t;
    }
    if j: nat :| j < |owners| && owners[j].Some? && owners[j].value.topic == t {
      var n :| 0 <= n < |slots| && slots[n] == j;
      assert docs[n].topic == t;
    }
  }
}
