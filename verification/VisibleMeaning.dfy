/** What an accepted visible-snapshot report says, in the fields of its checkpoints, views and rows alone. */
module VisibleMeaning {
  import opened Prelude
  import opened BlockRanges
  import opened SnapshotFamilies
  import opened SnapshotMeasures
  import opened ProfileViews
  import opened VisibleReport
  import A = SnapshotAttribution
  import V = VisibleSnapshots
  import Exact = AttributionExactness
  import Utf8

  // ---- The chain ----

  /** The chain leads from the requested start, or from nowhere, to the requested checkpoint, and no block changes its kind on the way. */
  lemma AcceptedChain(r: Report, q: Request)
    requires ReportValid(r, q)
    ensures var cps := r.checkpoints;
      && 0 < |cps| <= 1000000 && cps[|cps| - 1].xid == q.xid
      && (q.from.None? ==> |cps| == 1) && (q.from.Some? ==> |cps| >= 2 && cps[0].xid == q.from.value)
      && (forall i, j :: 0 <= i < j < |cps| ==> cps[i].xid < cps[j].xid)
      && (forall i, j :: 0 <= i < |cps| && 0 <= j < |cps| ==> Blocks(cps[i].metadata) !! Blocks(cps[j].payload))
  {
    forall i, j | 0 <= i < |r.checkpoints| && 0 <= j < |r.checkpoints|
      ensures Blocks(r.checkpoints[i].metadata) !! Blocks(r.checkpoints[j].payload)
    {
      MemberInUnion(V.BlockSets(AllMetadata(r.checkpoints)), i);
      MemberInUnion(V.BlockSets(AllPayload(r.checkpoints)), j);
    }
  }

  /** Where a chain must start and end is all that is asked of its ends. */
  lemma EndsAreExact(cps: seq<Checkpoint>, q: Request)
    ensures Ends(cps, q) <==>
      && cps != [] && !(|cps| > 1000000) && cps[|cps| - 1].xid == q.xid
      && (if q.from.None? then |cps| == 1 else |cps| > 1 && q.from == Some(cps[0].xid))
  {
  }

  lemma ChainEntry(r: Report, q: Request, i: nat)
    requires ReportValid(r, q) && i < |r.checkpoints|
    ensures r.checkpoints[i].xid > 0 && CheckpointValid(r.checkpoints[i], Only(q), q.capacity)
  {
    assert ValidAt(r.checkpoints, q, i);
    assert At(i);
  }

  /** Every checkpoint of it has metadata and views, fits the container, and its payload is what its views hold. */
  lemma AcceptedCheckpoint(r: Report, q: Request, i: nat)
    requires ReportValid(r, q) && i < |r.checkpoints|
    ensures var cp := r.checkpoints[i];
      && cp.xid > 0 && cp.metadata != [] && cp.views != [] && |Blocks(cp.metadata)| + |Blocks(cp.payload)| <= q.capacity
      && (forall b :: b in Blocks(cp.payload) <==> exists j :: 0 <= j < |cp.views| && b in Blocks(cp.views[j].payload))
  {
    ChainEntry(r, q, i);
    forall b ensures b in Blocks(r.checkpoints[i].payload) <==>
      exists j :: 0 <= j < |r.checkpoints[i].views| && b in Blocks(r.checkpoints[i].views[j].payload)
    {
      PayloadHasOneOwner(r.checkpoints[i], Only(q), q.capacity, b);
    }
  }

  /** Every view of it lies in its checkpoint with its descriptor, whose identity fits a current view or a snapshot. */
  lemma AcceptedView(r: Report, q: Request, i: nat, j: nat)
    requires ReportValid(r, q) && i < |r.checkpoints| && j < |r.checkpoints[i].views|
    ensures var cp := r.checkpoints[i]; var v := cp.views[j]; var d := v.descriptor;
      && v.volume > 0 && (!q.fusion ==> v.volume == q.volume) && 0 < v.xid <= cp.xid && 0 < v.records <= 1000000
      && (v.current ==> v.xid == cp.xid && v.name == "" && d.oid == v.volume)
      && (!v.current ==> v.name != "" && d.oid == d.block && d.xid >= v.xid)
      && 0 < d.xid <= cp.xid && d.oid > 0 && d.block > 0 && d.block in Blocks(v.metadata)
      && v.metadata != [] && Blocks(v.metadata) <= Blocks(cp.metadata) && Blocks(v.payload) <= Blocks(cp.payload)
  {
    ChainEntry(r, q, i);
    var cp := r.checkpoints[i];
    assert ViewValid(cp.views[j], cp.xid, Only(q)) && Inside(cp, cp.views[j]);
  }

  /** What a view and its descriptor must say by themselves, and no more than that. */
  lemma ViewIsExact(v: ProfileView, xid: nat, q: Request)
    ensures ViewValid(v, xid, Only(q)) <==>
      && v.volume != 0 && (q.fusion || v.volume == q.volume) && v.xid != 0 && v.xid <= xid
      && v.records != 0 && !(v.records > 1000000)
      && v.descriptor.oid != 0 && v.descriptor.xid != 0 && v.descriptor.xid <= xid && v.descriptor.block != 0
      && (v.current ==> v.xid == xid && |v.name| == 0 && v.descriptor.oid == v.volume)
      && (!v.current ==>
           && |v.name| != 0 && !('\0' in v.name) && !(Utf8.Length(v.name) > 65535)
           && v.descriptor.oid == v.descriptor.block && v.xid <= v.descriptor.xid)
  {
  }

  /** Views come volume by volume; in a volume snapshots rise with distinct names before the one current view; volumes share no payload. */
  lemma AcceptedOrder(r: Report, q: Request, i: nat, j: nat, k: nat)
    requires ReportValid(r, q) && i < |r.checkpoints| && j < k < |r.checkpoints[i].views|
    ensures var v, w := r.checkpoints[i].views[j], r.checkpoints[i].views[k];
      && v.volume <= w.volume
      && (v.volume == w.volume ==> !v.current && (!w.current ==> v.xid < w.xid && v.name != w.name))
      && (v.volume != w.volume ==> Blocks(v.payload) !! Blocks(w.payload))
      && (v.volume != w.volume && k == j + 1 ==> v.current)
    ensures r.checkpoints[i].views[|r.checkpoints[i].views| - 1].current
  {
    ChainEntry(r, q, i);
    assert PairValid(r.checkpoints[i].views[j], r.checkpoints[i].views[k]);
  }

  // ---- The selection ----

  /** A view of the selected volume at the last checkpoint. */
  ghost predicate Selected(r: Report, q: Request, current: bool, v: ProfileView) {
    r.checkpoints != [] && v in r.checkpoints[|r.checkpoints| - 1].views && v.volume == q.volume && v.current == current
  }

  /** The selected volume has one current view there, whose superblock, root and checkpoint blocks are the selected ones. */
  lemma AcceptedSelection(r: Report, q: Request) returns (live: ProfileView)
    requires ReportValid(r, q)
    ensures Selected(r, q, true, live) && forall v :: Selected(r, q, true, v) ==> v == live
    ensures live.descriptor.block == q.volumeBlock && live.descriptor.xid == q.volumeXid && q.rootBlock in Blocks(live.metadata)
    ensures q.checkpointBlock in Blocks(r.checkpoints[|r.checkpoints| - 1].metadata)
    ensures r.liveMetadata == |Blocks(live.metadata)| && r.livePayload == |Blocks(live.payload)|
    ensures live == Currents(r, q)[0]
  {
    var currents := Currents(r, q);
    live := currents[0];
    assert live in currents;
    PickedIs(Endpoint(r).views, q.volume, true, live);
    forall v | Selected(r, q, true, v) ensures v == live {
      PickedIs(Endpoint(r).views, q.volume, true, v);
    }
  }

  lemma {:induction false} PickedRises(views: seq<ProfileView>, xid: nat, only: Option<nat>, volume: nat)
    requires InOrder(views, |views|, xid, only)
    ensures forall i, j :: 0 <= i < j < |Picked(views, volume, false)| ==> Picked(views, volume, false)[i].xid < Picked(views, volume, false)[j].xid
  {
    if views != [] {
      var n := |views| - 1;
      var rest := Picked(views[..n], volume, false);
      PickedRises(views[..n], xid, only, volume);
      if views[n].volume == volume && !views[n].current {
        forall i | 0 <= i < |rest| ensures rest[i].xid < views[n].xid {
          PickedIs(views[..n], volume, false, rest[i]);
          assert rest[i] in rest;
          var k :| 0 <= k < n && views[k] == rest[i];
          assert PairValid(views[k], views[n]);
        }
      }
    }
  }

  lemma SnapshotsAre(r: Report, q: Request)
    requires r.checkpoints != []
    ensures forall v :: v in Snapshots(r, q) <==> Selected(r, q, false, v)
  {
    forall v ensures v in Snapshots(r, q) <==> Selected(r, q, false, v) {
      PickedIs(Endpoint(r).views, q.volume, false, v);
    }
  }

  lemma SnapshotsRise(r: Report, q: Request)
    requires ReportValid(r, q)
    ensures forall i, j :: 0 <= i < j < |Snapshots(r, q)| ==> Snapshots(r, q)[i].xid < Snapshots(r, q)[j].xid
  {
    ChainEntry(r, q, |r.checkpoints| - 1);
    PickedRises(Endpoint(r).views, Endpoint(r).xid, Only(q), q.volume);
  }

  lemma RowNumbers(r: Report, q: Request)
    requires ReportReadable(r, q) && ReportValid(r, q)
    ensures |r.heads| == |r.rows| == |Snapshots(r, q)|
    ensures forall i :: 0 <= i < |r.heads| ==>
      && r.heads[i].xid == Snapshots(r, q)[i].xid && r.heads[i].name == Snapshots(r, q)[i].name
      && r.heads[i].declared == Snapshots(r, q)[i].declared && r.heads[i].descriptor == Snapshots(r, q)[i].descriptor
  {
    ExternalBounded(r, q);
    RowsCount(r, Currents(r, q)[0], Snapshots(r, q), External(r, q));
  }

  /** The rows are those of its snapshots there, all of them and no others, in the order of their transaction ids. */
  lemma AcceptedSnapshots(r: Report, q: Request) returns (snapshots: seq<ProfileView>)
    requires ReportReadable(r, q) && ReportValid(r, q)
    ensures |r.heads| == |r.rows| == |snapshots| && snapshots == Snapshots(r, q)
    ensures forall v :: v in snapshots <==> Selected(r, q, false, v)
    ensures forall i, j :: 0 <= i < j < |snapshots| ==> snapshots[i].xid < snapshots[j].xid
    ensures forall i :: 0 <= i < |r.heads| ==>
      && r.heads[i].xid == snapshots[i].xid && r.heads[i].name == snapshots[i].name
      && r.heads[i].declared == snapshots[i].declared && r.heads[i].descriptor == snapshots[i].descriptor
  {
    snapshots := Snapshots(r, q);
    SnapshotsAre(r, q);
    SnapshotsRise(r, q);
    RowNumbers(r, q);
  }

  // ---- The rows ----

  /** A block that an earlier checkpoint holds, or another volume's view at the last one. */
  ghost predicate Elsewhere(r: Report, q: Request, b: int) {
    && r.checkpoints != []
    && ((exists i :: 0 <= i < |r.checkpoints| - 1 && (b in Blocks(r.checkpoints[i].metadata) || b in Blocks(r.checkpoints[i].payload)))
        || (exists v :: v in r.checkpoints[|r.checkpoints| - 1].views && v.volume != q.volume
              && (b in Blocks(v.metadata) || b in Blocks(v.payload))))
  }

  lemma ExternalIsElsewhere(r: Report, q: Request)
    requires r.checkpoints != []
    ensures forall b :: b in External(r, q) <==> Elsewhere(r, q, b)
  {
    forall b ensures b in External(r, q) <==> Elsewhere(r, q, b) {
      ExternalIs(r, q, b);
      PeersElsewhere(r, q, b);
      if i :| 0 <= i < |r.checkpoints| - 1 && (b in Blocks(r.checkpoints[i].metadata) || b in Blocks(r.checkpoints[i].payload)) {
        assert Earlier(r)[i] == r.checkpoints[i];
      }
    }
  }

  lemma PeersElsewhere(r: Report, q: Request, b: int)
    requires r.checkpoints != []
    ensures (exists v :: v in Peers(Endpoint(r).views, q.volume) && (b in Blocks(v.metadata) || b in Blocks(v.payload)))
       <==> (exists v :: v in r.checkpoints[|r.checkpoints| - 1].views && v.volume != q.volume
              && (b in Blocks(v.metadata) || b in Blocks(v.payload)))
  {
    forall v ensures v in Peers(Endpoint(r).views, q.volume) <==> v in Endpoint(r).views && v.volume != q.volume {
      PeersAre(Endpoint(r).views, q.volume, v);
    }
  }

  /** The seven numbers of one kind of one row, for the blocks of all snapshots, the current view and everything held elsewhere. */
  ghost predicate Counts(m: A.Measures, snapshots: seq<set<int>>, i: nat, live: set<int>, elsewhere: set<int>)
    requires i < |snapshots|
  {
    var blocks, others := snapshots[i], Others(snapshots, i);
    && m.referenced == |blocks| && m.sharedWithLive == |blocks * live| && m.absentFromLive == |blocks - live|
    && m.sharedWithOthers == |blocks * others| && m.unique == |blocks - (live + others)|
    && m.protectedBlocks == |blocks * elsewhere| && m.candidate == |blocks - (live + others) - elsewhere|
  }

  lemma RowCounts(r: Report, q: Request, i: nat)
    requires ReportReadable(r, q) && ReportValid(r, q) && i < |r.rows|
    ensures |r.rows| == |Snapshots(r, q)|
    ensures Counts(r.rows[i].metadata, V.BlockSets(Metadatas(Snapshots(r, q))), i, Blocks(Currents(r, q)[0].metadata), External(r, q))
    ensures Counts(r.rows[i].payload, V.BlockSets(Payloads(Snapshots(r, q))), i, Blocks(Currents(r, q)[0].payload), External(r, q))
  {
    ExternalBounded(r, q);
    RowsCount(r, Currents(r, q)[0], Snapshots(r, q), External(r, q));
    assert A.Kind(r.rows, true)[i] == r.rows[i].metadata && A.Kind(r.rows, false)[i] == r.rows[i].payload;
  }

  /** Row i of an accepted report counts snapshot i, kind by kind, against the other snapshots, the current view and what is held elsewhere. */
  lemma AcceptedRow(r: Report, q: Request, i: nat) returns (live: ProfileView, snapshots: seq<ProfileView>, elsewhere: set<int>)
    requires ReportReadable(r, q) && ReportValid(r, q) && i < |r.rows|
    ensures Selected(r, q, true, live) && forall v :: Selected(r, q, true, v) ==> v == live
    ensures |snapshots| == |r.rows| && forall v :: v in snapshots <==> Selected(r, q, false, v)
    ensures forall j, k :: 0 <= j < k < |snapshots| ==> snapshots[j].xid < snapshots[k].xid
    ensures forall b :: b in elsewhere <==> Elsewhere(r, q, b)
    ensures Counts(r.rows[i].metadata, V.BlockSets(Metadatas(snapshots)), i, Blocks(live.metadata), elsewhere)
    ensures Counts(r.rows[i].payload, V.BlockSets(Payloads(snapshots)), i, Blocks(live.payload), elsewhere)
  {
    live := AcceptedSelection(r, q);
    snapshots := AcceptedSnapshots(r, q);
    elsewhere := External(r, q);
    ExternalIsElsewhere(r, q);
    RowCounts(r, q, i);
  }

  /** The two totals over snapshots count the blocks that any of them holds. */
  lemma AcceptedTotals(r: Report, q: Request)
    requires ReportValid(r, q)
    ensures r.snapshotMetadata == |UnionOf(V.BlockSets(Metadatas(Snapshots(r, q))))|
    ensures forall b :: b in UnionOf(V.BlockSets(Metadatas(Snapshots(r, q)))) <==> exists v :: Selected(r, q, false, v) && b in Blocks(v.metadata)
    ensures r.snapshotPayload == |UnionOf(V.BlockSets(Payloads(Snapshots(r, q))))|
    ensures forall b :: b in UnionOf(V.BlockSets(Payloads(Snapshots(r, q)))) <==> exists v :: Selected(r, q, false, v) && b in Blocks(v.payload)
  {
    SnapshotsAre(r, q);
    forall b
      ensures b in UnionOf(V.BlockSets(Metadatas(Snapshots(r, q)))) <==> exists v :: Selected(r, q, false, v) && b in Blocks(v.metadata)
      ensures b in UnionOf(V.BlockSets(Payloads(Snapshots(r, q)))) <==> exists v :: Selected(r, q, false, v) && b in Blocks(v.payload)
    {
      SomeHolds(Snapshots(r, q), b);
    }
  }

  lemma SomeHolds(views: seq<ProfileView>, b: int)
    ensures b in UnionOf(V.BlockSets(Metadatas(views))) <==> exists v :: v in views && b in Blocks(v.metadata)
    ensures b in UnionOf(V.BlockSets(Payloads(views))) <==> exists v :: v in views && b in Blocks(v.payload)
  {
    InUnion(Metadatas(views), b);
    InUnion(Payloads(views), b);
    if v :| v in views && b in Blocks(v.metadata) {
      var i :| 0 <= i < |views| && views[i] == v;
      assert b in Blocks(Metadatas(views)[i]);
    }
    if v :| v in views && b in Blocks(v.payload) {
      var i :| 0 <= i < |views| && views[i] == v;
      assert b in Blocks(Payloads(views)[i]);
    }
    if i :| 0 <= i < |views| && b in Blocks(Metadatas(views)[i]) {
      assert views[i] in views;
    }
    if i :| 0 <= i < |views| && b in Blocks(Payloads(views)[i]) {
      assert views[i] in views;
    }
  }
}
