/** The whole visible-snapshot report: a chain of checkpoints, the selected volume at its end, and the attribution to its snapshots. */
module VisibleReport {
  import opened Prelude
  import opened BlockRanges
  import opened SnapshotFamilies
  import opened SnapshotMeasures
  import opened ProfileViews
  import A = SnapshotAttribution
  import V = VisibleSnapshots
  import O = MarkedOwners
  import M = ProfileSetMath
  import Exact = AttributionExactness

  /** What an attribution row repeats of its view. */
  datatype Head = Head(xid: nat, name: string, declared: nat, descriptor: Descriptor)

  datatype Report = Report(
    checkpoints: seq<Checkpoint>, heads: seq<Head>, rows: seq<A.SnapshotRow>,
    liveMetadata: nat, livePayload: nat, snapshotMetadata: nat, snapshotPayload: nat)

  /** The request and the selection: one volume at the last checkpoint, `from` an earlier one, and three blocks of it. */
  datatype Request = Request(
    fusion: bool, capacity: nat, volume: nat, xid: nat, from: Option<nat>,
    volumeBlock: nat, volumeXid: nat, rootBlock: nat, checkpointBlock: nat)

  function Only(q: Request): Option<nat> {
    if q.fusion then None else Some(q.volume)
  }

  ghost predicate ReportReadable(r: Report, q: Request) {
    && (forall i :: 0 <= i < |r.checkpoints| ==> Readable(r.checkpoints[i]))
    && q.rootBlock < ADDRESS_LIMIT && q.checkpointBlock < ADDRESS_LIMIT
  }

  // ---- The chain ----

  /** Checkpoint i is valid; At keeps that folded until a proof asks for it. */
  ghost predicate ValidAt(cps: seq<Checkpoint>, q: Request, i: nat) {
    forall k: nat {:trigger At(k)} :: At(k) && k == i < |cps| ==> cps[k].xid > 0 && CheckpointValid(cps[k], Only(q), q.capacity)
  }

  ghost predicate Rising(cps: seq<Checkpoint>, n: nat)
    requires n <= |cps|
  {
    forall i, j :: 0 <= i < j < n ==> cps[i].xid < cps[j].xid
  }

  /** The first n checkpoints are valid and their transaction ids rise. */
  ghost predicate ChainUpTo(cps: seq<Checkpoint>, n: nat, q: Request)
    requires n <= |cps|
  {
    Rising(cps, n) && forall i: nat :: i < n ==> ValidAt(cps, q, i)
  }

  predicate Ends(cps: seq<Checkpoint>, q: Request) {
    && 0 < |cps| <= MAX_RANGES && cps[|cps| - 1].xid == q.xid
    && match q.from
       case None => |cps| == 1
       case Some(xid) => |cps| >= 2 && cps[0].xid == xid
  }

  function AllMetadata(cps: seq<Checkpoint>): seq<seq<Span>> {
    seq(|cps|, i requires 0 <= i < |cps| => cps[i].metadata)
  }

  function AllPayload(cps: seq<Checkpoint>): seq<seq<Span>> {
    seq(|cps|, i requires 0 <= i < |cps| => cps[i].payload)
  }

  /** No block is metadata at one checkpoint and payload at another. */
  ghost predicate KindsApart(cps: seq<Checkpoint>) {
    UnionOf(V.BlockSets(AllMetadata(cps))) !! UnionOf(V.BlockSets(AllPayload(cps)))
  }

  ghost predicate ChainValid(cps: seq<Checkpoint>, q: Request) {
    Ends(cps, q) && ChainUpTo(cps, |cps|, q) && KindsApart(cps)
  }

  lemma RisingNext(cps: seq<Checkpoint>, n: nat)
    requires n < |cps| && Rising(cps, n)
    ensures Rising(cps, n + 1) <==> n == 0 || cps[n - 1].xid < cps[n].xid
  {
    if n > 0 && cps[n - 1].xid < cps[n].xid {
      forall i | 0 <= i < n ensures cps[i].xid < cps[n].xid {
        assert i < n - 1 ==> cps[i].xid < cps[n - 1].xid;
      }
    }
  }

  method ReadAt(math: M.ProfileSetMath, cps: seq<Checkpoint>, q: Request, n: nat) returns (verdict: M.Verdict)
    requires 0 <= math.work <= M.BUDGET && n < |cps| && Readable(cps[n])
    modifies math
    ensures math.work >= old(math.work)
    ensures verdict == M.OverBudget <==> math.work > M.BUDGET
    ensures verdict != M.OverBudget ==> (verdict == M.Accepted <==> ValidAt(cps, q, n))
  {
    assert At(n);
    if cps[n].xid == 0 { return M.Refused; }
    verdict := ReadCheckpoint(math, cps[n], Only(q), q.capacity);
  }

  method ReadCheckpoints(math: M.ProfileSetMath, cps: seq<Checkpoint>, q: Request) returns (verdict: M.Verdict)
    requires 0 <= math.work <= M.BUDGET && forall i :: 0 <= i < |cps| ==> Readable(cps[i])
    modifies math
    ensures math.work >= old(math.work)
    ensures verdict == M.OverBudget <==> math.work > M.BUDGET
    ensures verdict != M.OverBudget ==> (verdict == M.Accepted <==> ChainUpTo(cps, |cps|, q))
  {
    var previous := 0;
    for n := 0 to |cps|
      invariant old(math.work) <= math.work <= M.BUDGET
      invariant ChainUpTo(cps, n, q) && previous == if n == 0 then 0 else cps[n - 1].xid
    {
      RisingNext(cps, n);
      var ok := math.Tick();
      if !ok { return M.OverBudget; }
      if n > 0 && cps[n].xid <= previous {
        assert !Rising(cps, n + 1);
        return M.Refused;
      }
      previous := cps[n].xid;
      verdict := ReadAt(math, cps, q, n);
      if verdict != M.Accepted { return; }
    }
    verdict := M.Accepted;
  }

  method ReadChain(math: M.ProfileSetMath, cps: seq<Checkpoint>, q: Request) returns (verdict: M.Verdict)
    requires 0 <= math.work <= M.BUDGET && forall i :: 0 <= i < |cps| ==> Readable(cps[i])
    modifies math
    ensures math.work >= old(math.work)
    ensures verdict == M.OverBudget <==> math.work > M.BUDGET
    ensures verdict != M.OverBudget ==> (verdict == M.Accepted <==> ChainValid(cps, q))
  {
    if !Ends(cps, q) { return M.Refused; }
    verdict := ReadCheckpoints(math, cps, q);
    if verdict != M.Accepted { return; }
    var ok, m := O.UnionAll(math, AllMetadata(cps));
    if !ok { return M.OverBudget; }
    var p;
    ok, p := O.UnionAll(math, AllPayload(cps));
    if !ok { return M.OverBudget; }
    verdict := O.Apart(math, m, p);
  }

  // ---- The selected volume at the last checkpoint ----

  function Endpoint(r: Report): Checkpoint
    requires r.checkpoints != []
  {
    r.checkpoints[|r.checkpoints| - 1]
  }

  /** The views that pass a test, in their order. */
  function Picked(views: seq<ProfileView>, volume: nat, current: bool): seq<ProfileView> {
    if views == [] then []
    else
      var rest, v := Picked(views[..|views| - 1], volume, current), views[|views| - 1];
      if v.volume == volume && v.current == current then rest + [v] else rest
  }

  lemma {:induction false} PickedIs(views: seq<ProfileView>, volume: nat, current: bool, v: ProfileView)
    ensures v in Picked(views, volume, current) <==> v in views && v.volume == volume && v.current == current
  {
    if views != [] {
      var n := |views| - 1;
      PickedIs(views[..n], volume, current, v);
      assert views == views[..n] + [views[n]];
    }
  }

  function Snapshots(r: Report, q: Request): seq<ProfileView>
    requires r.checkpoints != []
  {
    Picked(Endpoint(r).views, q.volume, false)
  }

  function Currents(r: Report, q: Request): seq<ProfileView>
    requires r.checkpoints != []
  {
    Picked(Endpoint(r).views, q.volume, true)
  }

  function Peers(views: seq<ProfileView>, volume: nat): seq<ProfileView> {
    if views == [] then []
    else
      var rest, v := Peers(views[..|views| - 1], volume), views[|views| - 1];
      if v.volume != volume then rest + [v] else rest
  }

  lemma {:induction false} PeersAre(views: seq<ProfileView>, volume: nat, v: ProfileView)
    ensures v in Peers(views, volume) <==> v in views && v.volume != volume
  {
    if views != [] {
      var n := |views| - 1;
      PeersAre(views[..n], volume, v);
      assert views == views[..n] + [views[n]];
    }
  }

  /** Every list whose blocks the selected volume cannot give back: earlier checkpoints, and other volumes at the last one. */
  function ExternalLists(r: Report, q: Request): seq<seq<Span>>
    requires r.checkpoints != []
  {
    var peers := Peers(Endpoint(r).views, q.volume);
    (AllMetadata(Earlier(r)) + AllPayload(Earlier(r))) + (Metadatas(peers) + Payloads(peers))
  }

  ghost function External(r: Report, q: Request): set<int>
    requires r.checkpoints != []
  {
    UnionOf(V.BlockSets(ExternalLists(r, q)))
  }

  function HeadOf(v: ProfileView): Head {
    Head(v.xid, v.name, v.declared, v.descriptor)
  }

  function Heads(views: seq<ProfileView>): seq<Head> {
    seq(|views|, i requires 0 <= i < |views| => HeadOf(views[i]))
  }

  function Views(views: seq<ProfileView>): seq<V.View> {
    seq(|views|, i requires 0 <= i < |views| => V.View(views[i].metadata, views[i].payload))
  }

  /** The one current view of the selected volume is the selected one, and its blocks are where the selection says. */
  ghost predicate LiveValid(r: Report, q: Request)
    requires r.checkpoints != []
  {
    && |Currents(r, q)| == 1
    && Currents(r, q)[0].descriptor.block == q.volumeBlock && Currents(r, q)[0].descriptor.xid == q.volumeXid
    && q.rootBlock in Blocks(Currents(r, q)[0].metadata) && q.checkpointBlock in Blocks(Endpoint(r).metadata)
  }

  ghost predicate AmountsValid(r: Report, live: ProfileView, snapshots: seq<ProfileView>) {
    && r.liveMetadata == |Blocks(live.metadata)| && r.livePayload == |Blocks(live.payload)|
    && r.snapshotMetadata == |UnionOf(V.BlockSets(Metadatas(snapshots)))|
    && r.snapshotPayload == |UnionOf(V.BlockSets(Payloads(snapshots)))|
  }

  /** Whatever list stands for the external blocks, the rows are those counted against it. */
  ghost predicate RowsValid(r: Report, live: ProfileView, snapshots: seq<ProfileView>, external: set<int>) {
    forall e :: Usable(e) && Blocks(e) == external ==>
      r.rows == V.ExpectedRows(Views(snapshots), V.View(live.metadata, live.payload), e)
  }

  ghost predicate ReportValid(r: Report, q: Request) {
    && r.checkpoints != [] && ChainValid(r.checkpoints, q) && LiveValid(r, q)
    && AmountsValid(r, Currents(r, q)[0], Snapshots(r, q))
    && r.heads == Heads(Snapshots(r, q))
    && RowsValid(r, Currents(r, q)[0], Snapshots(r, q), External(r, q))
  }

  lemma PickedUsable(r: Report, q: Request)
    requires r.checkpoints != [] && ReportReadable(r, q)
    ensures forall v :: v in Snapshots(r, q) || v in Currents(r, q) || v in Peers(Endpoint(r).views, q.volume) ==> ViewUsable(v)
  {
    assert Readable(Endpoint(r));
    forall v | v in Snapshots(r, q) || v in Currents(r, q) || v in Peers(Endpoint(r).views, q.volume) ensures ViewUsable(v) {
      PickedIs(Endpoint(r).views, q.volume, false, v);
      PickedIs(Endpoint(r).views, q.volume, true, v);
      PeersAre(Endpoint(r).views, q.volume, v);
    }
  }

  lemma ViewListsUsable(views: seq<ProfileView>)
    requires forall v :: v in views ==> ViewUsable(v)
    ensures V.AllUsable(Metadatas(views)) && V.AllUsable(Payloads(views)) && V.ViewsUsable(Views(views))
  {
    forall i | 0 <= i < |views| ensures Usable(views[i].metadata) && Usable(views[i].payload) {
      assert views[i] in views;
    }
  }

  lemma ExternalUsable(r: Report, q: Request)
    requires r.checkpoints != [] && ReportReadable(r, q)
    ensures V.AllUsable(ExternalLists(r, q))
  {
    PickedUsable(r, q);
    ViewListsUsable(Peers(Endpoint(r).views, q.volume));
  }

  method ReadLive(math: M.ProfileSetMath, r: Report, q: Request) returns (verdict: M.Verdict)
    requires 0 <= math.work <= M.BUDGET && r.checkpoints != [] && ReportReadable(r, q)
    modifies math
    ensures math.work >= old(math.work)
    ensures verdict == M.OverBudget <==> math.work > M.BUDGET
    ensures verdict != M.OverBudget ==> (verdict == M.Accepted <==> LiveValid(r, q))
  {
    PickedUsable(r, q);
    var currents := Currents(r, q);
    if |currents| != 1 { return M.Refused; }
    var live := currents[0];
    assert live in currents && Readable(Endpoint(r));
    if live.descriptor.block != q.volumeBlock || live.descriptor.xid != q.volumeXid { return M.Refused; }
    verdict := Holds(math, q.rootBlock, live.metadata);
    if verdict != M.Accepted { return; }
    verdict := Holds(math, q.checkpointBlock, Endpoint(r).metadata);
  }

  method UnionIs(math: M.ProfileSetMath, lists: seq<seq<Span>>, amount: nat) returns (verdict: M.Verdict)
    requires 0 <= math.work <= M.BUDGET && V.AllUsable(lists)
    modifies math
    ensures math.work >= old(math.work)
    ensures verdict == M.OverBudget <==> math.work > M.BUDGET
    ensures verdict != M.OverBudget ==> (verdict == M.Accepted <==> amount == |UnionOf(V.BlockSets(lists))|)
  {
    var ok, u := O.UnionAll(math, lists);
    if !ok { return M.OverBudget; }
    verdict := O.CountIs(math, u, amount);
  }

  method ReadAmounts(math: M.ProfileSetMath, r: Report, live: ProfileView, snapshots: seq<ProfileView>) returns (verdict: M.Verdict)
    requires 0 <= math.work <= M.BUDGET && ViewUsable(live) && forall v :: v in snapshots ==> ViewUsable(v)
    modifies math
    ensures math.work >= old(math.work)
    ensures verdict == M.OverBudget <==> math.work > M.BUDGET
    ensures verdict != M.OverBudget ==> (verdict == M.Accepted <==> AmountsValid(r, live, snapshots))
  {
    ViewListsUsable(snapshots);
    verdict := O.CountIs(math, live.metadata, r.liveMetadata);
    if verdict != M.Accepted { return; }
    verdict := O.CountIs(math, live.payload, r.livePayload);
    if verdict != M.Accepted { return; }
    verdict := UnionIs(math, Metadatas(snapshots), r.snapshotMetadata);
    if verdict != M.Accepted { return; }
    verdict := UnionIs(math, Payloads(snapshots), r.snapshotPayload);
  }

  lemma OneList(r: Report, live: ProfileView, snapshots: seq<ProfileView>, external: seq<Span>)
    requires Usable(external)
    ensures RowsValid(r, live, snapshots, Blocks(external)) <==>
      r.rows == V.ExpectedRows(Views(snapshots), V.View(live.metadata, live.payload), external)
  {
    forall e | Usable(e) && Blocks(e) == Blocks(external) ensures e == external {
      CanonicalIsUnique(e, external);
    }
  }

  method ReadRows(math: M.ProfileSetMath, r: Report, q: Request, live: ProfileView, snapshots: seq<ProfileView>) returns (verdict: M.Verdict)
    requires 0 <= math.work <= M.BUDGET && r.checkpoints != [] && ReportReadable(r, q)
    requires ViewUsable(live) && forall v :: v in snapshots ==> ViewUsable(v)
    modifies math
    ensures verdict == M.OverBudget ==> math.work > M.BUDGET
    ensures verdict == M.Accepted ==> RowsValid(r, live, snapshots, External(r, q))
    ensures verdict == M.Refused ==> !RowsValid(r, live, snapshots, External(r, q))
  {
    ExternalUsable(r, q);
    ViewListsUsable(snapshots);
    var ok, external := O.UnionAll(math, ExternalLists(r, q));
    if !ok { return M.OverBudget; }
    OneList(r, live, snapshots, external);
    verdict := V.ValidateRows(math, r.rows, Views(snapshots), V.View(live.metadata, live.payload), external);
  }

  /** The whole report is accepted only if everything it states is so, and refused only if something is not. */
  method ValidateReport(math: M.ProfileSetMath, r: Report, q: Request) returns (verdict: M.Verdict)
    requires 0 <= math.work <= M.BUDGET && ReportReadable(r, q)
    modifies math
    ensures verdict == M.OverBudget ==> math.work > M.BUDGET
    ensures verdict == M.Accepted ==> ReportValid(r, q)
    ensures verdict == M.Refused ==> !ReportValid(r, q)
  {
    if r.checkpoints == [] { return M.Refused; }
    verdict := ReadChain(math, r.checkpoints, q);
    if verdict != M.Accepted { return; }
    verdict := ReadLive(math, r, q);
    if verdict != M.Accepted { return; }
    PickedUsable(r, q);
    var live, snapshots := Currents(r, q)[0], Snapshots(r, q);
    assert live in Currents(r, q);
    verdict := ReadAmounts(math, r, live, snapshots);
    if verdict != M.Accepted { return; }
    if r.heads != Heads(snapshots) { return M.Refused; }
    verdict := ReadRows(math, r, q, live, snapshots);
  }

  // ---- What an accepted report says ----

  lemma InUnion(lists: seq<seq<Span>>, b: int)
    ensures b in UnionOf(V.BlockSets(lists)) <==> exists i :: 0 <= i < |lists| && b in Blocks(lists[i])
  {
    if b in UnionOf(V.BlockSets(lists)) {
      var i :| 0 <= i < |lists| && b in V.BlockSets(lists)[i];
      assert b in Blocks(lists[i]);
    }
    if i :| 0 <= i < |lists| && b in Blocks(lists[i]) {
      assert b in V.BlockSets(lists)[i];
    }
  }

  lemma InEither(x: seq<seq<Span>>, y: seq<seq<Span>>, b: int)
    ensures b in UnionOf(V.BlockSets(x + y)) <==> b in UnionOf(V.BlockSets(x)) || b in UnionOf(V.BlockSets(y))
  {
    InUnion(x + y, b);
    InUnion(x, b);
    InUnion(y, b);
    if i :| 0 <= i < |x| && b in Blocks(x[i]) {
      assert b in Blocks((x + y)[i]);
    }
    if i :| 0 <= i < |y| && b in Blocks(y[i]) {
      assert b in Blocks((x + y)[|x| + i]);
    }
    if i :| 0 <= i < |x + y| && b in Blocks((x + y)[i]) {
      assert i < |x| ==> b in Blocks(x[i]);
      assert i >= |x| ==> b in Blocks(y[i - |x|]);
    }
  }

  lemma InEarlier(cps: seq<Checkpoint>, b: int)
    ensures b in UnionOf(V.BlockSets(AllMetadata(cps) + AllPayload(cps))) <==>
      exists i :: 0 <= i < |cps| && (b in Blocks(cps[i].metadata) || b in Blocks(cps[i].payload))
  {
    InEither(AllMetadata(cps), AllPayload(cps), b);
    InUnion(AllMetadata(cps), b);
    InUnion(AllPayload(cps), b);
    if i :| 0 <= i < |cps| && (b in Blocks(cps[i].metadata) || b in Blocks(cps[i].payload)) {
      assert b in Blocks(AllMetadata(cps)[i]) || b in Blocks(AllPayload(cps)[i]);
    }
  }

  lemma InViews(views: seq<ProfileView>, b: int)
    ensures b in UnionOf(V.BlockSets(Metadatas(views) + Payloads(views))) <==>
      exists i :: 0 <= i < |views| && (b in Blocks(views[i].metadata) || b in Blocks(views[i].payload))
  {
    InEither(Metadatas(views), Payloads(views), b);
    InUnion(Metadatas(views), b);
    InUnion(Payloads(views), b);
    if i :| 0 <= i < |views| && (b in Blocks(views[i].metadata) || b in Blocks(views[i].payload)) {
      assert b in Blocks(Metadatas(views)[i]) || b in Blocks(Payloads(views)[i]);
    }
  }

  function Earlier(r: Report): seq<Checkpoint>
    requires r.checkpoints != []
  {
    r.checkpoints[..|r.checkpoints| - 1]
  }

  /** The external blocks are what any earlier checkpoint holds and what other volumes' views hold at the last. */
  lemma ExternalIs(r: Report, q: Request, b: int)
    requires r.checkpoints != []
    ensures b in External(r, q) <==>
      || (exists i :: 0 <= i < |Earlier(r)| && (b in Blocks(Earlier(r)[i].metadata) || b in Blocks(Earlier(r)[i].payload)))
      || (exists v :: v in Peers(Endpoint(r).views, q.volume) && (b in Blocks(v.metadata) || b in Blocks(v.payload)))
  {
    var peers := Peers(Endpoint(r).views, q.volume);
    InEither(AllMetadata(Earlier(r)) + AllPayload(Earlier(r)), Metadatas(peers) + Payloads(peers), b);
    InEarlier(Earlier(r), b);
    InViews(peers, b);
    if v :| v in peers && (b in Blocks(v.metadata) || b in Blocks(v.payload)) {
      var i :| 0 <= i < |peers| && peers[i] == v;
    }
    if i :| 0 <= i < |peers| && (b in Blocks(peers[i].metadata) || b in Blocks(peers[i].payload)) {
      assert peers[i] in peers;
    }
  }

  lemma ExternalBounded(r: Report, q: Request)
    requires r.checkpoints != [] && ReportReadable(r, q)
    ensures External(r, q) <= Interval(0, ADDRESS_LIMIT)
  {
    ExternalUsable(r, q);
    O.AllBounded(ExternalLists(r, q));
  }

  ghost function ReclaimBounds(rows: seq<A.Measures>): seq<int> {
    seq(|rows|, i requires 0 <= i < |rows| => rows[i].candidate)
  }

  lemma RowsCount(r: Report, live: ProfileView, snapshots: seq<ProfileView>, external: set<int>)
    requires RowsValid(r, live, snapshots, external) && external <= Interval(0, ADDRESS_LIMIT)
    ensures |r.rows| == |snapshots|
    ensures forall i :: 0 <= i < |snapshots| ==>
      && A.Kind(r.rows, true)[i] == V.Expected(Metadatas(snapshots), i, Blocks(live.metadata), external)
      && A.Kind(r.rows, false)[i] == V.Expected(Payloads(snapshots), i, Blocks(live.payload), external)
  {
    var e := M.ListOf(external, ADDRESS_LIMIT);
    var views, now := Views(snapshots), V.View(live.metadata, live.payload);
    assert r.rows == V.ExpectedRows(views, now, e);
    assert V.Lists(views, true) == Metadatas(snapshots) && V.Lists(views, false) == Payloads(snapshots);
    forall i | 0 <= i < |snapshots|
      ensures A.Kind(r.rows, true)[i] == V.Expected(Metadatas(snapshots), i, Blocks(live.metadata), external)
      ensures A.Kind(r.rows, false)[i] == V.Expected(Payloads(snapshots), i, Blocks(live.payload), external)
    {
      V.AcceptedRowsCount(r.rows, views, now, e, i);
    }
  }

  /**
   * In an accepted report the reclaim bounds of the selected volume's snapshots never add up to more than the
   * blocks that they hold and that neither its current view, nor an earlier checkpoint, nor another volume holds.
   */
  lemma AcceptedReclaimFits(r: Report, q: Request)
    requires ReportReadable(r, q) && ReportValid(r, q)
    ensures var snapshots, live := Snapshots(r, q), Currents(r, q)[0];
      && Sum(ReclaimBounds(A.Kind(r.rows, true)))
           <= |UnionOf(V.BlockSets(Metadatas(snapshots))) - (Blocks(live.metadata) + External(r, q))| <= r.snapshotMetadata
      && Sum(ReclaimBounds(A.Kind(r.rows, false)))
           <= |UnionOf(V.BlockSets(Payloads(snapshots))) - (Blocks(live.payload) + External(r, q))| <= r.snapshotPayload
  {
    var snapshots, live, external := Snapshots(r, q), Currents(r, q)[0], External(r, q);
    ExternalBounded(r, q);
    RowsCount(r, live, snapshots, external);
    KindFits(A.Kind(r.rows, true), Metadatas(snapshots), Blocks(live.metadata), external);
    KindFits(A.Kind(r.rows, false), Payloads(snapshots), Blocks(live.payload), external);
  }

  lemma KindFits(rows: seq<A.Measures>, lists: seq<seq<Span>>, live: set<int>, kept: set<int>)
    requires |rows| == |lists| && forall i :: 0 <= i < |rows| ==> rows[i] == V.Expected(lists, i, live, kept)
    ensures Sum(ReclaimBounds(rows)) <= |UnionOf(V.BlockSets(lists)) - (live + kept)| <= |UnionOf(V.BlockSets(lists))|
  {
    V.RecomputedRowsPassNumericTests(rows, lists, live, kept, |UnionOf(V.BlockSets(lists))|);
    Exact.SubsetSize(UnionOf(V.BlockSets(lists)) - (live + kept), UnionOf(V.BlockSets(lists)));
  }
}
