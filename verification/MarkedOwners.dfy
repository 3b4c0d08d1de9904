/** The marked-owner report: every count recomputed from ranges, and what the marked reclaim bounds add up to. */
module MarkedOwners {
  import opened Prelude
  import opened BlockRanges
  import opened SnapshotFamilies
  import opened SnapshotMeasures
  import A = SnapshotAttribution
  import V = VisibleSnapshots
  import MR = MarkedReferences
  import M = ProfileSetMath

  /** One view's ranges; the last view is the current one. */
  datatype View = View(metadata: seq<Span>, payload: seq<Span>, unmarked: seq<Span>, marked: seq<Span>)

  datatype Row = Row(metadata: A.Measures, marked: A.Measures, sharedWithUnmarked: nat)

  datatype Report = Report(
    protectedMetadata: seq<Span>, protectedPayload: seq<Span>, catalog: seq<Span>, views: seq<View>, rows: seq<Row>,
    catalogMetadata: nat, metadataUnion: nat, payloadUnion: nat)

  function Metadata(views: seq<View>): seq<seq<Span>> {
    seq(|views|, i requires 0 <= i < |views| => views[i].metadata)
  }

  function Payload(views: seq<View>): seq<seq<Span>> {
    seq(|views|, i requires 0 <= i < |views| => views[i].payload)
  }

  ghost predicate ViewUsable(v: View) {
    && Usable(v.metadata) && Usable(v.payload) && Usable(v.unmarked) && Usable(v.marked)
    && |v.metadata| + |v.payload| <= MAX_RANGES
  }

  /** What reading the ranges has already checked. */
  ghost predicate Readable(r: Report) {
    && r.views != [] && (forall i :: 0 <= i < |r.views| ==> ViewUsable(r.views[i]))
    && Usable(r.protectedMetadata) && Usable(r.protectedPayload) && Usable(r.catalog)
  }

  ghost function Protected(r: Report): set<int> {
    Blocks(r.protectedMetadata) + Blocks(r.protectedPayload)
  }

  ghost function PayloadSets(views: seq<View>): seq<set<int>> {
    V.BlockSets(Payload(views))
  }

  ghost function MetadataSets(views: seq<View>): seq<set<int>> {
    V.BlockSets(Metadata(views))
  }

  /** The current view's metadata, against which a snapshot's is compared; the current view is compared with nothing. */
  function CurrentMetadata(views: seq<View>, i: nat): seq<Span>
    requires i < |views|
  {
    if i + 1 == |views| then [] else views[|views| - 1].metadata
  }

  ghost function ExpectedMetadata(r: Report, i: nat): A.Measures
    requires i < |r.views|
  {
    MeasuresBeside(Blocks(r.views[i].metadata), Blocks(CurrentMetadata(r.views, i)),
                   Others(MR.Snapshots(MetadataSets(r.views)), i), Protected(r), Blocks([]))
  }

  /** The blocks a view's marked payload is compared with: the current view's payload, or its own unmarked blocks if current. */
  function Beside(views: seq<View>, i: nat): seq<Span>
    requires i < |views|
  {
    if i + 1 == |views| then views[i].unmarked else views[|views| - 1].payload
  }

  ghost function ExpectedMarked(r: Report, i: nat): A.Measures
    requires i < |r.views|
  {
    MeasuresBeside(Blocks(r.views[i].marked), Blocks(Beside(r.views, i)),
                   Others(MR.Snapshots(PayloadSets(r.views)), i), Protected(r), Blocks(r.views[i].unmarked))
  }

  /** These count view i's metadata; At keeps that folded until a proof asks for it. */
  ghost predicate CountsMetadata(r: Report, i: nat, m: A.Measures) {
    forall k: nat {:trigger At(k)} :: At(k) && k == i < |r.views| ==> m == ExpectedMetadata(r, k)
  }

  ghost predicate CountsMarked(r: Report, i: nat, m: A.Measures) {
    forall k: nat {:trigger At(k)} :: At(k) && k == i < |r.views| ==> m == ExpectedMarked(r, k)
  }

  /** Row i counts its view's metadata and marked payload, and the blocks marked and unmarked at once. */
  ghost predicate RowValid(r: Report, i: nat)
    requires |r.rows| == |r.views| && i < |r.views|
  {
    && CountsMetadata(r, i, r.rows[i].metadata) && CountsMarked(r, i, r.rows[i].marked)
    && r.rows[i].sharedWithUnmarked == |Blocks(r.views[i].marked) * Blocks(r.views[i].unmarked)|
  }

  ghost predicate SplitValid(v: View) {
    v.metadata != [] && Blocks(v.payload) == Blocks(v.marked) + Blocks(v.unmarked)
  }

  /** Metadata and payload never meet, in the views, the protected blocks and the catalog. */
  ghost predicate KindsApart(r: Report) {
    var m, p := UnionOf(MetadataSets(r.views)), UnionOf(PayloadSets(r.views));
    var pm, pp, catalog := Blocks(r.protectedMetadata), Blocks(r.protectedPayload), Blocks(r.catalog);
    m !! p && pm !! pp && pm !! p && pp !! m && catalog !! p && catalog !! pp && m <= catalog
  }

  ghost predicate AmountsValid(r: Report) {
    && r.catalogMetadata == |Blocks(r.catalog)|
    && r.metadataUnion == |UnionOf(MetadataSets(r.views))| && r.payloadUnion == |UnionOf(PayloadSets(r.views))|
  }

  ghost predicate RowsValid(r: Report) {
    |r.rows| == |r.views| && forall i: nat :: i < |r.rows| ==> RowValid(r, i)
  }

  ghost predicate ReportValid(r: Report) {
    && r.catalog != [] && KindsApart(r) && AmountsValid(r) && RowsValid(r)
    && forall i :: 0 <= i < |r.views| ==> SplitValid(r.views[i])
  }

  // ---- Validation ----

  /** Every view has metadata, and its payload is its marked and unmarked blocks together. */
  method SplitsAll(math: M.ProfileSetMath, views: seq<View>) returns (verdict: M.Verdict)
    requires 0 <= math.work <= M.BUDGET && forall i :: 0 <= i < |views| ==> ViewUsable(views[i])
    modifies math
    ensures math.work >= old(math.work)
    ensures verdict == M.OverBudget <==> math.work > M.BUDGET
    ensures verdict == M.Accepted ==> forall i :: 0 <= i < |views| ==> SplitValid(views[i])
    ensures verdict == M.Refused ==> exists i :: 0 <= i < |views| && !SplitValid(views[i])
  {
    for i := 0 to |views|
      invariant old(math.work) <= math.work <= M.BUDGET
      invariant forall k :: 0 <= k < i ==> SplitValid(views[k])
    {
      assert ViewUsable(views[i]);
      var ok := math.Tick();
      if !ok { return M.OverBudget; }
      if views[i].metadata == [] {
        assert !SplitValid(views[i]);
        return M.Refused;
      }
      verdict := SplitsPayload(math, views[i].marked, views[i].unmarked, views[i].payload);
      if verdict == M.Refused { assert !SplitValid(views[i]); }
      if verdict != M.Accepted { return; }
    }
    verdict := M.Accepted;
  }

  lemma OthersOfNone(family: seq<set<int>>)
    ensures Others(family, -1) == UnionOf(family)
  {
  }

  /** All views' ranges of one kind, merged. */
  method UnionAll(math: M.ProfileSetMath, lists: seq<seq<Span>>) returns (ok: bool, u: seq<Span>)
    requires 0 <= math.work <= M.BUDGET && V.AllUsable(lists)
    modifies math
    ensures math.work >= old(math.work)
    ensures !ok ==> math.work > M.BUDGET
    ensures ok ==> math.work <= M.BUDGET && Usable(u) && Blocks(u) == UnionOf(V.BlockSets(lists))
  {
    var listed: seq<Span> := [];
    assert Others(V.BlockSets(lists[..0]), -1) == {};
    for n := 0 to |lists|
      invariant math.work == old(math.work) && V.Gathered(listed, lists, -1, n)
    {
      V.GatherStep(listed, lists, -1, n);
      listed := listed + lists[n];
    }
    assert lists[..|lists|] == lists;
    OthersOfNone(V.BlockSets(lists));
    V.OthersBounded(lists, |lists|);
    AllBounded(lists);
    ok, u := math.Union(listed);
  }

  lemma AllBounded(lists: seq<seq<Span>>)
    requires V.AllUsable(lists)
    ensures UnionOf(V.BlockSets(lists)) <= Interval(0, ADDRESS_LIMIT)
  {
    forall b | b in UnionOf(V.BlockSets(lists)) ensures b in Interval(0, ADDRESS_LIMIT) {
      var k :| 0 <= k < |lists| && b in V.BlockSets(lists)[k];
      assert b in Blocks(lists[k]);
    }
  }

  method Apart(math: M.ProfileSetMath, a: seq<Span>, b: seq<Span>) returns (verdict: M.Verdict)
    requires 0 <= math.work <= M.BUDGET && Usable(a) && Usable(b)
    modifies math
    ensures math.work >= old(math.work)
    ensures verdict == M.OverBudget <==> math.work > M.BUDGET
    ensures verdict != M.OverBudget ==> (verdict == M.Accepted <==> Blocks(a) !! Blocks(b))
  {
    verdict := math.Disjoint(a, b);
  }

  method Inside(math: M.ProfileSetMath, a: seq<Span>, b: seq<Span>) returns (verdict: M.Verdict)
    requires 0 <= math.work <= M.BUDGET && Usable(a) && Usable(b)
    modifies math
    ensures math.work >= old(math.work)
    ensures verdict == M.OverBudget <==> math.work > M.BUDGET
    ensures verdict == M.Accepted ==> Blocks(a) <= Blocks(b)
    ensures verdict == M.Refused ==> !(Blocks(a) <= Blocks(b))
  {
    var ok, extra := math.Difference(a, b);
    if !ok { return M.OverBudget; }
    NoBlocks(extra);
    NothingLeft(Blocks(a), Blocks(b));
    verdict := if extra == [] then M.Accepted else M.Refused;
  }

  lemma NothingLeft(a: set<int>, b: set<int>)
    ensures a - b == {} <==> a <= b
  {
    if a - b == {} {
      forall x | x in a ensures x in b {
        assert x !in a - b;
      }
    }
  }

  method CountIs(math: M.ProfileSetMath, s: seq<Span>, amount: nat) returns (verdict: M.Verdict)
    requires 0 <= math.work <= M.BUDGET && Usable(s)
    modifies math
    ensures math.work >= old(math.work)
    ensures verdict == M.OverBudget <==> math.work > M.BUDGET
    ensures verdict != M.OverBudget ==> (verdict == M.Accepted <==> amount == |Blocks(s)|)
  {
    var ok, n := CountOf(math, s);
    verdict := if !ok then M.OverBudget else if amount == n then M.Accepted else M.Refused;
  }

  /** The visible unions, the protected ranges, and each against the other's other kind. */
  method ViewsApart(math: M.ProfileSetMath, r: Report, m: seq<Span>, p: seq<Span>) returns (verdict: M.Verdict)
    requires 0 <= math.work <= M.BUDGET && Readable(r) && Usable(m) && Usable(p)
    modifies math
    ensures math.work >= old(math.work)
    ensures verdict == M.OverBudget <==> math.work > M.BUDGET
    ensures verdict != M.OverBudget ==> (verdict == M.Accepted <==>
      && Blocks(m) !! Blocks(p) && Blocks(r.protectedMetadata) !! Blocks(r.protectedPayload)
      && Blocks(r.protectedMetadata) !! Blocks(p) && Blocks(r.protectedPayload) !! Blocks(m))
  {
    verdict := Apart(math, m, p);
    if verdict != M.Accepted { return; }
    verdict := Apart(math, r.protectedMetadata, r.protectedPayload);
    if verdict != M.Accepted { return; }
    verdict := Apart(math, r.protectedMetadata, p);
    if verdict != M.Accepted { return; }
    verdict := Apart(math, r.protectedPayload, m);
  }

  /** Then the catalog, which holds all visible metadata and no payload. */
  method ValidateApart(math: M.ProfileSetMath, r: Report, m: seq<Span>, p: seq<Span>) returns (verdict: M.Verdict)
    requires 0 <= math.work <= M.BUDGET && Readable(r) && Usable(m) && Usable(p)
    requires Blocks(m) == UnionOf(MetadataSets(r.views)) && Blocks(p) == UnionOf(PayloadSets(r.views))
    modifies math
    ensures math.work >= old(math.work)
    ensures verdict == M.OverBudget <==> math.work > M.BUDGET
    ensures verdict != M.OverBudget ==> (verdict == M.Accepted <==> KindsApart(r))
  {
    verdict := ViewsApart(math, r, m, p);
    if verdict != M.Accepted { return; }
    verdict := Apart(math, r.catalog, p);
    if verdict != M.Accepted { return; }
    verdict := Apart(math, r.catalog, r.protectedPayload);
    if verdict != M.Accepted { return; }
    verdict := Inside(math, m, r.catalog);
  }

  /** The three reported totals. */
  method ValidateAmounts(math: M.ProfileSetMath, r: Report, m: seq<Span>, p: seq<Span>) returns (verdict: M.Verdict)
    requires 0 <= math.work <= M.BUDGET && Readable(r) && Usable(m) && Usable(p)
    requires Blocks(m) == UnionOf(MetadataSets(r.views)) && Blocks(p) == UnionOf(PayloadSets(r.views))
    modifies math
    ensures math.work >= old(math.work)
    ensures verdict == M.OverBudget <==> math.work > M.BUDGET
    ensures verdict != M.OverBudget ==> (verdict == M.Accepted <==> AmountsValid(r))
  {
    verdict := CountIs(math, r.catalog, r.catalogMetadata);
    if verdict != M.Accepted { return; }
    verdict := CountIs(math, m, r.metadataUnion);
    if verdict != M.Accepted { return; }
    verdict := CountIs(math, p, r.payloadUnion);
  }

  /** The unions, their separation, and the totals. */
  method ValidateUnions(math: M.ProfileSetMath, r: Report) returns (verdict: M.Verdict)
    requires 0 <= math.work <= M.BUDGET && Readable(r)
    modifies math
    ensures math.work >= old(math.work)
    ensures verdict == M.OverBudget <==> math.work > M.BUDGET
    ensures verdict != M.OverBudget ==> (verdict == M.Accepted <==> KindsApart(r) && AmountsValid(r))
  {
    ColumnsUsable(r);
    var ok, m := UnionAll(math, Metadata(r.views));
    if !ok { return M.OverBudget; }
    var p;
    ok, p := UnionAll(math, Payload(r.views));
    if !ok { return M.OverBudget; }
    verdict := ValidateApart(math, r, m, p);
    if verdict != M.Accepted { return; }
    verdict := ValidateAmounts(math, r, m, p);
  }

  lemma ColumnsUsable(r: Report)
    requires Readable(r)
    ensures V.AllUsable(Metadata(r.views)) && V.AllUsable(Payload(r.views))
  {
    forall i | 0 <= i < |r.views| ensures Usable(r.views[i].metadata) && Usable(r.views[i].payload) {
      assert ViewUsable(r.views[i]);
    }
  }

  /** Both kinds' ranges of the first n views but view i's. */
  ghost predicate GatheredBoth(metadata: seq<Span>, payload: seq<Span>, views: seq<View>, i: nat, n: nat)
    requires n <= |views|
  {
    V.Gathered(metadata, Metadata(views), i, n) && V.Gathered(payload, Payload(views), i, n)
  }

  lemma GatherBothStep(metadata: seq<Span>, payload: seq<Span>, views: seq<View>, i: nat, n: nat)
    requires n < |views| && Usable(views[n].metadata) && Usable(views[n].payload)
    requires GatheredBoth(metadata, payload, views, i, n)
    ensures n == i ==> GatheredBoth(metadata, payload, views, i, n + 1)
    ensures n != i ==> GatheredBoth(metadata + views[n].metadata, payload + views[n].payload, views, i, n + 1)
  {
    V.GatherStep(metadata, Metadata(views), i, n);
    V.GatherStep(payload, Payload(views), i, n);
  }

  lemma GatheredNone(views: seq<View>, i: nat)
    ensures GatheredBoth([], [], views, i, 0)
  {
    assert V.BlockSets(Metadata(views)[..0]) == [] && V.BlockSets(Payload(views)[..0]) == [];
  }

  /** The ranges of both kinds of every snapshot but view i, charged together. */
  method GatherBoth(math: M.ProfileSetMath, views: seq<View>, i: nat)
    returns (ok: bool, metadata: seq<Span>, payload: seq<Span>)
    requires 0 <= math.work <= M.BUDGET && views != []
    requires forall k :: 0 <= k < |views| ==> ViewUsable(views[k])
    modifies math
    ensures math.work >= old(math.work)
    ensures !ok ==> math.work > M.BUDGET
    ensures ok ==> math.work <= M.BUDGET && GatheredBoth(metadata, payload, views, i, |views| - 1)
  {
    metadata, payload := [], [];
    GatheredNone(views, i);
    for j := 0 to |views| - 1
      invariant old(math.work) <= math.work <= M.BUDGET
      invariant GatheredBoth(metadata, payload, views, i, j)
    {
      assert ViewUsable(views[j]);
      GatherBothStep(metadata, payload, views, i, j);
      ok := math.Tick();
      if !ok { return; }
      if j != i {
        ok := math.Tick(|views[j].metadata| + |views[j].payload|);
        if !ok { return; }
        metadata, payload := metadata + views[j].metadata, payload + views[j].payload;
      }
    }
    ok := true;
  }

  /** Gathered ranges of the other snapshots, merged. */
  method MergeOthers(math: M.ProfileSetMath, lists: seq<seq<Span>>, i: nat, listed: seq<Span>) returns (ok: bool, u: seq<Span>)
    requires 0 <= math.work <= M.BUDGET && lists != [] && V.AllUsable(lists) && V.Gathered(listed, lists, i, |lists| - 1)
    modifies math
    ensures math.work >= old(math.work)
    ensures !ok ==> math.work > M.BUDGET
    ensures ok ==> math.work <= M.BUDGET && Usable(u) && Blocks(u) == Others(MR.Snapshots(V.BlockSets(lists)), i)
  {
    MR.SnapshotSets(lists);
    V.OthersBounded(lists[..|lists| - 1], i);
    ok, u := math.Union(listed);
  }

  /** One set of seven counts, recomputed and compared. */
  method MeasuresMatch(math: M.ProfileSetMath, row: A.Measures, refs: seq<Span>, current: seq<Span>, other: seq<Span>,
                       external: seq<Span>, same: seq<Span>) returns (verdict: M.Verdict)
    requires 0 <= math.work <= M.BUDGET
    requires Usable(refs) && Usable(current) && Usable(other) && Usable(external) && Usable(same)
    modifies math
    ensures math.work >= old(math.work)
    ensures verdict == M.OverBudget <==> math.work > M.BUDGET
    ensures verdict != M.OverBudget ==> (verdict == M.Accepted <==>
      row == MeasuresBeside(Blocks(refs), Blocks(current), Blocks(other), Blocks(external), Blocks(same)))
  {
    var ok, m := ComputeMeasures(math, refs, current, other, external, same);
    verdict := if !ok then M.OverBudget else if row == m then M.Accepted else M.Refused;
  }

  lemma ViewsCompared(r: Report, i: nat)
    requires Readable(r) && i < |r.views|
    ensures ViewUsable(r.views[i]) && Usable(CurrentMetadata(r.views, i)) && Usable(Beside(r.views, i)) && Usable([])
  {
    assert ViewUsable(r.views[|r.views| - 1]);
    V.UsableEmpty();
  }

  method ValidateMetadata(math: M.ProfileSetMath, r: Report, i: nat, row: A.Measures, listed: seq<Span>, external: seq<Span>)
    returns (verdict: M.Verdict)
    requires 0 <= math.work <= M.BUDGET && Readable(r) && i < |r.views|
    requires Usable(external) && Blocks(external) == Protected(r) && V.Gathered(listed, Metadata(r.views), i, |r.views| - 1)
    modifies math
    ensures math.work >= old(math.work)
    ensures verdict == M.OverBudget <==> math.work > M.BUDGET
    ensures verdict != M.OverBudget ==> (verdict == M.Accepted <==> CountsMetadata(r, i, row))
  {
    assert At(i);
    ColumnsUsable(r);
    ViewsCompared(r, i);
    var ok, other := MergeOthers(math, Metadata(r.views), i, listed);
    if !ok { return M.OverBudget; }
    verdict := MeasuresMatch(math, row, r.views[i].metadata, CurrentMetadata(r.views, i), other, external, []);
  }

  method ValidateMarked(math: M.ProfileSetMath, r: Report, i: nat, row: A.Measures, listed: seq<Span>, external: seq<Span>)
    returns (verdict: M.Verdict)
    requires 0 <= math.work <= M.BUDGET && Readable(r) && i < |r.views|
    requires Usable(external) && Blocks(external) == Protected(r) && V.Gathered(listed, Payload(r.views), i, |r.views| - 1)
    modifies math
    ensures math.work >= old(math.work)
    ensures verdict == M.OverBudget <==> math.work > M.BUDGET
    ensures verdict != M.OverBudget ==> (verdict == M.Accepted <==> CountsMarked(r, i, row))
  {
    assert At(i);
    ColumnsUsable(r);
    ViewsCompared(r, i);
    var ok, other := MergeOthers(math, Payload(r.views), i, listed);
    if !ok { return M.OverBudget; }
    verdict := MeasuresMatch(math, row, r.views[i].marked, Beside(r.views, i), other, external, r.views[i].unmarked);
  }

  /** One row: metadata, marked payload, and the blocks marked and unmarked at once. */
  method ValidateRow(math: M.ProfileSetMath, r: Report, i: nat, external: seq<Span>) returns (verdict: M.Verdict)
    requires 0 <= math.work <= M.BUDGET && Readable(r) && i < |r.views| == |r.rows|
    requires Usable(external) && Blocks(external) == Protected(r)
    modifies math
    ensures math.work >= old(math.work)
    ensures verdict == M.OverBudget <==> math.work > M.BUDGET
    ensures verdict != M.OverBudget ==> (verdict == M.Accepted <==> RowValid(r, i))
  {
    ViewsCompared(r, i);
    var ok := math.Tick();
    if !ok { return M.OverBudget; }
    var metadata, payload;
    ok, metadata, payload := GatherBoth(math, r.views, i);
    if !ok { return M.OverBudget; }
    verdict := ValidateMetadata(math, r, i, r.rows[i].metadata, metadata, external);
    if verdict != M.Accepted { return; }
    verdict := ValidateMarked(math, r, i, r.rows[i].marked, payload, external);
    if verdict != M.Accepted { return; }
    verdict := SharedIs(math, r.views[i], r.rows[i].sharedWithUnmarked);
  }

  method SharedIs(math: M.ProfileSetMath, v: View, amount: nat) returns (verdict: M.Verdict)
    requires 0 <= math.work <= M.BUDGET && ViewUsable(v)
    modifies math
    ensures math.work >= old(math.work)
    ensures verdict == M.OverBudget <==> math.work > M.BUDGET
    ensures verdict != M.OverBudget ==> (verdict == M.Accepted <==> amount == |Blocks(v.marked) * Blocks(v.unmarked)|)
  {
    var ok, n := CountOf(math, v.marked);
    if !ok { return M.OverBudget; }
    ok, n := CountCommon(math, v.marked, n, v.unmarked);
    verdict := if !ok then M.OverBudget else if amount == n then M.Accepted else M.Refused;
  }

  /** All rows against the merged protected ranges. */
  method ValidateRows(math: M.ProfileSetMath, r: Report, external: seq<Span>) returns (verdict: M.Verdict)
    requires 0 <= math.work <= M.BUDGET && Readable(r) && |r.rows| == |r.views|
    requires Usable(external) && Blocks(external) == Protected(r)
    modifies math
    ensures math.work >= old(math.work)
    ensures verdict == M.OverBudget <==> math.work > M.BUDGET
    ensures verdict == M.Accepted ==> RowsValid(r)
    ensures verdict == M.Refused ==> !RowsValid(r)
  {
    for i := 0 to |r.views|
      invariant old(math.work) <= math.work <= M.BUDGET
      invariant forall k: nat :: k < i ==> RowValid(r, k)
    {
      verdict := ValidateRow(math, r, i, external);
      if verdict != M.Accepted { return; }
    }
    verdict := M.Accepted;
  }

  /** The whole report: accepted only if every amount counts the blocks it names, refused only if one does not. */
  method ValidateReport(math: M.ProfileSetMath, r: Report) returns (verdict: M.Verdict)
    requires 0 <= math.work <= M.BUDGET && Readable(r)
    modifies math
    ensures verdict == M.OverBudget <==> math.work > M.BUDGET
    ensures verdict == M.Accepted ==> ReportValid(r)
    ensures verdict == M.Refused ==> !ReportValid(r)
  {
    UsableUnion(r.protectedMetadata, r.protectedPayload, []);
    assert r.protectedMetadata + r.protectedPayload + [] == r.protectedMetadata + r.protectedPayload;
    var ok, external := math.Union(r.protectedMetadata + r.protectedPayload);
    if !ok { return M.OverBudget; }
    if r.catalog == [] || |r.rows| != |r.views| { return M.Refused; }
    verdict := SplitsAll(math, r.views);
    if verdict != M.Accepted { return; }
    verdict := ValidateUnions(math, r);
    if verdict != M.Accepted { return; }
    verdict := ValidateRows(math, r, external);
  }

  // ---- What an accepted report's marked bounds mean ----

  ghost function Bounds(rows: seq<Row>): seq<int> {
    seq(|rows|, i requires 0 <= i < |rows| => rows[i].marked.candidate)
  }

  lemma SameBeside(marked: set<int>, live: set<int>, snapshots: set<int>, others: set<int>, kept: set<int>, same: set<int>)
    requires live + snapshots + same == others + same
    ensures MeasuresBeside(marked, live, snapshots, kept, same).candidate == MeasuresBeside(marked, {}, others, kept, same).candidate
  {
    assert {} + others + same == live + snapshots + same;
  }

  lemma OthersWithLast(family: seq<set<int>>, i: nat, same: set<int>, last: set<int>)
    requires i < |family| && last == family[|family| - 1]
    ensures (if i + 1 == |family| then same else last) + Others(MR.Snapshots(family), i) + same == Others(family, i) + same
  {
    MR.OthersOfAll(family, i);
  }

  /** Whichever view it is, what its marked blocks are compared with and its own unmarked blocks are all the other views and those. */
  lemma BesideIsOthers(views: seq<View>, i: nat)
    requires i < |views|
    ensures var same, snapshots := Blocks(views[i].unmarked), Others(MR.Snapshots(PayloadSets(views)), i);
      Blocks(Beside(views, i)) + snapshots + same == Others(PayloadSets(views), i) + same
  {
    OthersWithLast(PayloadSets(views), i, Blocks(views[i].unmarked), Blocks(views[|views| - 1].payload));
  }

  /** For every view, the current one too, the bound counts the marked blocks that nothing else in any view or protected holds. */
  lemma BoundIsMarked(r: Report, i: nat)
    requires |r.rows| == |r.views| && i < |r.views| && RowValid(r, i)
    ensures r.rows[i].marked.candidate == MeasuresBeside(Blocks(r.views[i].marked), {}, Others(PayloadSets(r.views), i),
                                                         Protected(r), Blocks(r.views[i].unmarked)).candidate
  {
    assert At(i);
    BesideIsOthers(r.views, i);
    SameBeside(Blocks(r.views[i].marked), Blocks(Beside(r.views, i)), Others(MR.Snapshots(PayloadSets(r.views)), i),
               Others(PayloadSets(r.views), i), Protected(r), Blocks(r.views[i].unmarked));
  }

  /** The payload sets with view i keeping only its unmarked blocks. */
  ghost function Unmarked(views: seq<View>, i: nat): seq<set<int>>
    requires i < |views|
  {
    PayloadSets(views)[i := Blocks(views[i].unmarked)]
  }

  lemma MarginalPart(family: seq<set<int>>, i: nat, marked: set<int>, unmarked: set<int>, kept: set<int>)
    requires i < |family| && family[i] == marked + unmarked
    ensures MeasuresBeside(marked, {}, Others(family, i), kept, unmarked).candidate
         == |UnionOf(family) + kept| - |UnionOf(family[i := unmarked]) + kept|
  {
    MarkedReclaimIsMarginal(family, i, marked, unmarked, {}, kept);
    assert {} + UnionOf(family) == UnionOf(family);
    assert {} + UnionOf(family[i := unmarked]) == UnionOf(family[i := unmarked]);
  }

  lemma RowAndSplit(r: Report, i: nat)
    requires ReportValid(r) && i < |r.views|
    ensures RowValid(r, i) && PayloadSets(r.views)[i] == Blocks(r.views[i].marked) + Blocks(r.views[i].unmarked)
  {
    assert SplitValid(r.views[i]);
  }

  /** The marked bound of a view is what the visible and protected blocks lose when it keeps only its unmarked payload. */
  lemma AcceptedBoundIsMarginal(r: Report, i: nat)
    requires ReportValid(r) && i < |r.views|
    ensures r.rows[i].marked.candidate
         == |UnionOf(PayloadSets(r.views)) + Protected(r)| - |UnionOf(Unmarked(r.views, i)) + Protected(r)|
  {
    RowAndSplit(r, i);
    BoundIsMarked(r, i);
    MarginalPart(PayloadSets(r.views), i, Blocks(r.views[i].marked), Blocks(r.views[i].unmarked), Protected(r));
  }

  lemma BoundsAreCandidates(r: Report, marked: seq<set<int>>, unmarked: seq<set<int>>)
    requires |marked| == |unmarked| == |r.views| && RowsValid(r)
    requires forall i :: 0 <= i < |r.views| ==> marked[i] == Blocks(r.views[i].marked) && unmarked[i] == Blocks(r.views[i].unmarked)
    ensures Bounds(r.rows) == MarkedCandidates(marked, unmarked, PayloadSets(r.views), {}, Protected(r))
  {
    forall i | 0 <= i < |r.rows|
      ensures Bounds(r.rows)[i] == MarkedCandidates(marked, unmarked, PayloadSets(r.views), {}, Protected(r))[i]
    {
      BoundIsMarked(r, i);
    }
  }

  lemma CandidatesFit(payload: seq<set<int>>, marked: seq<set<int>>, unmarked: seq<set<int>>, kept: set<int>)
    requires |marked| == |unmarked| == |payload|
    requires forall i :: 0 <= i < |payload| ==> payload[i] == marked[i] + unmarked[i]
    ensures Sum(MarkedCandidates(marked, unmarked, payload, {}, kept)) <= |UnionOf(payload) - kept| <= |UnionOf(payload)|
  {
    MarkedReclaimSum(marked, unmarked, payload, {}, kept);
    assert {} + kept == kept;
    MR.Exact.SubsetSize(UnionOf(payload) - kept, UnionOf(payload));
  }

  /** Together the marked bounds of an accepted report never exceed the visible payload that is not protected. */
  lemma AcceptedBoundsFit(r: Report)
    requires ReportValid(r)
    ensures Sum(Bounds(r.rows)) <= |UnionOf(PayloadSets(r.views)) - Protected(r)| <= r.payloadUnion
  {
    var n := |r.views|;
    var marked := seq(n, i requires 0 <= i < n => Blocks(r.views[i].marked));
    var unmarked := seq(n, i requires 0 <= i < n => Blocks(r.views[i].unmarked));
    forall i | 0 <= i < n ensures PayloadSets(r.views)[i] == marked[i] + unmarked[i] {
      RowAndSplit(r, i);
    }
    BoundsAreCandidates(r, marked, unmarked);
    CandidatesFit(PayloadSets(r.views), marked, unmarked, Protected(r));
  }

  // ---- What each column of an accepted report means, view by view ----

  /** Row i has the counts of view i. */
  ghost predicate Counted(r: Report, i: nat) {
    && |r.rows| == |r.views| && i < |r.views|
    && r.rows[i].metadata == ExpectedMetadata(r, i) && r.rows[i].marked == ExpectedMarked(r, i)
  }

  lemma RowCounts(r: Report, i: nat)
    requires |r.rows| == |r.views| && i < |r.views| && RowValid(r, i)
    ensures r.rows[i].metadata == ExpectedMetadata(r, i) && r.rows[i].marked == ExpectedMarked(r, i)
  {
    assert At(i);
  }

  lemma AcceptedRowCounts(r: Report, i: nat)
    requires ReportValid(r) && i < |r.views|
    ensures Counted(r, i)
  {
    RowCounts(r, i);
  }

  /** A row's counts against what the current view holds, and against what is protected. */
  ghost predicate ComparedWith(m: A.Measures, blocks: set<int>, current: set<int>, kept: set<int>) {
    && m.referenced == |blocks| && m.protectedBlocks == |blocks * kept|
    && m.sharedWithLive == |blocks * current| && m.absentFromLive == |blocks - current|
  }

  lemma CountedCompared(r: Report, i: nat)
    requires Counted(r, i)
    ensures ComparedWith(r.rows[i].metadata, Blocks(r.views[i].metadata), Blocks(CurrentMetadata(r.views, i)), Protected(r))
    ensures ComparedWith(r.rows[i].marked, Blocks(r.views[i].marked), Blocks(Beside(r.views, i)), Protected(r))
  {
  }

  lemma RowCompared(r: Report, i: nat, metadata: seq<Span>, payload: seq<Span>)
    requires ReportValid(r) && i < |r.views| && metadata == CurrentMetadata(r.views, i) && payload == Beside(r.views, i)
    ensures |r.rows| == |r.views|
    ensures ComparedWith(r.rows[i].metadata, Blocks(r.views[i].metadata), Blocks(metadata), Protected(r))
    ensures ComparedWith(r.rows[i].marked, Blocks(r.views[i].marked), Blocks(payload), Protected(r))
  {
    AcceptedRowCounts(r, i);
    CountedCompared(r, i);
  }

  lemma CurrentColumns(views: seq<View>, i: nat)
    requires i < |views|
    ensures i + 1 < |views| ==> CurrentMetadata(views, i) == views[|views| - 1].metadata && Beside(views, i) == views[|views| - 1].payload
    ensures i + 1 == |views| ==> CurrentMetadata(views, i) == [] && Beside(views, i) == views[i].unmarked
  {
  }

  /**
   * A snapshot is compared with the current view, which is the last: its metadata with that view's metadata,
   * its marked payload with that view's whole payload.
   */
  lemma SnapshotsAgainstCurrent(r: Report, i: nat)
    requires ReportValid(r) && i + 1 < |r.views|
    ensures |r.rows| == |r.views|
    ensures ComparedWith(r.rows[i].metadata, Blocks(r.views[i].metadata), Blocks(r.views[|r.views| - 1].metadata), Protected(r))
    ensures ComparedWith(r.rows[i].marked, Blocks(r.views[i].marked), Blocks(r.views[|r.views| - 1].payload), Protected(r))
  {
    CurrentColumns(r.views, i);
    RowCompared(r, i, r.views[|r.views| - 1].metadata, r.views[|r.views| - 1].payload);
  }

  /** The current view's metadata is compared with nothing, and its marked payload with its own unmarked blocks. */
  lemma CurrentAgainstItself(r: Report, i: nat)
    requires ReportValid(r) && i + 1 == |r.views|
    ensures |r.rows| == |r.views|
    ensures ComparedWith(r.rows[i].metadata, Blocks(r.views[i].metadata), {}, Protected(r))
    ensures r.rows[i].metadata.sharedWithLive == 0
    ensures ComparedWith(r.rows[i].marked, Blocks(r.views[i].marked), Blocks(r.views[i].unmarked), Protected(r))
  {
    CurrentColumns(r.views, i);
    RowCompared(r, i, [], r.views[i].unmarked);
    V.UsableEmpty();
    assert Blocks(r.views[i].metadata) * {} == {};
  }

  /** The blocks of the snapshots but view i; the current view, which is last, is none of them. */
  ghost function OtherSnapshots(family: seq<set<int>>, i: nat): set<int> {
    set j, b | 0 <= j < |family| - 1 && j != i && b in family[j] :: b
  }

  lemma OtherSnapshotsAre(family: seq<set<int>>, i: nat)
    requires |family| > 0
    ensures Others(MR.Snapshots(family), i) == OtherSnapshots(family, i)
  {
    var before := MR.Snapshots(family);
    forall b ensures b in Others(before, i) <==> b in OtherSnapshots(family, i) {
      if b in Others(before, i) {
        var j :| 0 <= j < |before| && j != i && b in before[j];
        assert b in family[j];
      }
      if b in OtherSnapshots(family, i) {
        var j :| 0 <= j < |family| - 1 && j != i && b in family[j];
        assert b in before[j];
      }
    }
  }

  /** Shared with other snapshots is what at least one of them holds; unique is what no other view, current or not, holds. */
  lemma ColumnsAgainstOthers(r: Report, i: nat)
    requires ReportValid(r) && i < |r.views|
    ensures var blocks, row := Blocks(r.views[i].metadata), r.rows[i].metadata;
      && row.sharedWithOthers == |blocks * OtherSnapshots(MetadataSets(r.views), i)|
      && row.unique == |blocks - Others(MetadataSets(r.views), i)|
    ensures var blocks, row := Blocks(r.views[i].marked), r.rows[i].marked;
      && row.sharedWithOthers == |blocks * OtherSnapshots(PayloadSets(r.views), i)|
      && row.unique == |blocks - (Others(PayloadSets(r.views), i) + Blocks(r.views[i].unmarked))|
  {
    AcceptedRowCounts(r, i);
    OtherSnapshotsAre(MetadataSets(r.views), i);
    OtherSnapshotsAre(PayloadSets(r.views), i);
    CurrentIsOther(r.views, i);
    BesideIsOthers(r.views, i);
  }

  /** For metadata too, the current view's blocks and the other snapshots' are all the other views' together. */
  lemma CurrentIsOther(views: seq<View>, i: nat)
    requires i < |views|
    ensures Blocks(CurrentMetadata(views, i)) + Others(MR.Snapshots(MetadataSets(views)), i) + Blocks([])
         == Others(MetadataSets(views), i)
  {
    OthersWithLast(MetadataSets(views), i, {}, Blocks(views[|views| - 1].metadata));
    V.UsableEmpty();
  }

  lemma BoundBeside(blocks: set<int>, live: set<int>, snapshots: set<int>, others: set<int>, kept: set<int>, same: set<int>)
    requires live + snapshots + same == others
    ensures MeasuresBeside(blocks, live, snapshots, kept, same).candidate == A.MeasuresOf(blocks, {}, others, kept).candidate
  {
    assert {} + others == others;
  }

  lemma MetadataBound(r: Report, i: nat)
    requires Counted(r, i)
    ensures r.rows[i].metadata.candidate
         == A.MeasuresOf(MetadataSets(r.views)[i], {}, Others(MetadataSets(r.views), i), Protected(r)).candidate
  {
    CurrentIsOther(r.views, i);
    BoundBeside(Blocks(r.views[i].metadata), Blocks(CurrentMetadata(r.views, i)), Others(MR.Snapshots(MetadataSets(r.views)), i),
                Others(MetadataSets(r.views), i), Protected(r), Blocks([]));
  }

  lemma WholeMarginal(family: seq<set<int>>, i: nat, kept: set<int>)
    requires i < |family|
    ensures A.MeasuresOf(family[i], {}, Others(family, i), kept).candidate == |UnionOf(family) + kept| - |Others(family, i) + kept|
  {
    ReclaimIsMarginal(family, i, {}, kept);
    assert {} + UnionOf(family) == UnionOf(family);
    assert {} + Others(family, i) == Others(family, i);
  }

  /** The metadata bound of a view is what the visible and protected metadata lose when that view goes. */
  lemma AcceptedMetadataBoundIsMarginal(r: Report, i: nat)
    requires ReportValid(r) && i < |r.views|
    ensures |r.rows| == |r.views| && r.rows[i].metadata.candidate
         == |UnionOf(MetadataSets(r.views)) + Protected(r)| - |Others(MetadataSets(r.views), i) + Protected(r)|
  {
    AcceptedRowCounts(r, i);
    MetadataBound(r, i);
    WholeMarginal(MetadataSets(r.views), i, Protected(r));
  }

  ghost function MetadataBounds(rows: seq<Row>): seq<int> {
    seq(|rows|, i requires 0 <= i < |rows| => rows[i].metadata.candidate)
  }

  lemma WholeBoundsFit(family: seq<set<int>>, kept: set<int>)
    ensures Sum(Candidates(family, {}, kept)) <= |UnionOf(family) - kept| <= |UnionOf(family)|
  {
    ReclaimSum(family, {}, kept);
    assert {} + kept == kept;
    MR.Exact.SubsetSize(UnionOf(family) - kept, UnionOf(family));
  }

  lemma MetadataBoundsAre(r: Report)
    requires |r.rows| == |r.views| && forall i: nat :: i < |r.views| ==> Counted(r, i)
    ensures MetadataBounds(r.rows) == Candidates(MetadataSets(r.views), {}, Protected(r))
  {
    forall i | 0 <= i < |r.rows|
      ensures MetadataBounds(r.rows)[i] == Candidates(MetadataSets(r.views), {}, Protected(r))[i]
    {
      MetadataBound(r, i);
    }
  }

  /** Together the metadata bounds never exceed the visible metadata that is not protected, whatever views share. */
  lemma AcceptedMetadataBoundsFit(r: Report)
    requires ReportValid(r)
    ensures Sum(MetadataBounds(r.rows)) <= |UnionOf(MetadataSets(r.views)) - Protected(r)| <= r.metadataUnion
  {
    forall i: nat | i < |r.views| ensures Counted(r, i) {
      AcceptedRowCounts(r, i);
    }
    MetadataBoundsAre(r);
    WholeBoundsFit(MetadataSets(r.views), Protected(r));
  }
}
