/** The visible-snapshot report: every row is recomputed from ranges, so an accepted report counts real blocks. */
module VisibleSnapshots {
  import opened Prelude
  import opened BlockRanges
  import opened SnapshotFamilies
  import opened SnapshotAttribution
  import opened SnapshotMeasures
  import Exact = AttributionExactness
  import M = ProfileSetMath

  /** The ranges one view holds. */
  datatype View = View(metadata: seq<Span>, payload: seq<Span>)

  ghost function BlockSets(lists: seq<seq<Span>>): seq<set<int>> {
    seq(|lists|, i requires 0 <= i < |lists| => Blocks(lists[i]))
  }

  function Lists(views: seq<View>, metadata: bool): seq<seq<Span>> {
    seq(|views|, i requires 0 <= i < |views| => if metadata then views[i].metadata else views[i].payload)
  }

  ghost predicate AllUsable(lists: seq<seq<Span>>) {
    forall i :: 0 <= i < |lists| ==> Usable(lists[i])
  }

  ghost predicate Gathered(listed: seq<Span>, lists: seq<seq<Span>>, i: int, n: nat)
    requires n <= |lists|
  {
    && NonEmpty(listed)
    && Blocks(listed) == Others(BlockSets(lists[..n]), i)
  }

  lemma OthersNext(before: seq<set<int>>, after: seq<set<int>>, i: int)
    requires |after| == |before| + 1 && forall k :: 0 <= k < |before| ==> after[k] == before[k]
    ensures Others(after, i) == Others(before, i) + if |before| == i then {} else after[|before|]
  {
    forall b ensures b in Others(after, i) <==> b in Others(before, i) || (|before| != i && b in after[|before|]) {
      if b in Others(after, i) {
        var k :| 0 <= k < |after| && k != i && b in after[k];
        assert k < |before| ==> b in before[k];
      }
      if b in Others(before, i) {
        var k :| 0 <= k < |before| && k != i && b in before[k];
        assert b in after[k];
      }
    }
  }

  lemma GatherStep(listed: seq<Span>, lists: seq<seq<Span>>, i: int, n: nat)
    requires n < |lists| && Usable(lists[n]) && Gathered(listed, lists, i, n)
    ensures Gathered(if n == i then listed else listed + lists[n], lists, i, n + 1)
  {
    var before, after := BlockSets(lists[..n]), BlockSets(lists[..n + 1]);
    forall k | 0 <= k < n ensures after[k] == before[k] {
      assert lists[..n + 1][k] == lists[..n][k];
    }
    assert lists[..n + 1][n] == lists[n];
    BlocksConcat(listed, lists[n]);
    OthersNext(before, after, i);
    assert NonEmpty(listed + lists[n]);
  }

  /** Merges the ranges of every list but one. */
  method OthersUnion(math: M.ProfileSetMath, lists: seq<seq<Span>>, i: nat) returns (ok: bool, u: seq<Span>)
    requires 0 <= math.work <= M.BUDGET && i < |lists| && AllUsable(lists)
    modifies math
    ensures math.work >= old(math.work)
    ensures !ok ==> math.work > M.BUDGET
    ensures ok ==> math.work <= M.BUDGET && Usable(u) && Blocks(u) == Others(BlockSets(lists), i)
  {
    var listed: seq<Span> := [];
    assert Others(BlockSets(lists[..0]), i) == {};
    for n := 0 to |lists|
      invariant math.work == old(math.work)
      invariant Gathered(listed, lists, i, n)
    {
      GatherStep(listed, lists, i, n);
      if n != i {
        listed := listed + lists[n];
      }
    }
    assert lists[..|lists|] == lists;
    OthersBounded(lists, i);
    ok, u := math.Union(listed);
  }

  lemma OthersBounded(lists: seq<seq<Span>>, i: nat)
    requires AllUsable(lists)
    ensures Others(BlockSets(lists), i) <= Interval(0, ADDRESS_LIMIT)
  {
    forall b | b in Others(BlockSets(lists), i) ensures b in Interval(0, ADDRESS_LIMIT) {
      var k :| 0 <= k < |lists| && k != i && b in BlockSets(lists)[k];
      assert b in Blocks(lists[k]);
    }
  }

  ghost function Expected(lists: seq<seq<Span>>, i: nat, live: set<int>, kept: set<int>): Measures
    requires i < |lists|
  {
    MeasuresOf(Blocks(lists[i]), live, Others(BlockSets(lists), i), kept)
  }

  /** One kind of one row: recomputed from the ranges and compared. */
  method ValidateMeasures(math: M.ProfileSetMath, row: Measures, lists: seq<seq<Span>>, i: nat, live: seq<Span>, external: seq<Span>)
    returns (verdict: M.Verdict)
    requires 0 <= math.work <= M.BUDGET && i < |lists| && AllUsable(lists) && Usable(live) && Usable(external)
    modifies math
    ensures math.work >= old(math.work)
    ensures verdict == M.OverBudget <==> math.work > M.BUDGET
    ensures verdict == M.Accepted ==> row == Expected(lists, i, Blocks(live), Blocks(external))
    ensures verdict == M.Refused ==> row != Expected(lists, i, Blocks(live), Blocks(external))
  {
    var ok, other := OthersUnion(math, lists, i);
    if !ok { return M.OverBudget; }
    UsableEmpty();
    var m: Measures;
    ok, m := ComputeMeasures(math, lists[i], live, other, external, []);
    if !ok { return M.OverBudget; }
    NothingBeside(Blocks(lists[i]), Blocks(live), Blocks(other), Blocks(external));
    verdict := if row == m then M.Accepted else M.Refused;
  }

  lemma UsableEmpty()
    ensures Usable([]) && Blocks([]) == {}
  {
  }

  lemma NothingBeside(refs: set<int>, live: set<int>, others: set<int>, kept: set<int>)
    ensures MeasuresBeside(refs, live, others, kept, {}) == MeasuresOf(refs, live, others, kept)
  {
    assert live + others + {} == live + others;
  }

  ghost predicate ViewsUsable(views: seq<View>) {
    AllUsable(Lists(views, true)) && AllUsable(Lists(views, false))
  }

  ghost function ExpectedRow(views: seq<View>, live: View, external: seq<Span>, i: nat): SnapshotRow
    requires i < |views|
  {
    SnapshotRow(Expected(Lists(views, true), i, Blocks(live.metadata), Blocks(external)),
                Expected(Lists(views, false), i, Blocks(live.payload), Blocks(external)))
  }

  /** The rows that count the views' blocks; At keeps each row folded until a proof asks for it. */
  ghost predicate CountRows(rows: seq<SnapshotRow>, views: seq<View>, live: View, external: seq<Span>) {
    |rows| == |views| && forall i {:trigger At(i)} :: At(i) && 0 <= i < |views| ==> rows[i] == ExpectedRow(views, live, external, i)
  }

  /** Such rows exist for every report, and by their definition only one list of them. */
  ghost function ExpectedRows(views: seq<View>, live: View, external: seq<Span>): (rows: seq<SnapshotRow>)
    ensures CountRows(rows, views, live, external)
  {
    seq(|views|, i requires 0 <= i < |views| => ExpectedRow(views, live, external, i))
  }

  /** One row: metadata first, then payload. */
  method ValidateRow(math: M.ProfileSetMath, row: SnapshotRow, ghost expected: seq<SnapshotRow>,
                     views: seq<View>, live: View, external: seq<Span>, i: nat) returns (verdict: M.Verdict)
    requires 0 <= math.work <= M.BUDGET && ViewsUsable(views) && i < |views|
    requires Usable(live.metadata) && Usable(live.payload) && Usable(external)
    requires CountRows(expected, views, live, external)
    modifies math
    ensures math.work >= old(math.work)
    ensures verdict == M.OverBudget <==> math.work > M.BUDGET
    ensures verdict == M.Accepted ==> row == expected[i]
    ensures verdict == M.Refused ==> row != expected[i]
  {
    assert At(i);
    var ok := math.Tick();
    if !ok { return M.OverBudget; }
    verdict := ValidateMeasures(math, row.metadata, Lists(views, true), i, live.metadata, external);
    if verdict == M.Accepted {
      verdict := ValidateMeasures(math, row.payload, Lists(views, false), i, live.payload, external);
    }
  }

  /** Recomputes every row against the live view, the other snapshots and the protected ranges. */
  method CompareRows(math: M.ProfileSetMath, rows: seq<SnapshotRow>, ghost expected: seq<SnapshotRow>,
                     views: seq<View>, live: View, external: seq<Span>) returns (verdict: M.Verdict)
    requires 0 <= math.work <= M.BUDGET && ViewsUsable(views)
    requires Usable(live.metadata) && Usable(live.payload) && Usable(external)
    requires CountRows(expected, views, live, external)
    modifies math
    ensures math.work >= old(math.work)
    ensures verdict == M.Accepted ==> rows == expected
    ensures verdict == M.Refused ==> rows != expected
    ensures verdict == M.OverBudget ==> math.work > M.BUDGET
  {
    if |rows| != |views| { return M.Refused; }
    for i := 0 to |rows|
      invariant old(math.work) <= math.work <= M.BUDGET
      invariant forall k :: 0 <= k < i ==> rows[k] == expected[k]
    {
      verdict := ValidateRow(math, rows[i], expected, views, live, external, i);
      if verdict != M.Accepted { return; }
    }
    verdict := M.Accepted;
  }

  /** A report is accepted only if its rows are the counts of the views' blocks, and refused only if they are not. */
  method ValidateRows(math: M.ProfileSetMath, rows: seq<SnapshotRow>, views: seq<View>, live: View, external: seq<Span>)
    returns (verdict: M.Verdict)
    requires 0 <= math.work <= M.BUDGET && ViewsUsable(views)
    requires Usable(live.metadata) && Usable(live.payload) && Usable(external)
    modifies math
    ensures verdict == M.Accepted ==> rows == ExpectedRows(views, live, external)
    ensures verdict == M.Refused ==> rows != ExpectedRows(views, live, external)
    ensures verdict == M.OverBudget ==> math.work > M.BUDGET
  {
    verdict := CompareRows(math, rows, ExpectedRows(views, live, external), views, live, external);
  }

  /** An accepted report's rows of either kind are the counts of the views' block sets. */
  lemma AcceptedRowsCount(rows: seq<SnapshotRow>, views: seq<View>, live: View, external: seq<Span>, i: nat)
    requires CountRows(rows, views, live, external) && i < |rows|
    ensures Kind(rows, true)[i] == Expected(Lists(views, true), i, Blocks(live.metadata), Blocks(external))
    ensures Kind(rows, false)[i] == Expected(Lists(views, false), i, Blocks(live.payload), Blocks(external))
  {
    assert At(i);
  }

  /** Rows of one kind that count blocks pass the numeric attribution tests, and their reclaim bounds never overlap. */
  lemma RecomputedRowsPassNumericTests(rows: seq<Measures>, lists: seq<seq<Span>>, live: set<int>, kept: set<int>, capacity: nat)
    requires |rows| == |lists| && forall i :: 0 <= i < |rows| ==> rows[i] == Expected(lists, i, live, kept)
    requires |UnionOf(BlockSets(lists))| <= capacity
    ensures KindAccepted(rows, |UnionOf(BlockSets(lists))|, capacity)
    ensures Sum(seq(|rows|, i requires 0 <= i < |rows| => rows[i].candidate)) <= |UnionOf(BlockSets(lists)) - (live + kept)|
  {
    assert rows == Exact.RowsOf(BlockSets(lists), live, kept);
    Exact.FamilyAccepted(BlockSets(lists), live, kept, capacity);
    CandidatesOfRows(rows, BlockSets(lists), live, kept);
  }

  lemma CandidatesOfRows(rows: seq<Measures>, family: seq<set<int>>, live: set<int>, kept: set<int>)
    requires rows == Exact.RowsOf(family, live, kept)
    ensures Sum(seq(|rows|, i requires 0 <= i < |rows| => rows[i].candidate)) <= |UnionOf(family) - (live + kept)|
  {
    assert seq(|rows|, i requires 0 <= i < |rows| => rows[i].candidate) == Candidates(family, live, kept);
    ReclaimSum(family, live, kept);
  }

  /** An accepted report passes the numeric tests for both kinds. */
  lemma AcceptedReportPassesNumericTests(views: seq<View>, live: View, external: seq<Span>, capacity: nat)
    requires |UnionOf(BlockSets(Lists(views, true)))| <= capacity && |UnionOf(BlockSets(Lists(views, false)))| <= capacity
    ensures forall metadata: bool :: KindAccepted(Kind(ExpectedRows(views, live, external), metadata),
                                                  |UnionOf(BlockSets(Lists(views, metadata)))|, capacity)
  {
    var rows := ExpectedRows(views, live, external);
    forall i | 0 <= i < |rows|
      ensures Kind(rows, true)[i] == Expected(Lists(views, true), i, Blocks(live.metadata), Blocks(external))
    {
      AcceptedRowsCount(rows, views, live, external, i);
    }
    RecomputedRowsPassNumericTests(Kind(rows, true), Lists(views, true), Blocks(live.metadata), Blocks(external), capacity);
    forall i | 0 <= i < |rows|
      ensures Kind(rows, false)[i] == Expected(Lists(views, false), i, Blocks(live.payload), Blocks(external))
    {
      AcceptedRowsCount(rows, views, live, external, i);
    }
    RecomputedRowsPassNumericTests(Kind(rows, false), Lists(views, false), Blocks(live.payload), Blocks(external), capacity);
  }
}
