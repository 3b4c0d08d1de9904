/** Snapshot measures computed from ranges: they count blocks, and the reclaim bound is a marginal count. */
module SnapshotMeasures {
  import opened BlockRanges
  import opened SnapshotFamilies
  import opened SnapshotAttribution
  import Exact = AttributionExactness
  import M = ProfileSetMath

  /** Block addresses of both tiers stay below this for every allowed block size. */
  const ADDRESS_LIMIT: nat := 0x20_0000_0000_0000

  ghost predicate Usable(s: seq<Span>) {
    Canonical(s) && Blocks(s) <= Interval(0, ADDRESS_LIMIT)
  }

  /** The counts when the blocks of `same` also keep a block from being unique. */
  ghost function MeasuresBeside(refs: set<int>, live: set<int>, others: set<int>, kept: set<int>, same: set<int>): Measures {
    var unique := refs - (live + others + same);
    Measures(|refs|, |refs * live|, |refs - live|, |refs * others|, |unique|, |refs * kept|, |unique - kept|)
  }

  lemma UsableCounts(s: seq<Span>)
    requires Usable(s)
    ensures Fits64(s) && !M.CountOverflows(s)
  {
    forall i | 0 <= i < |s| ensures s[i].end <= ADDRESS_LIMIT {
      InBlocks(s, s[i].end - 1);
      assert s[i].end - 1 in Interval(0, ADDRESS_LIMIT);
    }
    if M.CountOverflows(s) {
      M.CountOverflowNeedsHighBlocks(s);
    }
  }

  method CountOf(math: M.ProfileSetMath, s: seq<Span>) returns (ok: bool, n: nat)
    requires 0 <= math.work <= M.BUDGET && Usable(s)
    modifies math
    ensures math.work >= old(math.work)
    ensures ok ==> math.work <= M.BUDGET && n == |Blocks(s)|
    ensures !ok ==> math.work > M.BUDGET
  {
    UsableCounts(s);
    ok, n := math.Count(s);
  }

  method CountDifference(math: M.ProfileSetMath, a: seq<Span>, b: seq<Span>) returns (ok: bool, n: nat)
    requires 0 <= math.work <= M.BUDGET && Usable(a) && Usable(b)
    modifies math
    ensures math.work >= old(math.work)
    ensures !ok ==> math.work > M.BUDGET
    ensures ok ==> math.work <= M.BUDGET && n == |Blocks(a) - Blocks(b)|
  {
    n := 0;
    var d: seq<Span>;
    ok, d := math.Difference(a, b);
    if !ok { return; }
    ok, n := CountOf(math, d);
  }

  lemma UsableUnion(a: seq<Span>, b: seq<Span>, c: seq<Span>)
    requires Usable(a) && Usable(b) && Usable(c)
    ensures NonEmpty(a + b + c) && Blocks(a + b + c) == Blocks(a) + Blocks(b) + Blocks(c)
  {
    BlocksConcat(a, b);
    BlocksConcat(a + b, c);
  }

  /** The ranges of a view that neither the live view, the other snapshots nor the same view's given blocks hold. */
  method UniqueRanges(math: M.ProfileSetMath, refs: seq<Span>, current: seq<Span>, other: seq<Span>, same: seq<Span>)
    returns (ok: bool, unique: seq<Span>)
    requires 0 <= math.work <= M.BUDGET && Usable(refs) && Usable(current) && Usable(other) && Usable(same)
    modifies math
    ensures math.work >= old(math.work)
    ensures !ok ==> math.work > M.BUDGET
    ensures ok ==> math.work <= M.BUDGET && Usable(unique)
    ensures ok ==> Blocks(unique) == Blocks(refs) - (Blocks(current) + Blocks(other) + Blocks(same))
  {
    unique := [];
    var beside: seq<Span>;
    UsableUnion(current, other, same);
    ok, beside := math.Union(current + other + same);
    if !ok { return; }
    ok, unique := math.Difference(refs, beside);
  }

  /** How many blocks of one list another one holds, as a count minus the count of the difference. */
  method CountCommon(math: M.ProfileSetMath, a: seq<Span>, count: nat, b: seq<Span>) returns (ok: bool, n: nat)
    requires 0 <= math.work <= M.BUDGET && Usable(a) && Usable(b) && count == |Blocks(a)|
    modifies math
    ensures math.work >= old(math.work)
    ensures !ok ==> math.work > M.BUDGET
    ensures ok ==> math.work <= M.BUDGET && n == |Blocks(a) * Blocks(b)|
  {
    ok, n := CountDifference(math, a, b);
    if !ok { return; }
    Exact.SplitSize(Blocks(a), Blocks(b));
    n := count - n;
  }

  /** The seven counts of one row by range arithmetic are the cardinalities of the block sets. */
  method ComputeMeasures(math: M.ProfileSetMath, refs: seq<Span>, current: seq<Span>, other: seq<Span>,
                         external: seq<Span>, same: seq<Span>) returns (ok: bool, m: Measures)
    requires 0 <= math.work <= M.BUDGET
    requires Usable(refs) && Usable(current) && Usable(other) && Usable(external) && Usable(same)
    modifies math
    ensures math.work >= old(math.work)
    ensures !ok ==> math.work > M.BUDGET
    ensures ok ==> math.work <= M.BUDGET
    ensures ok ==> m == MeasuresBeside(Blocks(refs), Blocks(current), Blocks(other), Blocks(external), Blocks(same))
  {
    m := Measures(0, 0, 0, 0, 0, 0, 0);
    var count, absent, shared, protectedBlocks, alone, candidate: nat;
    var unique: seq<Span>;
    ok, count := CountOf(math, refs);
    if !ok { return; }
    ok, absent := CountDifference(math, refs, current);
    if !ok { return; }
    ok, unique := UniqueRanges(math, refs, current, other, same);
    if !ok { return; }
    ok, shared := CountCommon(math, refs, count, other);
    if !ok { return; }
    ok, alone := CountOf(math, unique);
    if !ok { return; }
    ok, protectedBlocks := CountCommon(math, refs, count, external);
    if !ok { return; }
    ok, candidate := CountDifference(math, unique, external);
    if !ok { return; }
    Exact.SplitSize(Blocks(refs), Blocks(current));
    m := Measures(count, count - absent, absent, shared, alone, protectedBlocks, candidate);
  }

  /** Without same-view blocks these are the attribution counts, so the numeric row test accepts them. */
  lemma ComputedRowsPass(refs: set<int>, live: set<int>, others: set<int>, kept: set<int>, union: nat, capacity: nat)
    requires |refs| <= union <= capacity
    ensures RowAccepted(MeasuresBeside(refs, live, others, kept, {}), union, capacity)
  {
    assert live + others + {} == live + others;
    Exact.RowOfSets(refs, live, others, kept, union, capacity);
  }

  // ---- Marginal reclaim ----

  /** A snapshot's reclaim bound is the drop in size of everything kept when that snapshot goes. */
  lemma ReclaimIsMarginal(family: seq<set<int>>, i: nat, live: set<int>, kept: set<int>)
    requires i < |family|
    ensures MeasuresOf(family[i], live, Others(family, i), kept).candidate
         == |live + UnionOf(family) + kept| - |live + Others(family, i) + kept|
  {
    var rest := live + Others(family, i) + kept;
    UnionWithOthers(family, i);
    assert family[i] + rest == live + UnionOf(family) + kept;
    assert family[i] - (live + Others(family, i)) - kept == family[i] - rest;
  }

  lemma UnionWithOthers(family: seq<set<int>>, i: nat)
    requires i < |family|
    ensures UnionOf(family) == family[i] + Others(family, i)
  {
    forall b ensures b in UnionOf(family) <==> b in family[i] + Others(family, i) {
      if b in UnionOf(family) {
        var j :| 0 <= j < |family| && b in family[j];
        assert j != i ==> b in Others(family, i);
      }
    }
  }

  ghost function Candidates(family: seq<set<int>>, live: set<int>, kept: set<int>): seq<int> {
    seq(|family|, i requires 0 <= i < |family| => MeasuresOf(family[i], live, Others(family, i), kept).candidate)
  }

  /** The blocks that exactly one snapshot, and neither the live view nor a protected owner, holds. */
  ghost function Lone(family: seq<set<int>>, live: set<int>, kept: set<int>): set<int> {
    UnionOf(family) - SharedBlocks(family) - live - kept
  }

  lemma CandidateIsLone(family: seq<set<int>>, live: set<int>, kept: set<int>, i: nat)
    requires i < |family|
    ensures MeasuresOf(family[i], live, Others(family, i), kept).candidate == |family[i] * Lone(family, live, kept)|
  {
    SharedPart(family, i);
    assert family[i] - (live + Others(family, i)) - kept == (family[i] - Others(family, i)) - live - kept;
    assert family[i] * Lone(family, live, kept) == (family[i] * (UnionOf(family) - SharedBlocks(family))) - live - kept;
  }

  lemma LoneMultiplicity(family: seq<set<int>>, live: set<int>, kept: set<int>)
    ensures forall b <- Lone(family, live, kept) :: 1 <= Multiplicity(family, b) <= 1
  {
    forall b | b in Lone(family, live, kept) ensures Multiplicity(family, b) == 1 {
      SharedMultiplicity(family, b);
    }
  }

  /** Together the bounds count the blocks that exactly one snapshot and nothing else holds, so never more than all of them. */
  lemma ReclaimSum(family: seq<set<int>>, live: set<int>, kept: set<int>)
    ensures Sum(Candidates(family, live, kept)) == |Lone(family, live, kept)|
    ensures Sum(Candidates(family, live, kept)) <= |UnionOf(family) - (live + kept)|
  {
    forall i | 0 <= i < |family| ensures Candidates(family, live, kept)[i] == Sizes(family, Lone(family, live, kept))[i] {
      CandidateIsLone(family, live, kept, i);
    }
    assert Candidates(family, live, kept) == Sizes(family, Lone(family, live, kept));
    LoneMultiplicity(family, live, kept);
    DoubleCount(family, Lone(family, live, kept), 1, 1);
    Exact.SubsetSize(Lone(family, live, kept), UnionOf(family) - (live + kept));
  }

  /** The marked variant: view i holds marked and unmarked blocks, and the bound is the drop when its marked blocks go. */
  lemma MarkedReclaimIsMarginal(payload: seq<set<int>>, i: nat, marked: set<int>, unmarked: set<int>, live: set<int>, kept: set<int>)
    requires i < |payload| && payload[i] == marked + unmarked
    ensures MeasuresBeside(marked, live, Others(payload, i), kept, unmarked).candidate
         == |live + UnionOf(payload) + kept| - |live + UnionOf(payload[i := unmarked]) + kept|
  {
    var rest := live + Others(payload, i) + unmarked + kept;
    UnionWithOthers(payload, i);
    UnionWithOthers(payload[i := unmarked], i);
    OthersUnchanged(payload, i, unmarked);
    assert marked + rest == live + UnionOf(payload) + kept;
    assert rest == live + UnionOf(payload[i := unmarked]) + kept;
    assert marked - (live + Others(payload, i) + unmarked) - kept == marked - rest;
  }

  lemma OthersUnchanged(family: seq<set<int>>, i: nat, x: set<int>)
    requires i < |family|
    ensures Others(family[i := x], i) == Others(family, i)
  {
    var g := family[i := x];
    forall b ensures b in Others(g, i) <==> b in Others(family, i) {
      if b in Others(g, i) {
        var j :| 0 <= j < |g| && j != i && b in g[j];
        assert b in family[j];
      }
      if b in Others(family, i) {
        var j :| 0 <= j < |family| && j != i && b in family[j];
        assert b in g[j];
      }
    }
  }

  ghost function MarkedCandidates(marked: seq<set<int>>, unmarked: seq<set<int>>, payload: seq<set<int>>,
                                  live: set<int>, kept: set<int>): seq<int>
    requires |marked| == |unmarked| == |payload|
  {
    seq(|payload|, i requires 0 <= i < |payload| =>
      MeasuresBeside(marked[i], live, Others(payload, i), kept, unmarked[i]).candidate)
  }

  /** Marked bounds never add up to more than the snapshots hold outside the live view and protected blocks. */
  lemma MarkedReclaimSum(marked: seq<set<int>>, unmarked: seq<set<int>>, payload: seq<set<int>>, live: set<int>, kept: set<int>)
    requires |marked| == |unmarked| == |payload|
    requires forall i :: 0 <= i < |payload| ==> payload[i] == marked[i] + unmarked[i]
    ensures Sum(MarkedCandidates(marked, unmarked, payload, live, kept)) <= |UnionOf(payload) - (live + kept)|
  {
    forall i | 0 <= i < |payload|
      ensures MarkedCandidates(marked, unmarked, payload, live, kept)[i] <= Candidates(payload, live, kept)[i]
    {
      Exact.SubsetSize(marked[i] - (live + Others(payload, i) + unmarked[i]) - kept,
                       payload[i] - (live + Others(payload, i)) - kept);
    }
    SumMonotone(MarkedCandidates(marked, unmarked, payload, live, kept), Candidates(payload, live, kept));
    ReclaimSum(payload, live, kept);
  }

  // ---- The marked and unmarked ranges of a view ----

  /** Two empty differences: the view's payload list is, range for range, the union of its marked and unmarked blocks. */
  method SplitsPayload(math: M.ProfileSetMath, marked: seq<Span>, unmarked: seq<Span>, payload: seq<Span>) returns (verdict: M.Verdict)
    requires 0 <= math.work <= M.BUDGET && Usable(marked) && Usable(unmarked) && Usable(payload)
    modifies math
    ensures math.work >= old(math.work)
    ensures verdict == M.OverBudget <==> math.work > M.BUDGET
    ensures verdict == M.Accepted ==> Blocks(payload) == Blocks(marked) + Blocks(unmarked)
    ensures verdict == M.Refused ==> Blocks(payload) != Blocks(marked) + Blocks(unmarked)
  {
    UsableUnion(marked, unmarked, []);
    assert marked + unmarked + [] == marked + unmarked;
    var ok, union := math.Union(marked + unmarked);
    if !ok { return M.OverBudget; }
    var extra, missing: seq<Span>;
    ok, extra := math.Difference(union, payload);
    if !ok { return M.OverBudget; }
    NoBlocks(extra);
    if extra != [] { return M.Refused; }
    ok, missing := math.Difference(payload, union);
    if !ok { return M.OverBudget; }
    NoBlocks(missing);
    if missing != [] { return M.Refused; }
    verdict := M.Accepted;
  }

  lemma NoBlocks(s: seq<Span>)
    requires Canonical(s)
    ensures s == [] <==> Blocks(s) == {}
  {
    if s != [] {
      InBlocks(s, s[0].start);
    }
  }
}
