/** Retained checkpoints: reading range lists, keeping metadata apart from payload, and the accounting that follows. */
module RetainedHistory {
  import opened Prelude
  import opened BlockRanges
  import opened SnapshotFamilies
  import M = ProfileSetMath
  import Exact = AttributionExactness

  /** A range as reported: a first block and a count. */
  datatype RawRange = RawRange(first: nat, count: nat)

  /** The addressable space: a main store from block 0 and, for Fusion, a second tier from a high base. */
  datatype Space = Space(main: nat, fusion: bool, tierBase: nat, tier: nat)

  datatype Checkpoint = Checkpoint(xid: nat, metadata: seq<RawRange>, payload: seq<RawRange>)

  function ToSpan(r: RawRange): Span {
    Span(r.first, r.first + r.count)
  }

  function Spans(ranges: seq<RawRange>): seq<Span> {
    seq(|ranges|, i requires 0 <= i < |ranges| => ToSpan(ranges[i]))
  }

  lemma SpansAppend(ranges: seq<RawRange>, i: nat)
    requires i < |ranges|
    ensures Spans(ranges[..i + 1]) == Spans(ranges[..i]) + [ToSpan(ranges[i])]
  {
  }

  // ---- Addresses ----

  /** Both tiers behind one address test; subtraction is only reached where it cannot wrap. */
  predicate Address(s: Space, first: nat, count: nat) {
    count > 0 &&
    if first < s.main then count <= s.main - first
    else s.fusion && first >= s.tierBase && first - s.tierBase < s.tier && count <= s.tier - (first - s.tierBase)
  }

  /** A range is an address range exactly when it is nonempty and lies wholly inside one member. */
  lemma AddressIsOneMember(s: Space, first: nat, count: nat)
    requires s.main <= s.tierBase
    ensures Address(s, first, count) <==>
      first < first + count &&
      (Interval(first, first + count) <= Interval(0, s.main) ||
       (s.fusion && Interval(first, first + count) <= Interval(s.tierBase, s.tierBase + s.tier)))
  {
    if first < first + count {
      assert first in Interval(first, first + count) && first + count - 1 in Interval(first, first + count);
    }
  }

  // ---- Single-store range lists ----

  ghost predicate RangesValid(ranges: seq<RawRange>, capacity: nat) {
    && Canonical(Spans(ranges))
    && Blocks(Spans(ranges)) <= Interval(0, capacity)
  }

  lemma AppendWithin(s: seq<Span>, r: Span, capacity: nat)
    requires Canonical(s) && Blocks(s) <= Interval(0, capacity)
    requires r.start < r.end <= capacity
    requires s != [] ==> s[|s| - 1].end < r.start
    ensures Canonical(s + [r]) && Blocks(s + [r]) <= Interval(0, capacity)
  {
    M.CanonicalAppend(s, r);
    BlocksAppend(s, r);
  }

  lemma PrefixValid(ranges: seq<RawRange>, i: nat, capacity: nat)
    requires i < |ranges| && RangesValid(ranges, capacity)
    ensures ranges[i].count > 0 && ranges[i].first + ranges[i].count <= capacity
    ensures i > 0 ==> ranges[i - 1].first + ranges[i - 1].count < ranges[i].first
  {
    var s := Spans(ranges);
    InBlocks(s, s[i].end - 1);
    assert s[i].end - 1 in Interval(0, capacity);
    assert i > 0 ==> s[i - 1].end < s[i].start;
  }

  /** Accepts exactly the normal forms inside the store, and sums them to their number of blocks. */
  method ValidateRanges(ranges: seq<RawRange>, capacity: nat) returns (ok: bool, sum: nat)
    requires capacity <= U64_MAX
    ensures ok <==> RangesValid(ranges, capacity)
    ensures ok ==> sum == |Blocks(Spans(ranges))| <= capacity
  {
    sum := 0;
    var end, first := 0, true;
    for i := 0 to |ranges|
      invariant RangesValid(ranges[..i], capacity)
      invariant first <==> i == 0
      invariant i > 0 ==> end == ToSpan(ranges[i - 1]).end
      invariant sum == Length(Spans(ranges[..i]))
    {
      var start, count := ranges[i].first, ranges[i].count;
      if RangesValid(ranges, capacity) { PrefixValid(ranges, i, capacity); }
      if count == 0 || !(start < capacity && count <= capacity - start && (first || start > end)) {
        return false, 0;
      }
      SpansAppend(ranges, i);
      AppendWithin(Spans(ranges[..i]), ToSpan(ranges[i]), capacity);
      assert Spans(ranges[..i + 1])[..i] == Spans(ranges[..i]);
      end, sum, first := start + count, sum + count, false;
    }
    assert ranges[..|ranges|] == ranges;
    LengthIsSize(Spans(ranges));
    IntervalSize(0, capacity);
    Exact.SubsetSize(Blocks(Spans(ranges)), Interval(0, capacity));
    ok := true;
  }

  /** The enumerator scan accepts exactly when the two lists share no block. */
  method RequireDisjoint(left: seq<RawRange>, right: seq<RawRange>) returns (ok: bool)
    requires Canonical(Spans(left)) && Canonical(Spans(right))
    ensures ok <==> Blocks(Spans(left)) !! Blocks(Spans(right))
  {
    var i, j := 0, 0;
    ghost var a, b := Spans(left), Spans(right);
    while i < |left| && j < |right|
      invariant 0 <= i <= |left| && 0 <= j <= |right|
      invariant M.Passed(a, i, b, j) && M.Passed(b, j, a, i)
      decreases |left| - i + |right| - j
    {
      var ae, be := left[i].first + left[i].count, right[j].first + right[j].count;
      if !(ae <= right[j].first || be <= left[i].first) {
        M.SharedBlock(a, i, b, j);
        return false;
      }
      if ae <= right[j].first {
        M.PassedStep(a, i, b, j);
        i := i + 1;
      } else {
        M.PassedStep(b, j, a, i);
        j := j + 1;
      }
    }
    M.BothPassed(a, i, b, j);
    ok := true;
  }

  // ---- Two-tier range lists ----

  ghost predicate KindValid(s: Space, ranges: seq<RawRange>, room: int) {
    && Canonical(Spans(ranges))
    && (forall i :: 0 <= i < |ranges| ==>
         Address(s, ranges[i].first, ranges[i].count) && ranges[i].first + ranges[i].count <= U64_MAX)
    && Length(Spans(ranges)) <= room
  }

  lemma {:induction false} LengthPrefix(s: seq<Span>, i: nat)
    requires Canonical(s) && i <= |s|
    ensures Length(s[..i]) <= Length(s)
  {
    if i < |s| {
      assert s[..|s| - 1][..i] == s[..i];
      LengthPrefix(s[..|s| - 1], i);
    } else {
      assert s[..i] == s;
    }
  }

  lemma KindStep(s: Space, ranges: seq<RawRange>, i: nat, room: int)
    requires i < |ranges| && KindValid(s, ranges[..i], room)
    ensures KindValid(s, ranges[..i + 1], room) <==>
      && Address(s, ranges[i].first, ranges[i].count) && ranges[i].first + ranges[i].count <= U64_MAX
      && (i > 0 ==> ranges[i - 1].first + ranges[i - 1].count < ranges[i].first)
      && Length(Spans(ranges[..i])) + ranges[i].count <= room
  {
    var done, next := Spans(ranges[..i]), Spans(ranges[..i + 1]);
    SpansAppend(ranges, i);
    assert next[..i] == done;
    if ranges[i].count > 0 && (i > 0 ==> ranges[i - 1].first + ranges[i - 1].count < ranges[i].first) {
      M.CanonicalAppend(done, ToSpan(ranges[i]));
    }
    if Canonical(next) && i > 0 {
      assert next[i - 1].end < next[i].start;
    }
  }

  lemma {:induction false} KindPrefix(s: Space, ranges: seq<RawRange>, i: nat, room: int)
    requires i <= |ranges| && KindValid(s, ranges, room)
    ensures KindValid(s, ranges[..i], room)
  {
    assert Spans(ranges[..i]) == Spans(ranges)[..i];
    LengthPrefix(Spans(ranges), i);
  }

  /** One kind of one checkpoint, on top of the blocks already counted for it. */
  method ReadKind(s: Space, ranges: seq<RawRange>, capacity: nat, total: nat) returns (ok: bool, sum: nat)
    requires total <= capacity
    ensures ok <==> KindValid(s, ranges, capacity - total)
    ensures ok ==> sum == total + |Blocks(Spans(ranges))| <= capacity
  {
    sum := total;
    var end, first := 0, true;
    for i := 0 to |ranges|
      invariant KindValid(s, ranges[..i], capacity - total)
      invariant first <==> i == 0
      invariant i > 0 ==> end == ranges[i - 1].first + ranges[i - 1].count
      invariant sum == total + Length(Spans(ranges[..i]))
    {
      var start, count := ranges[i].first, ranges[i].count;
      KindStep(s, ranges, i, capacity - total);
      if KindValid(s, ranges, capacity - total) { KindPrefix(s, ranges, i + 1, capacity - total); }
      if !(Address(s, start, count) && start <= U64_MAX - count && (first || start > end) && count <= capacity - sum) {
        return false, sum;
      }
      SpansAppend(ranges, i);
      assert Spans(ranges[..i + 1])[..i] == Spans(ranges[..i]);
      end, first, sum := start + count, false, sum + count;
    }
    assert ranges[..|ranges|] == ranges;
    LengthIsSize(Spans(ranges));
    ok := true;
  }

  /** Metadata must not be empty, and both kinds together must fit the container. */
  ghost predicate CheckpointValid(s: Space, cp: Checkpoint, capacity: nat) {
    && cp.metadata != [] && KindValid(s, cp.metadata, capacity)
    && KindValid(s, cp.payload, capacity - Length(Spans(cp.metadata)))
  }

  /** One checkpoint, with the ranges of all checkpoints counted against one bound. */
  method ReadCheckpoint(s: Space, cp: Checkpoint, capacity: nat, counted: nat) returns (ok: bool, ranges: nat, total: nat)
    requires counted <= MAX_RANGES
    ensures ok <==> CheckpointValid(s, cp, capacity) && counted + |cp.metadata| + |cp.payload| <= MAX_RANGES
    ensures ok ==> ranges == counted + |cp.metadata| + |cp.payload|
    ensures ok ==> total == |Blocks(Spans(cp.metadata))| + |Blocks(Spans(cp.payload))| <= capacity
  {
    ranges, total := counted + |cp.metadata|, 0;
    if |cp.metadata| == 0 || ranges > MAX_RANGES { return false, ranges, 0; }
    ok, total := ReadKind(s, cp.metadata, capacity, 0);
    if !ok { return; }
    LengthIsSize(Spans(cp.metadata));
    ranges := ranges + |cp.payload|;
    if ranges > MAX_RANGES { return false, ranges, total; }
    ok, total := ReadKind(s, cp.payload, capacity, total);
  }

  ghost function RangeCounts(cps: seq<Checkpoint>): seq<int> {
    seq(|cps|, i requires 0 <= i < |cps| => |cps[i].metadata| + |cps[i].payload|)
  }

  ghost predicate Rising(xids: seq<nat>) {
    && (forall i :: 0 <= i < |xids| ==> xids[i] > 0)
    && forall i, j :: 0 <= i < j < |xids| ==> xids[i] < xids[j]
  }

  /** A chain of two or more rising transaction ids, from one given id to another, each with its readable checkpoint. */
  ghost predicate HistoryValid(s: Space, chain: seq<nat>, cps: seq<Checkpoint>, capacity: nat, from: nat, to: nat) {
    && 2 <= |chain| <= MAX_RANGES && |cps| == |chain| && Rising(chain)
    && chain[0] == from && chain[|chain| - 1] == to
    && Sum(RangeCounts(cps)) <= MAX_RANGES
    && forall i :: 0 <= i < |cps| ==> EntryValid(s, chain, cps, capacity, i)
  }

  ghost predicate EntryValid(s: Space, chain: seq<nat>, cps: seq<Checkpoint>, capacity: nat, i: int)
    requires |cps| == |chain| && 0 <= i < |cps|
  {
    cps[i].xid == chain[i] && CheckpointValid(s, cps[i], capacity)
  }

  lemma CountsSoFar(cps: seq<Checkpoint>, i: nat)
    requires i < |cps|
    ensures Sum(RangeCounts(cps)[..i + 1]) == Sum(RangeCounts(cps)[..i]) + |cps[i].metadata| + |cps[i].payload|
    ensures Sum(RangeCounts(cps)[..i + 1]) <= Sum(RangeCounts(cps))
  {
    var s := RangeCounts(cps);
    assert s[..i + 1] == s[..i] + [s[i]];
    SumInit(s[..i], s[i]);
    SumPrefix(s, i + 1);
  }

  /** Entry i of the chain: its id above the one before it, and its checkpoint readable within the range bound. */
  method ReadEntry(s: Space, chain: seq<nat>, cps: seq<Checkpoint>, capacity: nat, i: nat, previous: nat, counted: nat)
    returns (ok: bool, ranges: nat)
    requires i < |chain| == |cps| && Rising(chain[..i]) && previous == (if i == 0 then 0 else chain[i - 1])
    requires counted == Sum(RangeCounts(cps)[..i]) <= MAX_RANGES
    ensures ok <==> Rising(chain[..i + 1]) && EntryValid(s, chain, cps, capacity, i) && Sum(RangeCounts(cps)[..i + 1]) <= MAX_RANGES
    ensures ok ==> ranges == Sum(RangeCounts(cps)[..i + 1])
  {
    CountsSoFar(cps, i);
    RisingNext(chain, i);
    if chain[i] <= previous || cps[i].xid != chain[i] { return false, counted; }
    var total;
    ok, ranges, total := ReadCheckpoint(s, cps[i], capacity, counted);
  }

  lemma ValidPrefix(s: Space, chain: seq<nat>, cps: seq<Checkpoint>, capacity: nat, i: nat)
    requires i < |chain| == |cps| && Rising(chain) && Sum(RangeCounts(cps)) <= MAX_RANGES
    ensures Rising(chain[..i + 1]) && Sum(RangeCounts(cps)[..i + 1]) <= MAX_RANGES
  {
    CountsSoFar(cps, i);
  }

  /** Reads the whole chain: accepts exactly the valid histories. */
  method ReadHistory(s: Space, chain: seq<nat>, cps: seq<Checkpoint>, capacity: nat, from: nat, to: nat) returns (ok: bool)
    ensures ok <==> HistoryValid(s, chain, cps, capacity, from, to)
  {
    if !(2 <= |chain| <= MAX_RANGES && |cps| == |chain|) { return false; }
    var previous, ranges := 0, 0;
    for i := 0 to |chain|
      invariant previous == if i == 0 then 0 else chain[i - 1]
      invariant Rising(chain[..i]) && ranges == Sum(RangeCounts(cps)[..i]) <= MAX_RANGES
      invariant forall k :: 0 <= k < i ==> EntryValid(s, chain, cps, capacity, k)
    {
      if HistoryValid(s, chain, cps, capacity, from, to) { ValidPrefix(s, chain, cps, capacity, i); }
      ok, ranges := ReadEntry(s, chain, cps, capacity, i, previous, ranges);
      if !ok { return; }
      previous := chain[i];
    }
    assert chain[..|chain|] == chain && RangeCounts(cps)[..|cps|] == RangeCounts(cps);
    ok := chain[0] == from && chain[|chain| - 1] == to;
  }

  lemma RisingNext(xids: seq<nat>, i: nat)
    requires i < |xids| && Rising(xids[..i])
    ensures Rising(xids[..i + 1]) <==> xids[i] > if i == 0 then 0 else xids[i - 1]
  {
    var done, next := xids[..i], xids[..i + 1];
    if xids[i] > if i == 0 then 0 else xids[i - 1] {
      forall k, l | 0 <= k < l < |next| ensures next[k] < next[l] {
        assert l < i ==> done[k] < done[l];
        assert k < i - 1 ==> done[k] < done[i - 1];
      }
      forall k | 0 <= k < |next| ensures next[k] > 0 {
        assert k < i ==> done[k] > 0;
      }
    } else if i > 0 {
      assert next[i - 1] == xids[i - 1] && next[i] == xids[i];
    } else {
      assert next[0] == xids[0];
    }
  }

  // ---- All pairs of checkpoints ----

  ghost function MetadataSets(cps: seq<Checkpoint>): seq<set<int>> {
    seq(|cps|, i requires 0 <= i < |cps| => Blocks(Spans(cps[i].metadata)))
  }

  ghost function PayloadSets(cps: seq<Checkpoint>): seq<set<int>> {
    seq(|cps|, i requires 0 <= i < |cps| => Blocks(Spans(cps[i].payload)))
  }

  ghost predicate WellFormed(cps: seq<Checkpoint>) {
    forall i :: 0 <= i < |cps| ==> Canonical(Spans(cps[i].metadata)) && Canonical(Spans(cps[i].payload))
  }

  ghost predicate PairApart(cps: seq<Checkpoint>, i: int, j: int)
    requires 0 <= i < |cps| && 0 <= j < |cps|
  {
    Blocks(Spans(cps[i].metadata)) !! Blocks(Spans(cps[j].payload))
  }

  const COMPARISONS: nat := 1000000

  /** One pair: the cursors move past whole ranges, and every comparison counts against the shared bound. */
  method ScanPair(start: nat, metadata: seq<RawRange>, payload: seq<RawRange>) returns (verdict: M.Verdict, comparisons: nat)
    requires start <= COMPARISONS && Canonical(Spans(metadata)) && Canonical(Spans(payload))
    ensures start < comparisons <= start + 1 + |metadata| + |payload|
    ensures verdict == M.OverBudget <==> comparisons > COMPARISONS
    ensures verdict == M.Accepted ==> Blocks(Spans(metadata)) !! Blocks(Spans(payload))
    ensures verdict == M.Refused ==> !(Blocks(Spans(metadata)) !! Blocks(Spans(payload)))
  {
    comparisons := start + 1;
    if comparisons > COMPARISONS { return M.OverBudget, comparisons; }
    ghost var a, b := Spans(metadata), Spans(payload);
    var m, p := 0, 0;
    while m < |metadata| && p < |payload|
      invariant 0 <= m <= |metadata| && 0 <= p <= |payload|
      invariant comparisons == start + 1 + m + p <= COMPARISONS
      invariant M.Passed(a, m, b, p) && M.Passed(b, p, a, m)
      decreases |metadata| - m + |payload| - p
    {
      comparisons := comparisons + 1;
      if comparisons > COMPARISONS { return M.OverBudget, comparisons; }
      var ms, ps := metadata[m].first, payload[p].first;
      var me, pe := ms + metadata[m].count, ps + payload[p].count;
      if me <= ps {
        M.PassedStep(a, m, b, p);
        m := m + 1;
      } else if pe <= ms {
        M.PassedStep(b, p, a, m);
        p := p + 1;
      } else {
        M.SharedBlock(a, m, b, p);
        return M.Refused, comparisons;
      }
    }
    M.BothPassed(a, m, b, p);
    verdict := M.Accepted;
  }

  ghost function MetadataLengths(cps: seq<Checkpoint>): seq<int> {
    seq(|cps|, i requires 0 <= i < |cps| => |cps[i].metadata|)
  }

  ghost function PayloadLengths(cps: seq<Checkpoint>): seq<int> {
    seq(|cps|, i requires 0 <= i < |cps| => |cps[i].payload|)
  }

  /** No more comparisons than this are charged before pair (i, j), in the order of the scan. */
  ghost function CostBefore(cps: seq<Checkpoint>, i: nat, j: nat): int
    requires i <= |cps| && j <= |cps| && (i == |cps| ==> j == 0)
    decreases i, j
  {
    if j > 0 then CostBefore(cps, i, j - 1) + 1 + |cps[i].metadata| + |cps[j - 1].payload|
    else if i > 0 then CostBefore(cps, i - 1, |cps|)
    else 0
  }

  /** The pairs before pair (i, j), each of which costs at least one comparison. */
  ghost function PairsBefore(n: nat, i: nat, j: nat): nat
    requires j <= n
    decreases i, j
  {
    if j > 0 then PairsBefore(n, i, j - 1) + 1 else if i > 0 then PairsBefore(n, i - 1, n) else 0
  }

  lemma {:induction false} PairsAre(n: nat, i: nat, j: nat)
    requires j <= n
    ensures PairsBefore(n, i, j) == i * n + j
    decreases i, j
  {
    if j > 0 {
      PairsAre(n, i, j - 1);
    } else if i > 0 {
      PairsAre(n, i - 1, n);
      Distribute(i - 1, 1, n);
    }
  }

  lemma Distribute(a: int, b: int, c: int)
    ensures (a + b) * c == a * c + b * c
  {
  }

  ghost function FullCost(cps: seq<Checkpoint>): int {
    (|cps| + Sum(MetadataLengths(cps))) * |cps| + |cps| * Sum(PayloadLengths(cps))
  }

  lemma TakeLast(s: seq<int>, i: nat)
    requires 0 < i <= |s|
    ensures Sum(s[..i]) == Sum(s[..i - 1]) + s[i - 1]
  {
    assert s[..i] == s[..i - 1] + [s[i - 1]];
    SumInit(s[..i - 1], s[i - 1]);
  }

  lemma {:induction false} CostInRow(cps: seq<Checkpoint>, i: nat, j: nat)
    requires i < |cps| && j <= |cps|
    ensures CostBefore(cps, i, j) == CostBefore(cps, i, 0) + j * (1 + |cps[i].metadata|) + Sum(PayloadLengths(cps)[..j])
  {
    if j > 0 {
      CostInRow(cps, i, j - 1);
      TakeLast(PayloadLengths(cps), j);
      Distribute(j - 1, 1, 1 + |cps[i].metadata|);
    }
  }

  lemma {:induction false} CostOfRows(cps: seq<Checkpoint>, i: nat)
    requires i <= |cps|
    ensures CostBefore(cps, i, 0) ==
      (i + Sum(MetadataLengths(cps)[..i])) * |cps| + i * Sum(PayloadLengths(cps))
  {
    var n, s, p := |cps|, MetadataLengths(cps), PayloadLengths(cps);
    if i > 0 {
      CostOfRows(cps, i - 1);
      CostInRow(cps, i - 1, n);
      assert p[..n] == p;
      TakeLast(s, i);
      Distribute(i - 1 + Sum(s[..i - 1]), 1 + s[i - 1], n);
      Distribute(i - 1, 1, Sum(p));
    }
  }

  lemma CostOfAll(cps: seq<Checkpoint>, n: nat)
    requires n == |cps|
    ensures CostBefore(cps, n, 0) == FullCost(cps)
  {
    CostOfRows(cps, n);
    var s := MetadataLengths(cps);
    assert s[..n] == s;
  }

  lemma {:induction false} CostGrows(cps: seq<Checkpoint>, i: nat, j: nat)
    requires i <= |cps| && j <= |cps| && (i == |cps| ==> j == 0)
    ensures CostBefore(cps, i, j) <= CostBefore(cps, |cps|, 0)
    decreases |cps| - i, |cps| - j
  {
    if i < |cps| && j < |cps| {
      CostGrows(cps, i, j + 1);
    } else if i < |cps| {
      CostGrows(cps, i + 1, 0);
    }
  }

  ghost predicate RowApart(cps: seq<Checkpoint>, i: nat, n: nat)
    requires i < |cps| && n <= |cps|
  {
    forall l :: 0 <= l < n ==> PairApart(cps, i, l)
  }

  /** What the counter may hold before pair (i, j). */
  ghost predicate Charged(cps: seq<Checkpoint>, i: nat, j: nat, comparisons: int)
    requires i <= |cps| && j <= |cps| && (i == |cps| ==> j == 0)
  {
    PairsBefore(|cps|, i, j) <= comparisons <= CostBefore(cps, i, j)
  }

  /** One metadata list against every payload list. */
  method ScanRow(start: nat, cps: seq<Checkpoint>, i: nat) returns (verdict: M.Verdict, comparisons: nat)
    requires WellFormed(cps) && i < |cps| && start <= COMPARISONS && Charged(cps, i, 0, start)
    ensures verdict == M.Accepted ==> RowApart(cps, i, |cps|) && comparisons <= COMPARISONS && Charged(cps, i + 1, 0, comparisons)
    ensures verdict == M.Refused ==> exists j :: 0 <= j < |cps| && !PairApart(cps, i, j)
    ensures verdict == M.OverBudget ==> CostBefore(cps, |cps|, 0) > COMPARISONS
  {
    comparisons, verdict := start, M.Accepted;
    for j := 0 to |cps|
      invariant comparisons <= COMPARISONS && Charged(cps, i, j, comparisons) && RowApart(cps, i, j)
    {
      CostGrows(cps, i, j + 1);
      verdict, comparisons := ScanPair(comparisons, cps[i].metadata, cps[j].payload);
      if verdict == M.Refused { assert !PairApart(cps, i, j); }
      if verdict != M.Accepted { return; }
    }
    verdict := M.Accepted;
  }

  /**
   * Every metadata list against every payload list, own and foreign. The budget runs out only when all
   * ranges, once per checkpoint, exceed it, and always when the pairs alone do.
   */
  method ScanAllPairs(cps: seq<Checkpoint>) returns (verdict: M.Verdict)
    requires WellFormed(cps)
    ensures verdict == M.Accepted ==> UnionOf(MetadataSets(cps)) !! UnionOf(PayloadSets(cps)) && |cps| * |cps| <= COMPARISONS
    ensures verdict == M.Refused ==> !(UnionOf(MetadataSets(cps)) !! UnionOf(PayloadSets(cps)))
    ensures verdict == M.OverBudget ==> FullCost(cps) > COMPARISONS
  {
    var comparisons := 0;
    CostOfAll(cps, |cps|);
    for i := 0 to |cps|
      invariant comparisons <= COMPARISONS && Charged(cps, i, 0, comparisons)
      invariant forall k: nat :: k < i ==> RowApart(cps, k, |cps|)
    {
      verdict, comparisons := ScanRow(comparisons, cps, i);
      if verdict == M.Refused {
        ghost var j :| 0 <= j < |cps| && !PairApart(cps, i, j);
        PairTogether(cps, i, j);
      }
      if verdict != M.Accepted { return; }
    }
    PairsAre(|cps|, |cps|, 0);
    RowsAreUnions(cps);
    verdict := M.Accepted;
  }

  lemma RowsAreUnions(cps: seq<Checkpoint>)
    requires forall k: nat :: k < |cps| ==> RowApart(cps, k, |cps|)
    ensures UnionOf(MetadataSets(cps)) !! UnionOf(PayloadSets(cps))
  {
    forall i, j | 0 <= i < |cps| && 0 <= j < |cps| ensures PairApart(cps, i, j) {
      assert RowApart(cps, i, |cps|);
    }
    PairsAreUnions(cps);
  }

  lemma ValidIsWellFormed(s: Space, chain: seq<nat>, cps: seq<Checkpoint>, capacity: nat, from: nat, to: nat)
    requires HistoryValid(s, chain, cps, capacity, from, to)
    ensures WellFormed(cps)
  {
    forall i | 0 <= i < |cps| ensures Canonical(Spans(cps[i].metadata)) && Canonical(Spans(cps[i].payload)) {
      assert EntryValid(s, chain, cps, capacity, i);
    }
  }

  /** A history is accepted only if it is valid with all metadata apart from all payload, and refused only if it is not. */
  method ValidateHistory(s: Space, chain: seq<nat>, cps: seq<Checkpoint>, capacity: nat, from: nat, to: nat)
    returns (verdict: M.Verdict)
    ensures verdict == M.OverBudget ==> HistoryValid(s, chain, cps, capacity, from, to) && FullCost(cps) > COMPARISONS
    ensures verdict != M.OverBudget ==> (verdict == M.Accepted <==>
      HistoryValid(s, chain, cps, capacity, from, to) && UnionOf(MetadataSets(cps)) !! UnionOf(PayloadSets(cps)))
  {
    var ok := ReadHistory(s, chain, cps, capacity, from, to);
    if !ok { return M.Refused; }
    ValidIsWellFormed(s, chain, cps, capacity, from, to);
    verdict := ScanAllPairs(cps);
  }

  lemma PairTogether(cps: seq<Checkpoint>, i: nat, j: nat)
    requires i < |cps| && j < |cps| && !(Blocks(Spans(cps[i].metadata)) !! Blocks(Spans(cps[j].payload)))
    ensures !(UnionOf(MetadataSets(cps)) !! UnionOf(PayloadSets(cps)))
  {
    MemberInUnion(MetadataSets(cps), i);
    MemberInUnion(PayloadSets(cps), j);
  }

  /** All pairs apart is the same as the two unions apart: no metadata block of any checkpoint is payload of any. */
  lemma PairsAreUnions(cps: seq<Checkpoint>)
    ensures (forall i, j :: 0 <= i < |cps| && 0 <= j < |cps| ==> PairApart(cps, i, j))
       <==> UnionOf(MetadataSets(cps)) !! UnionOf(PayloadSets(cps))
  {
    var ms, ps := MetadataSets(cps), PayloadSets(cps);
    if forall i, j :: 0 <= i < |cps| && 0 <= j < |cps| ==> PairApart(cps, i, j) {
      forall b | b in UnionOf(ms) ensures b !in UnionOf(ps) {
        var i :| 0 <= i < |ms| && b in ms[i];
        forall j | 0 <= j < |ps| ensures b !in ps[j] {
          assert PairApart(cps, i, j);
        }
      }
    }
    if UnionOf(ms) !! UnionOf(ps) {
      forall i, j | 0 <= i < |cps| && 0 <= j < |cps| ensures PairApart(cps, i, j) {
        MemberInUnion(ms, i);
        MemberInUnion(ps, j);
        assert ms[i] == Blocks(Spans(cps[i].metadata)) && ps[j] == Blocks(Spans(cps[j].payload));
      }
    }
  }

  /** Once the scan has accepted, a checkpoint's range total is the number of blocks it owns. */
  lemma AcceptedTotalIsUnion(cps: seq<Checkpoint>, i: nat)
    requires i < |cps| && UnionOf(MetadataSets(cps)) !! UnionOf(PayloadSets(cps))
    ensures |Blocks(Spans(cps[i].metadata))| + |Blocks(Spans(cps[i].payload))|
         == |Blocks(Spans(cps[i].metadata)) + Blocks(Spans(cps[i].payload))|
  {
    PairsAreUnions(cps);
    assert PairApart(cps, i, i);
    Exact.DisjointSize(Blocks(Spans(cps[i].metadata)), Blocks(Spans(cps[i].payload)));
  }

  lemma ConcatStep(listed: seq<Span>, sets: seq<set<int>>, i: nat, next: seq<Span>)
    requires i < |sets| && sets[i] == Blocks(next)
    requires Blocks(listed) == UnionOf(sets[..i])
    ensures Blocks(listed + next) == UnionOf(sets[..i + 1])
  {
    BlocksConcat(listed, next);
    forall b ensures b in UnionOf(sets[..i + 1]) <==> b in UnionOf(sets[..i]) || b in sets[i] {
      if b in UnionOf(sets[..i + 1]) {
        var k :| 0 <= k < i + 1 && b in sets[..i + 1][k];
        assert k < i ==> b in sets[..i][k];
      }
      if b in UnionOf(sets[..i]) {
        var k :| 0 <= k < i && b in sets[..i][k];
        assert b in sets[..i + 1][k];
      }
      if b in sets[i] {
        assert b in sets[..i + 1][i];
      }
    }
  }

  /** The other form of the check: merge each kind over all checkpoints, then compare the two unions once. */
  method CompareUnions(math: M.ProfileSetMath, cps: seq<Checkpoint>) returns (verdict: M.Verdict)
    requires 0 <= math.work <= M.BUDGET && WellFormed(cps)
    modifies math
    ensures verdict == M.OverBudget <==> math.work > M.BUDGET
    ensures verdict == M.Accepted ==> UnionOf(MetadataSets(cps)) !! UnionOf(PayloadSets(cps))
    ensures verdict == M.Refused ==> !(UnionOf(MetadataSets(cps)) !! UnionOf(PayloadSets(cps)))
  {
    var metadata, payload: seq<Span> := [], [];
    ghost var ms, ps := MetadataSets(cps), PayloadSets(cps);
    assert UnionOf(ms[..0]) == {} && UnionOf(ps[..0]) == {};
    for i := 0 to |cps|
      invariant NonEmpty(metadata) && NonEmpty(payload)
      invariant Blocks(metadata) == UnionOf(ms[..i]) && Blocks(payload) == UnionOf(ps[..i])
      invariant math.work == old(math.work)
    {
      ConcatStep(metadata, ms, i, Spans(cps[i].metadata));
      ConcatStep(payload, ps, i, Spans(cps[i].payload));
      metadata, payload := metadata + Spans(cps[i].metadata), payload + Spans(cps[i].payload);
    }
    assert ms[..|cps|] == ms && ps[..|cps|] == ps;
    var ok, a := math.Union(metadata);
    if !ok { return M.OverBudget; }
    var b: seq<Span>;
    ok, b := math.Union(payload);
    if !ok { return M.OverBudget; }
    verdict := math.Disjoint(a, b);
  }

  // ---- Conservation ----

  datatype Volume = Volume(oid: nat, referenced: nat, exclusive: nat, referencedBytes: nat, exclusiveBytes: nat)

  datatype Accounting = Accounting(
    xids: seq<nat>, metadata: seq<RawRange>, payload: seq<RawRange>,
    allocatedMain: nat, allocatedInternal: nat, ownedMain: nat, ownedInternal: nat,
    reservedMain: nat, deferredMain: nat, deferredInternal: nat, usage: seq<Volume>)

  /** What the accounting is checked against: the selected checkpoint, its three blocks and volume, and the current census. */
  datatype Selection = Selection(
    capacity: nat, blockSize: nat, limit: nat, checkpoint: nat, blocks: seq<nat>, volume: nat,
    currentMetadata: nat, currentPayload: nat, unattributedMain: nat, unattributedInternal: nat)

  ghost function ReferencedBlocks(usage: seq<Volume>): seq<int> {
    seq(|usage|, i requires 0 <= i < |usage| => usage[i].referenced)
  }

  ghost predicate VolumeValid(v: Volume, blockSize: nat) {
    && v.exclusive <= v.referenced && v.oid > 0
    && v.referencedBytes == v.referenced * blockSize && v.exclusiveBytes == v.exclusive * blockSize
  }

  /** The first n rows are consistent, in order of their volumes, and reference no more than the payload. */
  ghost predicate UsageUpTo(usage: seq<Volume>, n: nat, blockSize: nat, payloadBlocks: nat)
    requires n <= |usage|
  {
    && (forall i :: 0 <= i < n ==> VolumeValid(usage[i], blockSize))
    && (forall i, j :: 0 <= i < j < n ==> usage[i].oid < usage[j].oid)
    && Sum(ReferencedBlocks(usage)[..n]) <= payloadBlocks
  }

  ghost predicate UsageValid(usage: seq<Volume>, blockSize: nat, payloadBlocks: nat, volume: nat) {
    UsageUpTo(usage, |usage|, blockSize, payloadBlocks) && exists i :: 0 <= i < |usage| && usage[i].oid == volume
  }

  lemma TakeReferenced(usage: seq<Volume>, i: nat)
    requires i < |usage|
    ensures Sum(ReferencedBlocks(usage)[..i + 1]) == Sum(ReferencedBlocks(usage)[..i]) + usage[i].referenced
  {
    var s := ReferencedBlocks(usage);
    assert s[..i + 1] == s[..i] + [s[i]];
    SumInit(s[..i], s[i]);
  }

  lemma ReferencedPrefix(usage: seq<Volume>, i: nat, n: nat)
    requires i <= n <= |usage|
    ensures Sum(ReferencedBlocks(usage)[..i]) <= Sum(ReferencedBlocks(usage)[..n])
  {
    SumPrefix(ReferencedBlocks(usage)[..n], i);
    assert ReferencedBlocks(usage)[..n][..i] == ReferencedBlocks(usage)[..i];
  }

  lemma UsageNext(usage: seq<Volume>, i: nat, blockSize: nat, payloadBlocks: nat)
    requires i < |usage| && UsageUpTo(usage, i, blockSize, payloadBlocks)
    ensures UsageUpTo(usage, i + 1, blockSize, payloadBlocks) <==>
      && VolumeValid(usage[i], blockSize) && (i > 0 ==> usage[i - 1].oid < usage[i].oid)
      && usage[i].referenced <= payloadBlocks - Sum(ReferencedBlocks(usage)[..i])
    ensures UsageUpTo(usage, |usage|, blockSize, payloadBlocks) ==> UsageUpTo(usage, i + 1, blockSize, payloadBlocks)
  {
    TakeReferenced(usage, i);
    ReferencedPrefix(usage, i + 1, |usage|);
    if i > 0 && usage[i - 1].oid < usage[i].oid {
      forall k | 0 <= k < i ensures usage[k].oid < usage[i].oid {
        assert k < i - 1 ==> usage[k].oid < usage[i - 1].oid;
      }
    }
  }

  /**
   * The running check accepts exactly when every row is consistent, volumes are ordered, the total fits the
   * payload and the selected volume has a row.
   */
  method ValidateUsage(usage: seq<Volume>, blockSize: nat, payloadBlocks: nat, volume: nat) returns (ok: bool)
    ensures ok <==> UsageValid(usage, blockSize, payloadBlocks, volume)
  {
    var volumes: set<nat> := {};
    var previous, total := 0, 0;
    for i := 0 to |usage|
      invariant previous == if i == 0 then 0 else usage[i - 1].oid
      invariant volume in volumes <==> exists k :: 0 <= k < i && usage[k].oid == volume
      invariant total == Sum(ReferencedBlocks(usage)[..i]) && UsageUpTo(usage, i, blockSize, payloadBlocks)
    {
      var v := usage[i];
      UsageNext(usage, i, blockSize, payloadBlocks);
      TakeReferenced(usage, i);
      if v.oid <= previous || v.exclusive > v.referenced || v.referenced > payloadBlocks - total ||
         v.referencedBytes != v.referenced * blockSize || v.exclusiveBytes != v.exclusive * blockSize {
        return false;
      }
      volumes := volumes + {v.oid};
      previous, total := v.oid, total + v.referenced;
    }
    ok := volume in volumes;
  }

  /** The pool totals: the internal pool is its own partition and is not added to the main one. */
  ghost predicate PoolsValid(a: Accounting, metadataBlocks: nat, payloadBlocks: nat, capacity: nat) {
    && a.allocatedMain == a.ownedMain + a.reservedMain + a.deferredMain
    && a.allocatedInternal == a.ownedInternal + a.deferredInternal
    && a.allocatedMain <= capacity && a.allocatedInternal <= a.allocatedMain
    && a.ownedMain == metadataBlocks + payloadBlocks && a.ownedInternal <= metadataBlocks
  }

  /** Rising transaction ids that end at the selected checkpoint. */
  ghost predicate XidsValid(xids: seq<nat>, limit: nat, checkpoint: nat) {
    0 < |xids| <= limit && Rising(xids) && xids[|xids| - 1] == checkpoint
  }

  method ValidateXids(xids: seq<nat>, limit: nat, checkpoint: nat) returns (ok: bool)
    ensures ok <==> XidsValid(xids, limit, checkpoint)
  {
    if !(0 < |xids| <= limit) { return false; }
    var previous := 0;
    for i := 0 to |xids|
      invariant previous == if i == 0 then 0 else xids[i - 1]
      invariant Rising(xids[..i])
    {
      RisingNext(xids, i);
      if xids[i] <= previous { return false; }
      previous := xids[i];
    }
    assert xids[..|xids|] == xids;
    ok := previous == checkpoint;
  }

  /** Some range holds the block. */
  method Holds(ranges: seq<RawRange>, block: nat) returns (held: bool)
    ensures held <==> block in Blocks(Spans(ranges))
  {
    InBlocks(Spans(ranges), block);
    for i := 0 to |ranges|
      invariant forall k :: 0 <= k < i ==> !(Spans(ranges)[k].start <= block < Spans(ranges)[k].end)
    {
      var r := ranges[i];
      assert Spans(ranges)[i] == ToSpan(r);
      if block >= r.first && block - r.first < r.count { return true; }
    }
    held := false;
  }

  /** A range starts at block 0: in a canonical list, the same as holding block 0. */
  method StartsAtZero(ranges: seq<RawRange>) returns (held: bool)
    requires Canonical(Spans(ranges))
    ensures held <==> 0 in Blocks(Spans(ranges))
  {
    var s := Spans(ranges);
    InBlocks(s, 0);
    for i := 0 to |ranges|
      invariant forall k :: 0 <= k < i ==> s[k].start != 0
    {
      assert s[i].start < s[i].end;
      if ranges[i].first == 0 { return true; }
    }
    held := false;
  }

  /** Metadata holds block 0 and each of the selected blocks. */
  method HoldsSelected(metadata: seq<RawRange>, blocks: seq<nat>) returns (ok: bool)
    requires Canonical(Spans(metadata))
    ensures ok <==> 0 in Blocks(Spans(metadata)) && forall b <- blocks :: b in Blocks(Spans(metadata))
  {
    ok := StartsAtZero(metadata);
    if !ok { return; }
    for i := 0 to |blocks|
      invariant forall k :: 0 <= k < i ==> blocks[k] in Blocks(Spans(metadata))
    {
      ok := Holds(metadata, blocks[i]);
      if !ok { return; }
    }
    ok := true;
  }

  /** The current checkpoint's own counts fit, and no allocated block is left without an owner. */
  ghost predicate CensusValid(s: Selection, metadataBlocks: nat, payloadBlocks: nat) {
    && 0 < s.currentMetadata <= metadataBlocks && s.currentPayload <= payloadBlocks
    && s.unattributedMain == 0 && s.unattributedInternal == 0
  }

  /** Metadata and payload are disjoint block sets, and every reported total is a count of blocks of those sets. */
  ghost predicate AccountingValid(a: Accounting, s: Selection) {
    var m, p := Blocks(Spans(a.metadata)), Blocks(Spans(a.payload));
    && XidsValid(a.xids, s.limit, s.checkpoint) && |a.metadata| + |a.payload| + |a.xids| <= s.limit
    && RangesValid(a.metadata, s.capacity) && RangesValid(a.payload, s.capacity)
    && m !! p && 0 in m && (forall b <- s.blocks :: b in m)
    && a.ownedMain == |m + p|
    && PoolsValid(a, |m|, |p|, s.capacity) && CensusValid(s, |m|, |p|)
    && |a.usage| <= s.limit && UsageValid(a.usage, s.blockSize, |p|, s.volume)
  }

  lemma OwnedFits(m: set<int>, p: set<int>, capacity: nat)
    requires m !! p && m <= Interval(0, capacity) && p <= Interval(0, capacity)
    ensures |m + p| == |m| + |p| <= capacity
  {
    Exact.DisjointSize(m, p);
    IntervalSize(0, capacity);
    Exact.SubsetSize(m + p, Interval(0, capacity));
  }

  /** The two kinds: their sums, the disjointness scan and the blocks that must be metadata. */
  method ValidateKinds(a: Accounting, s: Selection) returns (ok: bool, metadataBlocks: nat, payloadBlocks: nat)
    requires s.capacity <= U64_MAX
    ensures var m, p := Blocks(Spans(a.metadata)), Blocks(Spans(a.payload));
      && (ok <==> RangesValid(a.metadata, s.capacity) && RangesValid(a.payload, s.capacity) && m !! p && 0 in m &&
                  forall b <- s.blocks :: b in m)
      && (ok ==> metadataBlocks == |m| && payloadBlocks == |p| && |m + p| == |m| + |p|)
  {
    payloadBlocks := 0;
    ok, metadataBlocks := ValidateRanges(a.metadata, s.capacity);
    if !ok { return; }
    ok, payloadBlocks := ValidateRanges(a.payload, s.capacity);
    if !ok { return; }
    ghost var m, p := Blocks(Spans(a.metadata)), Blocks(Spans(a.payload));
    if m !! p { OwnedFits(m, p, s.capacity); }
    if !(metadataBlocks > 0 && metadataBlocks + payloadBlocks <= s.capacity) { return false, metadataBlocks, payloadBlocks; }
    ok := RequireDisjoint(a.metadata, a.payload);
    if !ok { return; }
    ok := HoldsSelected(a.metadata, s.blocks);
  }

  /** The pool totals and the census, from the numbers of blocks of both kinds. */
  method ValidatePools(a: Accounting, s: Selection, metadataBlocks: nat, payloadBlocks: nat) returns (ok: bool)
    ensures ok <==> PoolsValid(a, metadataBlocks, payloadBlocks, s.capacity) && CensusValid(s, metadataBlocks, payloadBlocks)
  {
    var main, within := a.allocatedMain, a.allocatedInternal;
    if main != a.ownedMain + a.reservedMain + a.deferredMain || within != a.ownedInternal + a.deferredInternal { return false; }
    if main > s.capacity || within > main { return false; }
    if a.ownedMain != metadataBlocks + payloadBlocks || a.ownedInternal > metadataBlocks { return false; }
    if s.currentMetadata == 0 || s.currentMetadata > metadataBlocks || s.currentPayload > payloadBlocks { return false; }
    ok := s.unattributedMain == 0 && s.unattributedInternal == 0;
  }

  /** The id chain, range sums, scan, pool partition and usage rows together accept exactly the conserved accountings. */
  method ValidateAccounting(a: Accounting, s: Selection) returns (ok: bool)
    requires s.capacity <= U64_MAX
    ensures ok <==> AccountingValid(a, s)
  {
    var metadataBlocks, payloadBlocks: nat;
    ok := ValidateXids(a.xids, s.limit, s.checkpoint);
    if !ok || |a.metadata| + |a.payload| + |a.xids| > s.limit { return false; }
    ok, metadataBlocks, payloadBlocks := ValidateKinds(a, s);
    if !ok { return; }
    ok := ValidatePools(a, s, metadataBlocks, payloadBlocks);
    if !ok || |a.usage| > s.limit { return false; }
    ok := ValidateUsage(a.usage, s.blockSize, payloadBlocks, s.volume);
  }
}
