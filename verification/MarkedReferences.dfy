/** Marked references: per-view physical counts, and the bounds put on an unlisted literal union. */
module MarkedReferences {
  import opened Prelude
  import opened BlockRanges
  import opened SnapshotFamilies
  import opened SnapshotMeasures
  import V = VisibleSnapshots
  import A = SnapshotAttribution
  import Exact = AttributionExactness
  import Place = BlockPlacing
  import M = ProfileSetMath

  /** One view's counts; the last view is the current one. */
  datatype ViewSpace = ViewSpace(count: nat, sharedWithCurrent: nat, absentFromCurrent: nat, sharedWithOthers: nat, unique: nat)

  ghost function Snapshots(family: seq<set<int>>): seq<set<int>>
    requires |family| > 0
  {
    family[..|family| - 1]
  }

  /** What a view's counts are to count. */
  ghost function SpaceOf(family: seq<set<int>>, i: nat): ViewSpace
    requires i < |family|
  {
    var refs, current, live := family[i], i + 1 == |family|, family[|family| - 1];
    ViewSpace(|refs|, if current then 0 else |refs * live|, if current then 0 else |refs - live|,
              |refs * Others(Snapshots(family), i)|, |refs - Others(family, i)|)
  }

  ghost predicate Listed(lists: seq<seq<Span>>) {
    V.AllUsable(lists) && forall i :: 0 <= i < |lists| ==> |lists[i]| <= MAX_RANGES
  }

  lemma SnapshotSets(lists: seq<seq<Span>>)
    requires |lists| > 0
    ensures V.BlockSets(lists[..|lists| - 1]) == Snapshots(V.BlockSets(lists))
  {
  }

  /** The ranges of the first n views, view i's left out. */
  ghost function RangesBut(lists: seq<seq<Span>>, i: nat, n: nat): nat
    requires n <= |lists|
  {
    if n == 0 then 0 else RangesBut(lists, i, n - 1) + if n - 1 == i then 0 else |lists[n - 1]|
  }

  /** The ranges of every snapshot but view i, charging each view visited and each range added. */
  method GatherOthers(math: M.ProfileSetMath, lists: seq<seq<Span>>, i: nat) returns (ok: bool, listed: seq<Span>)
    requires 0 <= math.work <= M.BUDGET && |lists| > 0 && Listed(lists)
    modifies math
    ensures math.work >= old(math.work)
    ensures !ok ==> math.work > M.BUDGET
    ensures ok ==> |listed| == RangesBut(lists, i, |lists| - 1) && V.Gathered(listed, lists, i, |lists| - 1)
    ensures ok ==> math.work == old(math.work) + |lists| - 1 + |listed| <= M.BUDGET
  {
    listed := [];
    assert V.BlockSets(lists[..0]) == [] && Others([], i) == {};
    for n := 0 to |lists| - 1
      invariant math.work == old(math.work) + n + |listed| <= M.BUDGET && |listed| == RangesBut(lists, i, n)
      invariant V.Gathered(listed, lists, i, n)
    {
      V.GatherStep(listed, lists, i, n);
      ok := math.Tick();
      if !ok { return; }
      if n != i {
        ok := math.Tick(|lists[n]|);
        if !ok { return; }
        listed := listed + lists[n];
      }
    }
    ok := true;
  }

  /**
   * Merges those ranges. Together a call that succeeds has charged each other snapshot once and each of
   * their ranges at least four times, less one: added, listed, compared and merged.
   */
  method OtherSnapshots(math: M.ProfileSetMath, lists: seq<seq<Span>>, i: nat) returns (ok: bool, u: seq<Span>)
    requires 0 <= math.work <= M.BUDGET && |lists| > 0 && Listed(lists)
    modifies math
    ensures math.work >= old(math.work)
    ensures !ok ==> math.work > M.BUDGET
    ensures ok ==> math.work <= M.BUDGET && Usable(u) && Blocks(u) == Others(Snapshots(V.BlockSets(lists)), i)
    ensures ok ==> math.work >= old(math.work) + |lists| - 2 + 4 * RangesBut(lists, i, |lists| - 1)
  {
    var listed;
    u := [];
    ok, listed := GatherOthers(math, lists, i);
    if !ok { return; }
    SnapshotSets(lists);
    V.OthersBounded(lists[..|lists| - 1], i);
    ok, u := math.Union(listed);
  }

  lemma OthersOfAll(family: seq<set<int>>, i: nat)
    requires i < |family|
    ensures Others(family, i) == Others(Snapshots(family), i) + if i + 1 == |family| then {} else family[|family| - 1]
  {
    var n := |family| - 1;
    forall b ensures b in Others(family, i) <==> b in Others(Snapshots(family), i) || (i != n && b in family[n]) {
      if b in Others(family, i) {
        var k :| 0 <= k < |family| && k != i && b in family[k];
        assert k < n ==> b in Snapshots(family)[k];
      }
      if b in Others(Snapshots(family), i) {
        var k :| 0 <= k < n && k != i && b in Snapshots(family)[k];
        assert b in family[k];
      }
    }
  }

  /** The other snapshots and, for a snapshot, the current view are all the other views. */
  lemma OthersBeside(lists: seq<seq<Span>>, i: nat, others: seq<Span>, beside: seq<Span>)
    requires i < |lists| && Blocks(others) == Others(Snapshots(V.BlockSets(lists)), i)
    requires beside == if i + 1 == |lists| then [] else lists[|lists| - 1]
    ensures Blocks(others) + Blocks(beside) + Blocks([]) == Others(V.BlockSets(lists), i)
  {
    OthersOfAll(V.BlockSets(lists), i);
    assert V.BlockSets(lists)[|lists| - 1] == Blocks(lists[|lists| - 1]);
  }

  /** The blocks no other view holds, counted. */
  method CountUnique(math: M.ProfileSetMath, lists: seq<seq<Span>>, i: nat, others: seq<Span>) returns (ok: bool, n: nat)
    requires 0 <= math.work <= M.BUDGET && i < |lists| && Listed(lists)
    requires Usable(others) && Blocks(others) == Others(Snapshots(V.BlockSets(lists)), i)
    modifies math
    ensures math.work >= old(math.work)
    ensures !ok ==> math.work > M.BUDGET
    ensures ok ==> math.work <= M.BUDGET && n == |Blocks(lists[i]) - Others(V.BlockSets(lists), i)|
  {
    n := 0;
    V.UsableEmpty();
    var beside := if i + 1 == |lists| then [] else lists[|lists| - 1];
    var alone;
    ok, alone := UniqueRanges(math, lists[i], others, beside, []);
    if !ok { return; }
    OthersBeside(lists, i, others, beside);
    ok, n := CountOf(math, alone);
  }

  /** The blocks missing from the current view, counted; the current view misses none. */
  method CountAbsent(math: M.ProfileSetMath, ranges: seq<Span>, live: seq<Span>, current: bool) returns (ok: bool, n: nat)
    requires 0 <= math.work <= M.BUDGET && Usable(ranges) && Usable(live)
    modifies math
    ensures math.work >= old(math.work)
    ensures !ok ==> math.work > M.BUDGET
    ensures ok ==> math.work <= M.BUDGET && n == if current then 0 else |Blocks(ranges) - Blocks(live)|
  {
    if current {
      return true, 0;
    }
    ok, n := CountDifference(math, ranges, live);
  }

  /** The counts are those of view i's blocks; At keeps that folded until a proof asks for it. */
  ghost predicate Counts(space: ViewSpace, family: seq<set<int>>, i: nat) {
    forall k {:trigger At(k)} :: At(k) && k == i < |family| ==> space == SpaceOf(family, i)
  }

  lemma SpaceFrom(family: seq<set<int>>, n: nat, i: nat, refs: set<int>, live: set<int>,
                  count: nat, absent: nat, shared: nat, unique: nat)
    requires i < n == |family| && refs == family[i] && live == family[n - 1] && count == |refs|
    requires absent == if i + 1 == n then 0 else |refs - live|
    requires shared == |refs * Others(Snapshots(family), i)| && unique == |refs - Others(family, i)|
    ensures absent <= count
    ensures Counts(ViewSpace(count, if i + 1 == n then 0 else count - absent, absent, shared, unique), family, i)
  {
    Exact.SplitSize(refs, live);
  }

  lemma ListedSets(lists: seq<seq<Span>>, i: nat)
    requires i < |lists|
    ensures |V.BlockSets(lists)| == |lists|
    ensures V.BlockSets(lists)[i] == Blocks(lists[i]) && V.BlockSets(lists)[|lists| - 1] == Blocks(lists[|lists| - 1])
  {
  }

  lemma Assembled(lists: seq<seq<Span>>, family: seq<set<int>>, i: nat, refs: set<int>, live: set<int>,
                  count: nat, absent: nat, shared: nat, unique: nat)
    requires i < |lists| && family == V.BlockSets(lists) && refs == Blocks(lists[i]) && live == Blocks(lists[|lists| - 1])
    requires count == |refs| && absent == if i + 1 == |lists| then 0 else |refs - live|
    requires shared == |refs * Others(Snapshots(family), i)| && unique == |refs - Others(family, i)|
    ensures absent <= count
    ensures Counts(ViewSpace(count, if i + 1 == |lists| then 0 else count - absent, absent, shared, unique), family, i)
  {
    ListedSets(lists, i);
    SpaceFrom(family, |lists|, i, refs, live, count, absent, shared, unique);
  }

  /** The counts of one view, by range arithmetic. */
  method ObserveView(math: M.ProfileSetMath, lists: seq<seq<Span>>, i: nat) returns (ok: bool, space: ViewSpace)
    requires 0 <= math.work <= M.BUDGET && i < |lists| && Listed(lists)
    modifies math
    ensures math.work >= old(math.work)
    ensures !ok ==> math.work > M.BUDGET
    ensures ok ==> math.work <= M.BUDGET && Counts(space, V.BlockSets(lists), i)
  {
    space := ViewSpace(0, 0, 0, 0, 0);
    var current := i + 1 == |lists|;
    var others: seq<Span>;
    var count, absent, shared, unique: nat := 0, 0, 0, 0;
    ok := math.Tick();
    if !ok { return; }
    ok, others := OtherSnapshots(math, lists, i);
    if !ok { return; }
    ok, count := CountOf(math, lists[i]);
    if !ok { return; }
    ok, absent := CountAbsent(math, lists[i], lists[|lists| - 1], current);
    if !ok { return; }
    ok, unique := CountUnique(math, lists, i, others);
    if !ok { return; }
    ok, shared := CountCommon(math, lists[i], count, others);
    if !ok { return; }
    Assembled(lists, V.BlockSets(lists), i, Blocks(lists[i]), Blocks(lists[|lists| - 1]), count, absent, shared, unique);
    space := ViewSpace(count, if current then 0 else count - absent, absent, shared, unique);
  }

  /** Every view's counts are those of its blocks. */
  ghost predicate SpacesAre(spaces: seq<ViewSpace>, family: seq<set<int>>) {
    |spaces| == |family| && forall i: nat :: i < |spaces| ==> spaces[i] == SpaceOf(family, i)
  }

  lemma AllCounted(spaces: seq<ViewSpace>, family: seq<set<int>>)
    requires |spaces| == |family| && forall i: nat :: i < |spaces| ==> Counts(spaces[i], family, i)
    ensures SpacesAre(spaces, family)
  {
    forall i: nat | i < |spaces| ensures spaces[i] == SpaceOf(family, i) {
      assert At(i);
    }
  }

  /** A snapshot's five numbers, and the current view's, in blocks. */
  lemma SpaceMeans(family: seq<set<int>>, i: nat, n: nat, others: set<int>)
    requires i < n + 1 == |family|
    requires forall b :: b in others <==> exists j :: 0 <= j < n && j != i && b in family[j]
    ensures var s := SpaceOf(family, i);
      && s.count == |family[i]| && s.sharedWithOthers == |family[i] * others|
      && (i < n ==>
           && s.sharedWithCurrent == |family[i] * family[n]| && s.absentFromCurrent == |family[i] - family[n]|
           && s.unique == |family[i] - (others + family[n])|)
      && (i == n ==> s.sharedWithCurrent == 0 && s.absentFromCurrent == 0 && s.unique == |family[i] - others|)
  {
    var before := Snapshots(family);
    forall b ensures b in Others(before, i) <==> b in others {
      if b in Others(before, i) {
        var j :| 0 <= j < |before| && j != i && b in before[j];
        assert b in family[j];
      }
      if b in others {
        var j :| 0 <= j < n && j != i && b in family[j];
        assert b in before[j];
      }
    }
    assert Others(before, i) == others;
    OthersOfAll(family, i);
    assert others + {} == others;
  }

  /** Every view is counted as its blocks are, or the work budget ran out. */
  method ObserveViews(math: M.ProfileSetMath, lists: seq<seq<Span>>) returns (ok: bool, spaces: seq<ViewSpace>)
    requires 0 <= math.work <= M.BUDGET && |lists| > 0 && Listed(lists)
    modifies math
    ensures !ok ==> math.work > M.BUDGET
    ensures ok ==> SpacesAre(spaces, V.BlockSets(lists))
  {
    spaces := [];
    for i := 0 to |lists|
      invariant 0 <= math.work <= M.BUDGET && |spaces| == i
      invariant forall k: nat :: k < i ==> Counts(spaces[k], V.BlockSets(lists), k)
    {
      var space;
      ok, space := ObserveView(math, lists, i);
      if !ok { return; }
      spaces := spaces + [space];
    }
    AllCounted(spaces, V.BlockSets(lists));
    ok := true;
  }

  // ---- What the counts add up to ----

  ghost function Uniques(family: seq<set<int>>): seq<int> {
    seq(|family|, i requires 0 <= i < |family| => SpaceOf(family, i).unique)
  }

  /** Every block that exactly one view holds is reported unique once: with the shared blocks they make up the union. */
  lemma UniquesAndSharedMakeUnion(family: seq<set<int>>)
    ensures Sum(Uniques(family)) + |SharedBlocks(family)| == |UnionOf(family)|
  {
    var alone := UnionOf(family) - SharedBlocks(family);
    forall i | 0 <= i < |family| ensures Uniques(family)[i] == Sizes(family, alone)[i] {
      SharedPart(family, i);
    }
    assert Uniques(family) == Sizes(family, alone);
    forall b | b in alone ensures Multiplicity(family, b) == 1 {
      SharedMultiplicity(family, b);
    }
    DoubleCount(family, alone, 1, 1);
    Exact.SplitSize(UnionOf(family), SharedBlocks(family));
    assert UnionOf(family) * SharedBlocks(family) == SharedBlocks(family);
  }

  // ---- The literal union, of which only sizes are reported ----

  /** The test on the reported size of the literal union. */
  ghost predicate LiteralAccepted(literals: seq<nat>, union: nat, payload: nat, capacity: nat) {
    Largest(literals) <= union <= Min(capacity, Sum(literals)) && union <= payload
  }

  /** The running maximum and the saturating sum of the literal sizes. */
  method LiteralBounds(literals: seq<nat>, capacity: nat) returns (largest: nat, sum: nat)
    ensures largest == Largest(literals) && sum == Min(capacity, Sum(literals))
  {
    largest, sum := 0, 0;
    for i := 0 to |literals|
      invariant largest == Largest(literals[..i]) && sum == Min(capacity, Sum(literals[..i]))
      invariant Sum(literals[..i]) >= 0
    {
      LargestNext(literals, i);
      A.TakeNext(literals, i);
      if largest < literals[i] {
        largest := literals[i];
      }
      sum := sum + Min(literals[i], capacity - sum);
    }
    assert literals[..|literals|] == literals;
  }

  ghost predicate SizesAre(family: seq<set<int>>, sizes: seq<nat>) {
    |family| == |sizes| && forall i :: 0 <= i < |sizes| ==> |family[i]| == sizes[i]
  }

  lemma SizesOfUnion(family: seq<set<int>>, sizes: seq<nat>)
    requires SizesAre(family, sizes)
    ensures Largest(sizes) <= |UnionOf(family)| <= Sum(sizes)
  {
    var u := UnionOf(family);
    forall i | 0 <= i < |sizes| ensures sizes[i] <= |u| && Sizes(family, u)[i] == sizes[i] {
      MemberInUnion(family, i);
      Exact.SubsetSize(family[i], u);
      assert family[i] * u == family[i];
    }
    LargestBound(sizes, |u|);
    assert Sizes(family, u) == sizes;
    forall b | b in u ensures 1 <= Multiplicity(family, b) <= |family| {
      SharedMultiplicity(family, b);
      MultiplicityBound(family);
    }
    DoubleCount(family, u, 1, |family|);
  }

  /** Real literal sets, each inside its view's payload, always pass. */
  lemma LiteralsOfSetsPass(literal: seq<set<int>>, payload: seq<set<int>>, sizes: seq<nat>, capacity: nat)
    requires SizesAre(literal, sizes) && |payload| == |literal| && forall i :: 0 <= i < |literal| ==> literal[i] <= payload[i]
    requires |UnionOf(payload)| <= capacity
    ensures LiteralAccepted(sizes, |UnionOf(literal)|, |UnionOf(payload)|, capacity)
  {
    SizesOfUnion(literal, sizes);
    forall b | b in UnionOf(literal) ensures b in UnionOf(payload) {
      var i :| 0 <= i < |literal| && b in literal[i];
      assert b in payload[i];
    }
    Exact.SubsetSize(UnionOf(literal), UnionOf(payload));
  }

  /** Set i of given sizes laid end to end around d blocks. */
  ghost function Around(sizes: seq<nat>, d: nat): seq<set<int>>
    requires forall i :: 0 <= i < |sizes| ==> sizes[i] <= d
  {
    seq(|sizes|, i requires 0 <= i < |sizes| => StepArc(sizes, d, i))
  }

  /** A run that would pass the end is moved back to stop there. */
  ghost function StepArc(sizes: seq<nat>, d: nat, i: nat): set<int>
    requires i < |sizes| && sizes[i] <= d
  {
    var start := Exact.Start(sizes, i);
    if start + sizes[i] <= d then Interval(start, start + sizes[i]) else Interval(d - sizes[i], d)
  }

  lemma StepArcSize(sizes: seq<nat>, d: nat, i: nat)
    requires i < |sizes| && sizes[i] <= d
    ensures |StepArc(sizes, d, i)| == sizes[i] && StepArc(sizes, d, i) <= Interval(0, d)
  {
    Exact.StartNext(sizes, i);
    var start := Exact.Start(sizes, i);
    IntervalSize(start, start + sizes[i]);
    IntervalSize(d - sizes[i], d);
  }

  lemma AroundCovers(sizes: seq<nat>, d: nat)
    requires (forall i :: 0 <= i < |sizes| ==> sizes[i] <= d) && d <= Sum(sizes)
    ensures UnionOf(Around(sizes, d)) == Interval(0, d)
  {
    var family := Around(sizes, d);
    forall b | b in UnionOf(family) ensures b in Interval(0, d) {
      var i :| 0 <= i < |family| && b in family[i];
      StepArcSize(sizes, d, i);
    }
    forall b | b in Interval(0, d) ensures b in UnionOf(family) {
      var i := Exact.Locate(sizes, b);
      assert b in family[i];
    }
    assert UnionOf(family) == Interval(0, d);
  }

  /**
   * The test is exact for the sizes alone: numbers pass exactly when some sets of those sizes have a
   * union of that size, and it is no larger than the payload union and the capacity.
   */
  lemma LiteralTestIsExact(sizes: seq<nat>, union: nat, payload: nat, capacity: nat)
    ensures LiteralAccepted(sizes, union, payload, capacity)
       <==> union <= payload && union <= capacity && exists family :: SizesAre(family, sizes) && |UnionOf(family)| == union
  {
    if LiteralAccepted(sizes, union, payload, capacity) {
      LargestBound(sizes, union);
      var family := Around(sizes, union);
      forall i | 0 <= i < |sizes| ensures |family[i]| == sizes[i] {
        StepArcSize(sizes, union, i);
      }
      AroundCovers(sizes, union);
      IntervalSize(0, union);
      assert SizesAre(family, sizes) && |UnionOf(family)| == union;
    }
    if exists family :: SizesAre(family, sizes) && |UnionOf(family)| == union {
      var family :| SizesAre(family, sizes) && |UnionOf(family)| == union;
      SizesOfUnion(family, sizes);
    }
  }

  // ---- Where the payload lies, which the test does not see ----

  /** Literal sets of these sizes and this union, each inside its view's payload. */
  ghost predicate FitsInside(literal: seq<set<int>>, payload: seq<set<int>>, sizes: seq<nat>, union: nat) {
    && SizesAre(literal, sizes) && |payload| == |literal| && |UnionOf(literal)| == union
    && forall i :: 0 <= i < |literal| ==> literal[i] <= payload[i]
  }

  ghost predicate PairwiseApart(family: seq<set<int>>) {
    forall i, j :: 0 <= i < j < |family| ==> family[i] !! family[j]
  }

  lemma ApartUnion(family: seq<set<int>>, sizes: seq<nat>)
    requires SizesAre(family, sizes) && PairwiseApart(family)
    ensures |UnionOf(family)| == Sum(sizes)
  {
    var u := UnionOf(family);
    forall i, b | 0 <= i < |family| && b in family[i] ensures b !in Others(family, i) {
      forall j | 0 <= j < |family| && j != i ensures b !in family[j] {
        assert family[i] !! family[j];
      }
    }
    assert SharedBlocks(family) == {};
    CountOnce(family, u);
    forall i | 0 <= i < |sizes| ensures Sizes(family, u)[i] == sizes[i] {
      MemberInUnion(family, i);
      assert family[i] * u == family[i];
    }
    assert Sizes(family, u) == sizes;
  }

  /** The first n of any listing of a set are n of its blocks. */
  lemma PartExists(s: set<int>, n: nat)
    requires n <= |s|
    ensures exists t :: t <= s && |t| == n
  {
    var places := Place.Listing(s);
    var t := Place.Placed(places, Interval(0, n));
    Place.PlacedSize(places, Interval(0, n));
    IntervalSize(0, n);
    assert t <= s && |t| == n;
  }

  ghost function Part(s: set<int>, n: nat): (t: set<int>)
    requires n <= |s|
    ensures t <= s && |t| == n
  {
    PartExists(s, n);
    var t :| t <= s && |t| == n;
    t
  }

  /** Where the payloads lie apart from each other, a literal union is possible exactly when it is the sum of the sizes. */
  lemma ApartIsExact(payload: seq<set<int>>, sizes: seq<nat>, union: nat)
    requires PairwiseApart(payload) && |payload| == |sizes|
    ensures (exists literal :: FitsInside(literal, payload, sizes, union))
       <==> union == Sum(sizes) && forall i :: 0 <= i < |sizes| ==> sizes[i] <= |payload[i]|
  {
    if literal :| FitsInside(literal, payload, sizes, union) {
      ApartUnion(literal, sizes);
      forall i | 0 <= i < |sizes| ensures sizes[i] <= |payload[i]| {
        Exact.SubsetSize(literal[i], payload[i]);
      }
    }
    if union == Sum(sizes) && forall i :: 0 <= i < |sizes| ==> sizes[i] <= |payload[i]| {
      var literal := seq(|sizes|, i requires 0 <= i < |sizes| => Part(payload[i], sizes[i]));
      ApartUnion(literal, sizes);
      assert FitsInside(literal, payload, sizes, union);
    }
  }

  /** Where all payloads share at least as many blocks as the union counts, the test on the numbers is enough. */
  lemma CommonIsEnough(payload: seq<set<int>>, common: set<int>, sizes: seq<nat>, union: nat, capacity: nat)
    requires |payload| == |sizes| && forall i :: 0 <= i < |payload| ==> common <= payload[i]
    requires LiteralAccepted(sizes, union, |UnionOf(payload)|, capacity) && union <= |common|
    ensures exists literal :: FitsInside(literal, payload, sizes, union)
  {
    LargestBound(sizes, union);
    var around := Around(sizes, union);
    var places := Place.Listing(common);
    forall i | 0 <= i < |sizes|
      ensures |around[i]| == sizes[i] && around[i] <= Interval(0, |places|)
    {
      StepArcSize(sizes, union, i);
    }
    var literal := Place.PlacedAll(places, around);
    Place.MovedCounts(places, around);
    AroundCovers(sizes, union);
    IntervalSize(0, union);
    forall i | 0 <= i < |sizes| ensures |literal[i]| == sizes[i] && literal[i] <= payload[i] {
      Place.PlacedSize(places, around[i]);
    }
    assert FitsInside(literal, payload, sizes, union);
  }

  /**
   * The test does not look there: two one-block payloads apart from each other, with one literal block
   * in each, pass with a literal union of one block although only two is possible.
   */
  lemma LiteralTestMissesPlaces(payload: seq<set<int>>)
    requires |payload| == 2 && payload[0] == {0} && payload[1] == {1}
    ensures LiteralAccepted([1, 1], 1, |UnionOf(payload)|, 2)
    ensures forall literal :: !FitsInside(literal, payload, [1, 1], 1)
  {
    var ones: seq<int> := [1, 1];
    assert ones[..1][..0] == [] && ones[..1] == [1];
    Exact.SumOfTwo(1, 1);
    ApartUnion(payload, [1, 1]);
    ApartIsExact(payload, [1, 1], 1);
  }
}
