/** The counts against the live view: when accepted rows have block sets and a live set behind them. */
module LiveOverlaps {
  import opened Prelude
  import opened BlockRanges
  import opened SnapshotFamilies
  import opened SnapshotAttribution
  import opened AttributionExactness
  import opened BlockPlacing

  /** The live part of a row's exclusive blocks: those it alone holds of the snapshots, less those nothing else holds. */
  ghost function AloneLive(m: Measures): int {
    m.referenced - m.sharedWithOthers - m.unique
  }

  /** How many of the blocks each row shares are live. */
  ghost function SharedLive(rows: seq<Measures>): seq<int> {
    seq(|rows|, i requires 0 <= i < |rows| => rows[i].sharedWithLive - AloneLive(rows[i]))
  }

  /** How many of the blocks each row shares are not live. */
  ghost function SharedDead(rows: seq<Measures>): seq<int> {
    seq(|rows|, i requires 0 <= i < |rows| => rows[i].sharedWithOthers - SharedLive(rows)[i])
  }

  ghost function SharedCount(rows: seq<Measures>, union: nat): int {
    union - Sum(Exclusive(rows))
  }

  /**
   * The test the code leaves out. The live and the other shared blocks must each be enough for the row
   * with most of them, and each be counted at least twice.
   */
  ghost predicate LiveFits(rows: seq<Measures>, union: nat) {
    var live, dead, d := SharedLive(rows), SharedDead(rows), SharedCount(rows, union);
    && Largest(live) + Largest(dead) <= d <= Sum(live) / 2 + Sum(dead) / 2
    && 2 * Largest(live) <= Sum(live) && 2 * Largest(dead) <= Sum(dead)
  }

  /** A family of block sets and a live set have all the counts of these rows but the protected ones. */
  ghost predicate HasLiveCounts(family: seq<set<int>>, live: set<int>, rows: seq<Measures>, union: nat) {
    && |family| == |rows| && |UnionOf(family)| == union
    && forall i :: 0 <= i < |rows| ==> HasLiveRow(family, live, i, rows[i])
  }

  ghost predicate HasLiveRow(family: seq<set<int>>, live: set<int>, i: int, m: Measures)
    requires 0 <= i < |family|
  {
    && |family[i]| == m.referenced && |family[i] * live| == m.sharedWithLive && |family[i] - live| == m.absentFromLive
    && |family[i] * Others(family, i)| == m.sharedWithOthers
    && |family[i] - (live + Others(family, i))| == m.unique
  }

  // ---- Splitting the shared blocks into live and dead ----

  /** With dl of the d shared blocks live, both halves can be laid around. */
  ghost predicate SplitFits(live: seq<int>, dead: seq<int>, d: int, dl: int) {
    && 0 <= dl <= d && 2 * dl <= Sum(live) && 2 * (d - dl) <= Sum(dead)
    && (forall i :: 0 <= i < |live| ==> live[i] <= dl) && (forall i :: 0 <= i < |dead| ==> dead[i] <= d - dl)
  }

  lemma LargestNonnegative(s: seq<int>)
    ensures Largest(s) >= 0
  {
  }

  lemma SplitExists(rows: seq<Measures>, union: nat) returns (dl: nat)
    requires LiveFits(rows, union)
    ensures SplitFits(SharedLive(rows), SharedDead(rows), SharedCount(rows, union), dl)
  {
    var live, dead, d := SharedLive(rows), SharedDead(rows), SharedCount(rows, union);
    LargestNonnegative(live);
    LargestNonnegative(dead);
    dl := if Largest(live) < d - Sum(dead) / 2 then d - Sum(dead) / 2 else Largest(live);
    LargestBound(live, dl);
    LargestBound(dead, d - dl);
  }

  lemma SplitNeeded(rows: seq<Measures>, union: nat, dl: int)
    requires SplitFits(SharedLive(rows), SharedDead(rows), SharedCount(rows, union), dl)
    ensures LiveFits(rows, union)
  {
    var live, dead, d := SharedLive(rows), SharedDead(rows), SharedCount(rows, union);
    LargestBound(live, dl);
    LargestBound(dead, d - dl);
  }

  // ---- Sets behind the counts give a split ----

  lemma SharedPieces(refs: set<int>, shared: set<int>, live: set<int>)
    ensures |refs * (shared * live)| == |refs * live| - |(refs - shared) * live|
    ensures |refs * (shared - live)| == |refs * shared| - |refs * (shared * live)|
  {
    SplitSize(refs * live, shared);
    assert refs * live - shared == (refs - shared) * live;
    assert refs * live * shared == refs * (shared * live);
    SplitSize(refs * shared, live);
    assert refs * shared * live == refs * (shared * live);
    assert refs * shared - live == refs * (shared - live);
  }

  lemma AlonePieces(refs: set<int>, shared: set<int>, live: set<int>)
    ensures |(refs - shared) * live| == |refs| - |refs * shared| - |refs - (live + shared)|
  {
    SplitSize(refs, shared);
    SplitSize(refs - shared, live);
    assert (refs - shared) - live == refs - (live + shared);
  }

  lemma RowParts(family: seq<set<int>>, live: set<int>, i: int, m: Measures)
    requires 0 <= i < |family| && HasLiveRow(family, live, i, m)
    ensures var shared := SharedBlocks(family);
      && |family[i] * (shared * live)| == m.sharedWithLive - AloneLive(m)
      && |family[i] * (shared - live)| == m.sharedWithOthers - (m.sharedWithLive - AloneLive(m))
  {
    var refs, shared, others := family[i], SharedBlocks(family), Others(family, i);
    SharedPart(family, i);
    SameInside(refs, shared, others, live);
    SharedPieces(refs, shared, live);
    AlonePieces(refs, shared, live);
  }

  lemma SameInside(refs: set<int>, shared: set<int>, others: set<int>, live: set<int>)
    requires refs * others == refs * shared
    ensures refs - (live + others) == refs - (live + shared)
  {
    forall b | b in refs ensures b in others <==> b in shared {
      assert b in refs * others <==> b in refs * shared;
    }
  }

  lemma SharedCountOf(family: seq<set<int>>, live: set<int>, rows: seq<Measures>, union: nat)
    requires HasLiveCounts(family, live, rows, union)
    ensures SharedCount(rows, union) == |SharedBlocks(family)|
  {
    FamilyCounts(family);
    var alone := UnionOf(family) - SharedBlocks(family);
    forall i | 0 <= i < |rows| ensures Exclusive(rows)[i] == Sizes(family, alone)[i] {
      SharedPart(family, i);
      SplitSize(family[i], Others(family, i));
    }
    assert Exclusive(rows) == Sizes(family, alone);
  }

  lemma SplitOfFamily(family: seq<set<int>>, live: set<int>, rows: seq<Measures>, union: nat)
    requires HasLiveCounts(family, live, rows, union)
    ensures SplitFits(SharedLive(rows), SharedDead(rows), SharedCount(rows, union), |SharedBlocks(family) * live|)
  {
    var shared := SharedBlocks(family);
    forall i | 0 <= i < |rows|
      ensures SharedLive(rows)[i] == Sizes(family, shared * live)[i] <= |shared * live|
      ensures SharedDead(rows)[i] == Sizes(family, shared - live)[i] <= |shared - live|
    {
      RowParts(family, live, i, rows[i]);
      SubsetSize(family[i] * (shared * live), shared * live);
      SubsetSize(family[i] * (shared - live), shared - live);
    }
    assert SharedLive(rows) == Sizes(family, shared * live);
    assert SharedDead(rows) == Sizes(family, shared - live);
    CountedTwice(family, shared * live);
    CountedTwice(family, shared - live);
    SharedCountOf(family, live, rows, union);
    SplitSize(shared, live);
  }

  // ---- A split gives sets: a live half and, past it, a dead half ----

  ghost function Join(left: seq<set<int>>, right: seq<set<int>>): seq<set<int>>
    requires |left| == |right|
  {
    seq(|left|, i requires 0 <= i < |left| => left[i] + right[i])
  }

  lemma JoinOthers(left: seq<set<int>>, right: seq<set<int>>, i: int)
    requires |left| == |right|
    ensures Others(Join(left, right), i) == Others(left, i) + Others(right, i)
  {
    var family := Join(left, right);
    forall b ensures b in Others(family, i) <==> b in Others(left, i) || b in Others(right, i) {
      if b in Others(left, i) {
        var j :| 0 <= j < |left| && j != i && b in left[j];
        assert b in family[j];
      }
      if b in Others(right, i) {
        var j :| 0 <= j < |right| && j != i && b in right[j];
        assert b in family[j];
      }
    }
  }

  lemma JoinUnion(left: seq<set<int>>, right: seq<set<int>>)
    requires |left| == |right|
    ensures UnionOf(Join(left, right)) == UnionOf(left) + UnionOf(right)
  {
    var family := Join(left, right);
    forall b ensures b in UnionOf(family) <==> b in UnionOf(left) || b in UnionOf(right) {
      if b in UnionOf(left) {
        var j :| 0 <= j < |left| && b in left[j];
        assert b in family[j];
      }
      if b in UnionOf(right) {
        var j :| 0 <= j < |right| && b in right[j];
        assert b in family[j];
      }
    }
  }

  ghost predicate HalfRow(family: seq<set<int>>, i: int, shared: nat, alone: nat)
    requires 0 <= i < |family|
  {
    |family[i]| == shared + alone && |family[i] * Others(family, i)| == shared
  }

  /** A family with these shared and exclusive counts. */
  ghost predicate HalfFits(family: seq<set<int>>, shared: seq<nat>, alone: seq<nat>) {
    && |family| == |shared| == |alone|
    && forall i {:trigger Others(family, i)} :: 0 <= i < |family| ==> HalfRow(family, i, shared[i], alone[i])
  }

  /** Arcs for the shared counts and runs for the exclusive ones fill an interval from 0. */
  lemma HalfAtZero(shared: seq<nat>, alone: seq<nat>, d: nat) returns (family: seq<set<int>>)
    requires |shared| == |alone| && SharedFit(shared, d)
    ensures HalfFits(family, shared, alone) && UnionOf(family) == Interval(0, d + Sum(alone))
  {
    family := Members(shared, alone, d);
    MembersCover(shared, alone, d);
    forall i | 0 <= i < |family|
      ensures |family[i]| == shared[i] + alone[i] && |family[i] * Others(family, i)| == shared[i]
    {
      MemberParts(shared, alone, d, i);
      MembersShare(shared, alone, d, i);
    }
  }

  lemma MovedHalf(places: seq<int>, half: seq<set<int>>, shared: seq<nat>, alone: seq<nat>)
    requires Distinct(places) && HalfFits(half, shared, alone) && UnionOf(half) == Interval(0, |places|)
    ensures forall i :: 0 <= i < |half| ==> half[i] <= Interval(0, |places|)
    ensures HalfFits(PlacedAll(places, half), shared, alone)
    ensures UnionOf(PlacedAll(places, half)) == Placed(places, Interval(0, |places|))
  {
    forall i | 0 <= i < |half| ensures half[i] <= Interval(0, |places|) {
      MemberInUnion(half, i);
    }
    PlacedUnion(places, half);
    MovedCounts(places, half);
    forall i | 0 <= i < |half|
      ensures var moved := PlacedAll(places, half);
        |moved[i]| == shared[i] + alone[i] && |moved[i] * Others(moved, i)| == shared[i]
    {
      var others := Others(half, i);
    }
  }

  /** The same from any block on. */
  lemma HalfFrom(from: int, shared: seq<nat>, alone: seq<nat>, d: nat, n: nat) returns (family: seq<set<int>>)
    requires |shared| == |alone| && SharedFit(shared, d) && n == d + Sum(alone)
    ensures HalfFits(family, shared, alone) && UnionOf(family) == Interval(from, from + n)
  {
    var half := HalfAtZero(shared, alone, d);
    var places := From(from, n);
    MovedHalf(places, half, shared, alone);
    family := PlacedAll(places, half);
    PlacedFrom(from, n);
  }

  lemma OthersInside(family: seq<set<int>>, i: int)
    ensures Others(family, i) <= UnionOf(family)
  {
  }

  lemma JoinedParts(a: set<int>, b: set<int>, oa: set<int>, ob: set<int>, live: set<int>)
    requires a <= live && oa <= live && live !! b && live !! ob
    ensures (a + b) * live == a && (a + b) - live == b && (a + b) - (live + (oa + ob)) == b - ob
    ensures |a + b| == |a| + |b| && |(a + b) * (oa + ob)| == |a * oa| + |b * ob|
    ensures |b - ob| == |b| - |b * ob|
  {
    DisjointSize(a, b);
    assert (a + b) * (oa + ob) == a * oa + b * ob;
    DisjointSize(a * oa, b * ob);
    SplitSize(b, ob);
  }

  /** A live half and a dead half, apart from each other, have the counts their sizes add up to. */
  lemma JoinedRow(left: seq<set<int>>, right: seq<set<int>>, live: set<int>, i: nat, m: Measures)
    requires |left| == |right| && i < |left| && UnionOf(left) <= live && live !! UnionOf(right)
    requires |left[i]| == m.sharedWithLive && |right[i]| == m.referenced - m.sharedWithLive == m.absentFromLive
    requires |left[i] * Others(left, i)| + |right[i] * Others(right, i)| == m.sharedWithOthers
    requires |right[i]| - |right[i] * Others(right, i)| == m.unique
    ensures HasLiveRow(Join(left, right), live, i, m)
  {
    MemberInUnion(left, i);
    MemberInUnion(right, i);
    OthersInside(left, i);
    OthersInside(right, i);
    JoinOthers(left, right, i);
    JoinedParts(left[i], right[i], Others(left, i), Others(right, i), live);
  }

  /** A row's counts from its four parts: shared and alone, live and dead. */
  ghost predicate ColumnsAre(m: Measures, live0: nat, live1: nat, dead0: nat, dead1: nat) {
    && live0 + live1 == m.sharedWithLive && dead0 + dead1 == m.absentFromLive == m.referenced - m.sharedWithLive
    && live0 + dead0 == m.sharedWithOthers && dead1 == m.unique
  }

  ghost predicate RowColumnsAre(rows: seq<Measures>, live0: seq<nat>, live1: seq<nat>, dead0: seq<nat>, dead1: seq<nat>, i: int)
    requires |live0| == |live1| == |dead0| == |dead1| == |rows| && 0 <= i < |rows|
  {
    ColumnsAre(rows[i], live0[i], live1[i], dead0[i], dead1[i])
  }

  ghost predicate AllColumns(rows: seq<Measures>, live0: seq<nat>, live1: seq<nat>, dead0: seq<nat>, dead1: seq<nat>) {
    && |live0| == |live1| == |dead0| == |dead1| == |rows|
    && forall i :: 0 <= i < |rows| ==> RowColumnsAre(rows, live0, live1, dead0, dead1, i)
  }

  lemma RowColumns(m: Measures, union: nat, capacity: nat)
    requires RowAccepted(m, union, capacity)
    ensures AloneLive(m) >= 0 && 0 <= m.sharedWithLive - AloneLive(m) <= m.sharedWithOthers
    ensures var q := m.sharedWithLive - AloneLive(m); ColumnsAre(m, q, AloneLive(m), m.sharedWithOthers - q, m.unique)
  {
  }

  /** The four parts of every row, as columns of sizes. */
  lemma Columns(rows: seq<Measures>, union: nat, capacity: nat)
    returns (live0: seq<nat>, live1: seq<nat>, dead0: seq<nat>, dead1: seq<nat>)
    requires KindAccepted(rows, union, capacity)
    ensures live0 == SharedLive(rows) && dead0 == SharedDead(rows)
    ensures AllColumns(rows, live0, live1, dead0, dead1) && Sum(Exclusive(rows)) == Sum(live1) + Sum(dead1)
    ensures Sum(live1) >= 0 && Sum(dead1) >= 0
  {
    forall i | 0 <= i < |rows|
      ensures AloneLive(rows[i]) >= 0 && SharedLive(rows)[i] >= 0 && SharedDead(rows)[i] >= 0
      ensures ColumnsAre(rows[i], SharedLive(rows)[i], AloneLive(rows[i]), SharedDead(rows)[i], rows[i].unique)
    {
      RowColumns(rows[i], union, capacity);
    }
    live0 := seq(|rows|, i requires 0 <= i < |rows| => SharedLive(rows)[i]);
    live1 := seq(|rows|, i requires 0 <= i < |rows| => AloneLive(rows[i]));
    dead0 := seq(|rows|, i requires 0 <= i < |rows| => SharedDead(rows)[i]);
    dead1 := seq(|rows|, i requires 0 <= i < |rows| => rows[i].unique);
    SumDifference(Exclusive(rows), live1, dead1);
    SumNonnegative(live1);
    SumNonnegative(dead1);
  }

  lemma HalvesMakeRows(left: seq<set<int>>, right: seq<set<int>>, live: set<int>, rows: seq<Measures>, union: nat,
                       live0: seq<nat>, live1: seq<nat>, dead0: seq<nat>, dead1: seq<nat>)
    requires |left| == |right| == |rows| && HalfFits(left, live0, live1) && HalfFits(right, dead0, dead1)
    requires UnionOf(left) <= live && live !! UnionOf(right) && |UnionOf(left)| + |UnionOf(right)| == union
    requires AllColumns(rows, live0, live1, dead0, dead1)
    ensures HasLiveCounts(Join(left, right), live, rows, union)
  {
    JoinUnion(left, right);
    DisjointSize(UnionOf(left), UnionOf(right));
    forall i | 0 <= i < |rows| ensures HasLiveRow(Join(left, right), live, i, rows[i]) {
      assert RowColumnsAre(rows, live0, live1, dead0, dead1, i);
      assert HalfRow(left, i, live0[i], live1[i]) && HalfRow(right, i, dead0[i], dead1[i]) by {
        var a, b := Others(left, i), Others(right, i);
      }
      JoinedRow(left, right, live, i, rows[i]);
    }
  }

  lemma Adjacent(from: int, mid: int, to: int)
    requires from <= mid <= to
    ensures Interval(from, mid) !! Interval(mid, to) && Interval(from, mid) + Interval(mid, to) == Interval(from, to)
    ensures |Interval(from, mid)| + |Interval(mid, to)| == to - from
  {
    IntervalSize(from, mid);
    IntervalSize(mid, to);
  }

  lemma SideBySide(left: seq<set<int>>, right: seq<set<int>>, rows: seq<Measures>, union: nat, from: int, mid: int, to: int,
                   live0: seq<nat>, live1: seq<nat>, dead0: seq<nat>, dead1: seq<nat>)
    requires |left| == |right| == |rows| && HalfFits(left, live0, live1) && HalfFits(right, dead0, dead1)
    requires from <= mid <= to == from + union && UnionOf(left) == Interval(from, mid) && UnionOf(right) == Interval(mid, to)
    requires AllColumns(rows, live0, live1, dead0, dead1)
    ensures HasLiveCounts(Join(left, right), Interval(from, mid), rows, union)
    ensures UnionOf(Join(left, right)) == Interval(from, to)
  {
    Adjacent(from, mid, to);
    HalvesMakeRows(left, right, Interval(from, mid), rows, union, live0, live1, dead0, dead1);
    JoinUnion(left, right);
  }

  /** A live half from one block on, and the other half where it ends. */
  lemma Halves(from: int, live0: seq<nat>, live1: seq<nat>, dead0: seq<nat>, dead1: seq<nat>, d: nat, dl: nat, mid: int, to: int)
    returns (left: seq<set<int>>, right: seq<set<int>>)
    requires |live0| == |live1| == |dead0| == |dead1| && SplitFits(live0, dead0, d, dl)
    requires Sum(live1) >= 0 && Sum(dead1) >= 0 && mid == from + dl + Sum(live1) && to == mid + d - dl + Sum(dead1)
    ensures |left| == |right| == |live0| && HalfFits(left, live0, live1) && HalfFits(right, dead0, dead1)
    ensures UnionOf(left) == Interval(from, mid) && UnionOf(right) == Interval(mid, to)
  {
    left := HalfFrom(from, live0, live1, dl, mid - from);
    right := HalfFrom(mid, dead0, dead1, d - dl, to - mid);
  }

  /** Rows that pass the code's test and the missing one have block sets, anywhere, and a live set. */
  lemma LiveWitness(rows: seq<Measures>, union: nat, capacity: nat, from: int) returns (family: seq<set<int>>, live: set<int>)
    requires KindAccepted(rows, union, capacity) && LiveFits(rows, union)
    ensures HasLiveCounts(family, live, rows, union) && UnionOf(family) == Interval(from, from + union)
  {
    var live0, live1, dead0, dead1 := Columns(rows, union, capacity);
    var dl := SplitExists(rows, union);
    var d := SharedCount(rows, union);
    family, live := FromColumns(rows, union, from, live0, live1, dead0, dead1, d, dl);
  }

  /** A live half, and past it the other half. */
  lemma FromColumns(rows: seq<Measures>, union: nat, from: int, live0: seq<nat>, live1: seq<nat>,
                    dead0: seq<nat>, dead1: seq<nat>, d: nat, dl: nat) returns (family: seq<set<int>>, live: set<int>)
    requires AllColumns(rows, live0, live1, dead0, dead1) && SplitFits(live0, dead0, d, dl)
    requires Sum(live1) >= 0 && Sum(dead1) >= 0 && d + Sum(live1) + Sum(dead1) == union
    ensures HasLiveCounts(family, live, rows, union) && UnionOf(family) == Interval(from, from + union)
  {
    var mid, to := from + dl + Sum(live1), from + union;
    var left, right := Halves(from, live0, live1, dead0, dead1, d, dl, mid, to);
    SideBySide(left, right, rows, union, from, mid, to, live0, live1, dead0, dead1);
    family, live := Join(left, right), Interval(from, mid);
  }

  /**
   * Exactness: accepted rows have a family of snapshots and a live set behind their referenced, live,
   * absent, shared and unique counts and their union if and only if the missing test holds.
   */
  lemma LiveTestIsExact(rows: seq<Measures>, union: nat, capacity: nat)
    requires KindAccepted(rows, union, capacity)
    ensures LiveFits(rows, union) <==> exists family, live :: HasLiveCounts(family, live, rows, union)
  {
    if LiveFits(rows, union) {
      var family, live := LiveWitness(rows, union, capacity, 0);
    }
    if family, live :| HasLiveCounts(family, live, rows, union) {
      SplitOfFamily(family, live, rows, union);
      SplitNeeded(rows, union, |SharedBlocks(family) * live|);
    }
  }

  /** Block sets behind a whole report: metadata inside a catalog of that size, payload outside it, all on the device. */
  ghost predicate SetsBehind(rows: seq<SnapshotRow>, metadata: nat, payload: nat, catalog: nat, capacity: nat,
                             area: set<int>, ms: seq<set<int>>, liveMs: set<int>, ps: seq<set<int>>, livePs: set<int>) {
    && HasLiveCounts(ms, liveMs, Kind(rows, true), metadata) && HasLiveCounts(ps, livePs, Kind(rows, false), payload)
    && |area| == catalog && UnionOf(ms) <= area && area !! UnionOf(ps)
    && area + UnionOf(ps) <= Interval(0, capacity)
  }

  lemma SetsForReport(rows: seq<SnapshotRow>, metadata: nat, payload: nat, catalog: nat, capacity: nat)
    returns (area: set<int>, ms: seq<set<int>>, liveMs: set<int>, ps: seq<set<int>>, livePs: set<int>)
    requires InventoryAccepted(rows, metadata, payload, catalog, capacity)
    requires LiveFits(Kind(rows, true), metadata) && LiveFits(Kind(rows, false), payload)
    ensures SetsBehind(rows, metadata, payload, catalog, capacity, area, ms, liveMs, ps, livePs)
  {
    area := Interval(0, catalog);
    ms, liveMs := LiveWitness(Kind(rows, true), metadata, capacity, 0);
    ps, livePs := LiveWitness(Kind(rows, false), payload, capacity, catalog);
    Apart(metadata, payload, catalog, capacity);
  }

  lemma Apart(metadata: nat, payload: nat, catalog: nat, capacity: nat)
    requires metadata <= catalog && catalog + payload <= capacity
    ensures Interval(0, metadata) <= Interval(0, catalog) && |Interval(0, catalog)| == catalog
    ensures Interval(0, catalog) !! Interval(catalog, catalog + payload)
    ensures Interval(0, catalog) + Interval(catalog, catalog + payload) <= Interval(0, capacity)
  {
    IntervalSize(0, catalog);
  }

  /** The same for a whole accepted report: it has block sets behind it if and only if both kinds pass the missing test. */
  lemma ReportTestIsExact(rows: seq<SnapshotRow>, metadata: nat, payload: nat, catalog: nat, capacity: nat)
    requires InventoryAccepted(rows, metadata, payload, catalog, capacity)
    ensures LiveFits(Kind(rows, true), metadata) && LiveFits(Kind(rows, false), payload) <==>
      exists area, ms, liveMs, ps, livePs ::
        SetsBehind(rows, metadata, payload, catalog, capacity, area, ms, liveMs, ps, livePs)
  {
    if LiveFits(Kind(rows, true), metadata) && LiveFits(Kind(rows, false), payload) {
      var area, ms, liveMs, ps, livePs := SetsForReport(rows, metadata, payload, catalog, capacity);
    }
    if area, ms, liveMs, ps, livePs :| SetsBehind(rows, metadata, payload, catalog, capacity, area, ms, liveMs, ps, livePs) {
      LiveTestIsExact(Kind(rows, true), metadata, capacity);
      LiveTestIsExact(Kind(rows, false), payload, capacity);
    }
  }

  // ---- A report that the code accepts and no block sets have ----

  /** One block, shared with another snapshot, of which `live` are live; nothing unique or protected. */
  ghost predicate OneShared(m: Measures, live: nat) {
    && m.referenced == m.sharedWithOthers == 1 && m.sharedWithLive == live <= 1 && m.absentFromLive == 1 - live
    && m.unique == m.protectedBlocks == m.candidate == 0
  }

  ghost predicate Nothing(m: Measures) {
    && m.referenced == m.sharedWithLive == m.absentFromLive == m.sharedWithOthers == 0
    && m.unique == m.protectedBlocks == m.candidate == 0
  }

  /** Two snapshots share one metadata block; one says it is live, the other that it is not. */
  ghost predicate Contradictory(rows: seq<Measures>) {
    |rows| == 2 && OneShared(rows[0], 1) && OneShared(rows[1], 0)
  }

  lemma LargestOfTwo(x: nat, y: nat)
    ensures Largest([x, y]) == if x < y then y else x
  {
    var s: seq<int> := [x, y];
    assert s[..1][..0] == [];
    assert Largest(s[..1]) == x;
  }

  lemma KindFromSums(rows: seq<Measures>, union: nat, capacity: nat)
    requires |rows| == 2 && RowAccepted(rows[0], union, capacity) && RowAccepted(rows[1], union, capacity)
    requires rows[0].referenced == rows[0].sharedWithOthers == union && rows[1].referenced == rows[1].sharedWithOthers == union
    ensures KindAccepted(rows, union, capacity)
  {
    assert Referenced(rows) == Shared(rows) == [union, union] && Exclusive(rows) == [0, 0];
    SumOfTwo(union, union);
    SumOfTwo(0, 0);
  }

  lemma UnevenTwo(x: nat, y: nat)
    requires y < x
    ensures 2 * Largest([x, y]) > Sum([x, y])
  {
    LargestOfTwo(x, y);
    SumOfTwo(x, y);
  }

  lemma TooFewLive(rows: seq<Measures>, union: nat)
    requires 2 * Largest(SharedLive(rows)) > Sum(SharedLive(rows))
    ensures !LiveFits(rows, union)
  {
  }

  lemma ContradictionParts(rows: seq<Measures>) returns (x: nat, y: nat)
    requires Contradictory(rows)
    ensures |rows| == 2 && rows[0].sharedWithLive - AloneLive(rows[0]) == x && rows[1].sharedWithLive - AloneLive(rows[1]) == y < x
  {
    x, y := 1, 0;
  }

  lemma LiveOfTwo(rows: seq<Measures>, x: int, y: int)
    requires |rows| == 2 && rows[0].sharedWithLive - AloneLive(rows[0]) == x && rows[1].sharedWithLive - AloneLive(rows[1]) == y
    ensures SharedLive(rows) == [x, y]
  {
    var live := SharedLive(rows);
    assert |live| == 2 && live[0] == x && live[1] == y;
  }

  lemma KindsMakeReport(rows: seq<SnapshotRow>)
    requires KindAccepted(Kind(rows, true), 1, 1) && KindAccepted(Kind(rows, false), 0, 1)
    requires |rows| == 2 && rows[0].metadata.referenced > 0 && rows[1].metadata.referenced > 0
    ensures InventoryAccepted(rows, 1, 0, 1, 1)
  {
  }

  lemma KindsOfTwo(rows: seq<SnapshotRow>)
    requires |rows| == 2
    ensures Kind(rows, true) == [rows[0].metadata, rows[1].metadata] && Kind(rows, false) == [rows[0].payload, rows[1].payload]
  {
  }

  lemma MetadataPasses(rows: seq<Measures>)
    requires Contradictory(rows)
    ensures KindAccepted(rows, 1, 1) && rows[0].referenced == rows[1].referenced == 1
  {
    KindFromSums(rows, 1, 1);
  }

  lemma NothingPasses(rows: seq<Measures>)
    requires |rows| == 2 && Nothing(rows[0]) && Nothing(rows[1])
    ensures KindAccepted(rows, 0, 1)
  {
    KindFromSums(rows, 0, 1);
  }

  lemma ReportPasses(rows: seq<SnapshotRow>)
    requires |rows| == 2 && Contradictory(Kind(rows, true)) && Nothing(rows[0].payload) && Nothing(rows[1].payload)
    ensures InventoryAccepted(rows, 1, 0, 1, 1)
  {
    KindsOfTwo(rows);
    var ms, ps := Kind(rows, true), Kind(rows, false);
    assert ms[0] == rows[0].metadata && ms[1] == rows[1].metadata;
    MetadataPasses(ms);
    NothingPasses(ps);
    KindsMakeReport(rows);
  }

  lemma NoSets(rows: seq<Measures>, union: nat, capacity: nat)
    requires KindAccepted(rows, union, capacity) && !LiveFits(rows, union)
    ensures forall family, live :: !HasLiveCounts(family, live, rows, union)
  {
    LiveTestIsExact(rows, union, capacity);
  }

  /** Two rows of which one has more live shared blocks than the other have no sets: it would share them with nobody. */
  lemma UnevenHasNoSets(rows: seq<Measures>, union: nat, capacity: nat, x: nat, y: nat)
    requires KindAccepted(rows, union, capacity) && |rows| == 2 && y < x
    requires rows[0].sharedWithLive - AloneLive(rows[0]) == x && rows[1].sharedWithLive - AloneLive(rows[1]) == y
    ensures forall family, live :: !HasLiveCounts(family, live, rows, union)
  {
    LiveOfTwo(rows, x, y);
    UnevenTwo(x, y);
    TooFewLive(rows, union);
    NoSets(rows, union, capacity);
  }

  lemma ContradictionHasNoSets(rows: seq<Measures>, union: nat, capacity: nat)
    requires Contradictory(rows) && KindAccepted(rows, union, capacity)
    ensures forall family, live :: !HasLiveCounts(family, live, rows, union)
  {
    var x, y := ContradictionParts(rows);
    UnevenHasNoSets(rows, union, capacity, x, y);
  }

  /** The tests do not compare live overlaps across rows: this whole report passes although no block sets have its counts. */
  lemma LiveOverlapsAreNotCompared(rows: seq<SnapshotRow>)
    requires |rows| == 2 && Contradictory(Kind(rows, true)) && Nothing(rows[0].payload) && Nothing(rows[1].payload)
    ensures InventoryAccepted(rows, 1, 0, 1, 1)
    ensures forall family, live :: !HasLiveCounts(family, live, Kind(rows, true), 1)
  {
    ReportPasses(rows);
    ContradictionHasNoSets(Kind(rows, true), 1, 1);
  }
}
