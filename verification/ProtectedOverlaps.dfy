/** All seven counts of every row at once: when accepted rows have block sets, a live set and one protected set behind them. */
module ProtectedOverlaps {
  import opened Prelude
  import opened BlockRanges
  import opened SnapshotFamilies
  import opened SnapshotAttribution
  import opened AttributionExactness
  import opened BlockPlacing
  import opened LiveOverlaps

  /** A family, a live set and a protected set have exactly these rows and this union. */
  ghost predicate HasAllCounts(family: seq<set<int>>, live: set<int>, kept: set<int>, rows: seq<Measures>, union: nat) {
    |family| == |rows| && |UnionOf(family)| == union && forall i :: 0 <= i < |rows| ==> HasRow(family, live, kept, i, rows[i])
  }

  ghost predicate HasRow(family: seq<set<int>>, live: set<int>, kept: set<int>, i: int, m: Measures)
    requires 0 <= i < |family|
  {
    m == MeasuresOf(family[i], live, Others(family, i), kept)
  }

  /** The protected blocks of a row that are not its alone: the live view or another snapshot holds them too. */
  ghost function KeptElsewhere(m: Measures): int {
    m.protectedBlocks - (m.unique - m.candidate)
  }

  /**
   * How the shared blocks are split into live and dead, protected and open: the size of each of the four
   * parts, and for every row how many of its shared live and of its shared dead blocks are protected.
   */
  datatype Split = Split(live: seq<nat>, dead: seq<nat>, liveKept: nat, liveOpen: nat, deadKept: nat, deadOpen: nat)

  ghost function Rest(whole: seq<int>, part: seq<nat>): seq<int>
    requires |whole| == |part|
  {
    seq(|whole|, i requires 0 <= i < |whole| => whole[i] - part[i])
  }

  /** Counts that can be laid around d blocks so that each block is counted at least twice. */
  ghost predicate Wraps(counts: seq<int>, d: nat) {
    (forall i :: 0 <= i < |counts| ==> 0 <= counts[i] <= d) && Sum(counts) >= 2 * d
  }

  ghost predicate PartsWrap(rows: seq<Measures>, s: Split)
    requires |s.live| == |s.dead| == |rows|
  {
    && Wraps(s.live, s.liveKept) && Wraps(Rest(SharedLive(rows), s.live), s.liveOpen)
    && Wraps(s.dead, s.deadKept) && Wraps(Rest(SharedDead(rows), s.dead), s.deadOpen)
  }

  /** What a row's split leaves protected among its own live blocks. */
  ghost function AloneKept(rows: seq<Measures>, s: Split, i: int): int
    requires |s.live| == |s.dead| == |rows| && 0 <= i < |rows|
  {
    KeptElsewhere(rows[i]) - s.live[i] - s.dead[i]
  }

  /** A split of the numbers alone. */
  ghost predicate SplitsRows(rows: seq<Measures>, union: nat, s: Split) {
    && |s.live| == |s.dead| == |rows| && PartsWrap(rows, s)
    && s.liveKept + s.liveOpen + s.deadKept + s.deadOpen == SharedCount(rows, union)
    && forall i :: 0 <= i < |rows| ==> 0 <= AloneKept(rows, s, i) <= AloneLive(rows[i])
  }

  // ---- Sets behind all the counts give a split ----

  ghost function SizesIn(family: seq<set<int>>, part: set<int>): seq<nat> {
    seq(|family|, i requires 0 <= i < |family| => |family[i] * part|)
  }

  ghost function SplitOf(family: seq<set<int>>, live: set<int>, kept: set<int>): Split {
    var shared := SharedBlocks(family);
    Split(SizesIn(family, shared * live * kept), SizesIn(family, (shared - live) * kept),
          |shared * live * kept|, |shared * live - kept|, |(shared - live) * kept|, |shared - live - kept|)
  }

  lemma PartWraps(family: seq<set<int>>, part: set<int>, counts: seq<int>)
    requires part <= SharedBlocks(family) && |counts| == |family|
    requires forall i :: 0 <= i < |family| ==> counts[i] == |family[i] * part|
    ensures Wraps(counts, |part|)
  {
    forall i | 0 <= i < |counts| ensures 0 <= counts[i] <= |part| {
      SubsetSize(family[i] * part, part);
    }
    CountedTwice(family, part);
    assert counts == Sizes(family, part);
  }

  lemma KeptPieces(refs: set<int>, part: set<int>, kept: set<int>)
    ensures |refs * part| == |refs * (part * kept)| + |refs * (part - kept)|
  {
    SplitSize(refs * part, kept);
    assert refs * part * kept == refs * (part * kept);
    assert refs * part - kept == refs * (part - kept);
  }

  /** The protected blocks of one member: shared live, shared dead, its own live, and its unique ones. */
  lemma KeptParts(refs: set<int>, shared: set<int>, live: set<int>, kept: set<int>)
    ensures |refs * kept| == |refs * (shared * live * kept)| + |refs * ((shared - live) * kept)|
      + |(refs - shared) * live * kept| + |(refs - (live + shared)) * kept|
  {
    SplitSize(refs * kept, shared);
    SplitSize(refs * kept * shared, live);
    assert refs * kept * shared * live == refs * (shared * live * kept);
    assert refs * kept * shared - live == refs * ((shared - live) * kept);
    SplitSize(refs * kept - shared, live);
    assert (refs * kept - shared) * live == (refs - shared) * live * kept;
    assert (refs * kept - shared) - live == (refs - (live + shared)) * kept;
  }

  lemma HasLiveRowToo(family: seq<set<int>>, live: set<int>, kept: set<int>, i: int, m: Measures)
    requires 0 <= i < |family| && HasRow(family, live, kept, i, m)
    ensures HasLiveRow(family, live, i, m)
  {
  }

  lemma RowKept(family: seq<set<int>>, live: set<int>, kept: set<int>, i: int, m: Measures)
    requires 0 <= i < |family| && HasRow(family, live, kept, i, m)
    ensures var shared := SharedBlocks(family);
      0 <= KeptElsewhere(m) - |family[i] * (shared * live * kept)| - |family[i] * ((shared - live) * kept)| <= AloneLive(m)
  {
    var refs, shared, others := family[i], SharedBlocks(family), Others(family, i);
    SharedPart(family, i);
    SameInside(refs, shared, others, live);
    KeptParts(refs, shared, live, kept);
    AlonePieces(refs, shared, live);
    SubsetSize((refs - shared) * live * kept, (refs - shared) * live);
    SplitSize(refs - (live + others), kept);
  }

  lemma RowShares(family: seq<set<int>>, live: set<int>, kept: set<int>, i: int, m: Measures)
    requires 0 <= i < |family| && HasRow(family, live, kept, i, m)
    ensures var shared := SharedBlocks(family); var q := m.sharedWithLive - AloneLive(m);
      && |family[i] * (shared * live * kept)| + |family[i] * (shared * live - kept)| == q
      && |family[i] * ((shared - live) * kept)| + |family[i] * (shared - live - kept)| == m.sharedWithOthers - q
  {
    HasLiveRowToo(family, live, kept, i, m);
    RowParts(family, live, i, m);
    KeptPieces(family[i], SharedBlocks(family) * live, kept);
    KeptPieces(family[i], SharedBlocks(family) - live, kept);
  }

  lemma FourParts(shared: set<int>, live: set<int>, kept: set<int>)
    ensures |shared * live * kept| + |shared * live - kept| + |(shared - live) * kept| + |shared - live - kept| == |shared|
  {
    SplitSize(shared, live);
    SplitSize(shared * live, kept);
    SplitSize(shared - live, kept);
  }

  lemma LiveCountsToo(family: seq<set<int>>, live: set<int>, kept: set<int>, rows: seq<Measures>, union: nat)
    requires HasAllCounts(family, live, kept, rows, union)
    ensures HasLiveCounts(family, live, rows, union)
  {
    forall i | 0 <= i < |rows| ensures HasLiveRow(family, live, i, rows[i]) {
      HasLiveRowToo(family, live, kept, i, rows[i]);
    }
  }

  lemma RestsOfFamily(family: seq<set<int>>, live: set<int>, kept: set<int>, rows: seq<Measures>, union: nat)
    requires HasAllCounts(family, live, kept, rows, union)
    ensures var shared, s := SharedBlocks(family), SplitOf(family, live, kept);
      forall i :: 0 <= i < |rows| ==>
        && Rest(SharedLive(rows), s.live)[i] == |family[i] * (shared * live - kept)|
        && Rest(SharedDead(rows), s.dead)[i] == |family[i] * (shared - live - kept)|
  {
    forall i | 0 <= i < |rows|
      ensures var shared, s := SharedBlocks(family), SplitOf(family, live, kept);
        && Rest(SharedLive(rows), s.live)[i] == |family[i] * (shared * live - kept)|
        && Rest(SharedDead(rows), s.dead)[i] == |family[i] * (shared - live - kept)|
    {
      RowShares(family, live, kept, i, rows[i]);
    }
  }

  lemma PartsOfFamily(family: seq<set<int>>, live: set<int>, kept: set<int>, rows: seq<Measures>)
    requires |rows| == |family|
    requires var shared, s := SharedBlocks(family), SplitOf(family, live, kept);
      forall i :: 0 <= i < |rows| ==>
        && Rest(SharedLive(rows), s.live)[i] == |family[i] * (shared * live - kept)|
        && Rest(SharedDead(rows), s.dead)[i] == |family[i] * (shared - live - kept)|
    ensures PartsWrap(rows, SplitOf(family, live, kept))
  {
    var shared, s := SharedBlocks(family), SplitOf(family, live, kept);
    PartWraps(family, shared * live * kept, s.live);
    PartWraps(family, shared * live - kept, Rest(SharedLive(rows), s.live));
    PartWraps(family, (shared - live) * kept, s.dead);
    PartWraps(family, shared - live - kept, Rest(SharedDead(rows), s.dead));
  }

  /** Block sets behind all the counts split them. */
  lemma FamilySplits(family: seq<set<int>>, live: set<int>, kept: set<int>, rows: seq<Measures>, union: nat)
    requires HasAllCounts(family, live, kept, rows, union)
    ensures SplitsRows(rows, union, SplitOf(family, live, kept))
  {
    RestsOfFamily(family, live, kept, rows, union);
    PartsOfFamily(family, live, kept, rows);
    LiveCountsToo(family, live, kept, rows, union);
    SharedCountOf(family, live, rows, union);
    FourParts(SharedBlocks(family), live, kept);
    forall i | 0 <= i < |rows| ensures 0 <= AloneKept(rows, SplitOf(family, live, kept), i) <= AloneLive(rows[i]) {
      RowKept(family, live, kept, i, rows[i]);
    }
  }

  // ---- A split gives sets: four halves side by side ----

  ghost function Added(a: seq<nat>, b: seq<nat>): seq<nat>
    requires |a| == |b|
  {
    seq(|a|, i requires 0 <= i < |a| => a[i] + b[i])
  }

  /** Two families apart from each other add up. */
  lemma JoinFits(left: seq<set<int>>, right: seq<set<int>>, s: seq<nat>, a: seq<nat>, t: seq<nat>, b: seq<nat>)
    requires HalfFits(left, s, a) && HalfFits(right, t, b) && |left| == |right| && UnionOf(left) !! UnionOf(right)
    ensures HalfFits(Join(left, right), Added(s, t), Added(a, b))
  {
    var family := Join(left, right);
    forall i | 0 <= i < |family| ensures HalfRow(family, i, Added(s, t)[i], Added(a, b)[i]) {
      var others, mine, theirs := Others(family, i), Others(left, i), Others(right, i);
      MemberInUnion(left, i);
      MemberInUnion(right, i);
      OthersInside(left, i);
      OthersInside(right, i);
      JoinOthers(left, right, i);
      JoinedParts(left[i], right[i], mine, theirs, UnionOf(left));
    }
  }

  /** Members and others of four families apart from each other, as one row sees them. */
  lemma FourRow(a: set<int>, b: set<int>, c: set<int>, d: set<int>, live: set<int>, kept: set<int>,
                others: set<int>, oc: set<int>, od: set<int>)
    requires a <= live && b <= live && live !! c && live !! d
    requires a <= kept && kept !! b && c <= kept && kept !! d
    requires c * others == oc && d * others == od && oc <= c && od <= d && c !! d && a !! c
    ensures |(a + b + (c + d)) * kept| == |a| + |c|
    ensures |(a + b + (c + d)) - (live + others) - kept| == |d| - |od|
  {
    assert (a + b + (c + d)) * kept == a + c;
    DisjointSize(a, c);
    assert (a + b + (c + d)) - (live + others) - kept == d - od;
    SplitSize(d, od);
    assert d * od == od;
  }

  /** The four families: live and protected, live and open, dead and protected, dead and open. */
  ghost predicate FourApart(lk: seq<set<int>>, lo: seq<set<int>>, dk: seq<set<int>>, dn: seq<set<int>>) {
    && |lk| == |lo| == |dk| == |dn|
    && UnionOf(lk) !! UnionOf(lo) && UnionOf(dk) !! UnionOf(dn)
    && UnionOf(lk) + UnionOf(lo) !! UnionOf(dk) + UnionOf(dn)
  }

  ghost function All(lk: seq<set<int>>, lo: seq<set<int>>, dk: seq<set<int>>, dn: seq<set<int>>): seq<set<int>>
    requires |lk| == |lo| == |dk| == |dn|
  {
    Join(Join(lk, lo), Join(dk, dn))
  }

  lemma OthersOfFour(lk: seq<set<int>>, lo: seq<set<int>>, dk: seq<set<int>>, dn: seq<set<int>>, i: nat)
    requires FourApart(lk, lo, dk, dn) && i < |lk|
    ensures dk[i] * Others(All(lk, lo, dk, dn), i) == dk[i] * Others(dk, i)
    ensures dn[i] * Others(All(lk, lo, dk, dn), i) == dn[i] * Others(dn, i)
  {
    JoinOthers(Join(lk, lo), Join(dk, dn), i);
    JoinOthers(lk, lo, i);
    JoinOthers(dk, dn, i);
    OthersInside(lk, i);
    OthersInside(lo, i);
    OthersInside(dk, i);
    OthersInside(dn, i);
    MemberInUnion(dk, i);
    MemberInUnion(dn, i);
  }

  /** The protected and the reclaim count of a row of four joined families. */
  lemma FourKept(lk: seq<set<int>>, lo: seq<set<int>>, dk: seq<set<int>>, dn: seq<set<int>>, i: nat)
    requires FourApart(lk, lo, dk, dn) && i < |lk|
    ensures var family, live, kept := All(lk, lo, dk, dn), UnionOf(lk) + UnionOf(lo), UnionOf(lk) + UnionOf(dk);
      && |family[i] * kept| == |lk[i]| + |dk[i]|
      && |family[i] - (live + Others(family, i)) - kept| == |dn[i]| - |dn[i] * Others(dn, i)|
  {
    var family := All(lk, lo, dk, dn);
    OthersOfFour(lk, lo, dk, dn, i);
    MemberInUnion(lk, i);
    MemberInUnion(lo, i);
    MemberInUnion(dk, i);
    MemberInUnion(dn, i);
    FourRow(lk[i], lo[i], dk[i], dn[i], UnionOf(lk) + UnionOf(lo), UnionOf(lk) + UnionOf(dk), Others(family, i),
            dk[i] * Others(dk, i), dn[i] * Others(dn, i));
  }

  /** The counts of one part: what each row shares there, what it holds there alone, and the shared blocks. */
  datatype Column = Column(shared: seq<nat>, alone: seq<nat>, d: nat)

  datatype Columns = Columns(lk: Column, lo: Column, dk: Column, dn: Column)

  ghost predicate ColumnFits(c: Column, n: nat) {
    |c.shared| == |c.alone| == n && SharedFit(c.shared, c.d)
  }

  ghost function ColumnSize(c: Column): int {
    c.d + Sum(c.alone)
  }

  ghost function ColumnsSize(c: Columns): int {
    ColumnSize(c.lk) + ColumnSize(c.lo) + ColumnSize(c.dk) + ColumnSize(c.dn)
  }

  ghost predicate ColumnsFit(c: Columns, n: nat) {
    ColumnFits(c.lk, n) && ColumnFits(c.lo, n) && ColumnFits(c.dk, n) && ColumnFits(c.dn, n)
  }

  /** Row i's seven counts are made of its four parts. */
  ghost predicate RowOfColumns(m: Measures, c: Columns, i: int)
    requires ColumnsFit(c, |c.lk.shared|) && 0 <= i < |c.lk.shared|
  {
    && c.lk.shared[i] + c.lk.alone[i] + c.lo.shared[i] + c.lo.alone[i] == m.sharedWithLive
    && c.dk.shared[i] + c.dk.alone[i] + c.dn.shared[i] + c.dn.alone[i] == m.absentFromLive == m.referenced - m.sharedWithLive
    && c.lk.shared[i] + c.lo.shared[i] + c.dk.shared[i] + c.dn.shared[i] == m.sharedWithOthers
    && c.dk.alone[i] + c.dn.alone[i] == m.unique && c.dn.alone[i] == m.candidate
    && c.lk.shared[i] + c.lk.alone[i] + c.dk.shared[i] + c.dk.alone[i] == m.protectedBlocks
  }

  ghost predicate ColumnsMake(rows: seq<Measures>, c: Columns) {
    ColumnsFit(c, |rows|) && forall i :: 0 <= i < |rows| ==> RowOfColumns(rows[i], c, i)
  }

  lemma PartFrom(from: int, c: Column, n: nat) returns (family: seq<set<int>>, to: int)
    requires ColumnFits(c, n)
    ensures HalfFits(family, c.shared, c.alone) && |family| == n
    ensures from <= to == from + ColumnSize(c) && UnionOf(family) == Interval(from, to)
  {
    SumNonnegative(c.alone);
    to := from + ColumnSize(c);
    family := HalfFrom(from, c.shared, c.alone, c.d, to - from);
  }

  /** Four families, one behind the other. */
  lemma FourFamilies(c: Columns, n: nat, from: int)
    returns (lk: seq<set<int>>, lo: seq<set<int>>, dk: seq<set<int>>, dn: seq<set<int>>)
    requires ColumnsFit(c, n)
    ensures |lk| == n && FourApart(lk, lo, dk, dn) && FourFit(c, lk, lo, dk, dn)
    ensures ColumnsSize(c) >= 0 && UnionOf(All(lk, lo, dk, dn)) == Interval(from, from + ColumnsSize(c))
  {
    var p1, p2, p3, p4: int;
    lk, p1 := PartFrom(from, c.lk, n);
    lo, p2 := PartFrom(p1, c.lo, n);
    dk, p3 := PartFrom(p2, c.dk, n);
    dn, p4 := PartFrom(p3, c.dn, n);
    InARow(lk, lo, dk, dn, from, p1, p2, p3, p4);
  }

  lemma InARow(lk: seq<set<int>>, lo: seq<set<int>>, dk: seq<set<int>>, dn: seq<set<int>>,
               from: int, p1: int, p2: int, p3: int, p4: int)
    requires |lk| == |lo| == |dk| == |dn| && from <= p1 <= p2 <= p3 <= p4
    requires UnionOf(lk) == Interval(from, p1) && UnionOf(lo) == Interval(p1, p2)
    requires UnionOf(dk) == Interval(p2, p3) && UnionOf(dn) == Interval(p3, p4)
    ensures FourApart(lk, lo, dk, dn) && UnionOf(All(lk, lo, dk, dn)) == Interval(from, p4)
  {
    Adjacent(from, p1, p2);
    Adjacent(p2, p3, p4);
    Adjacent(from, p2, p4);
    JoinUnion(lk, lo);
    JoinUnion(dk, dn);
    JoinUnion(Join(lk, lo), Join(dk, dn));
  }

  ghost predicate FourFit(c: Columns, lk: seq<set<int>>, lo: seq<set<int>>, dk: seq<set<int>>, dn: seq<set<int>>) {
    && HalfFits(lk, c.lk.shared, c.lk.alone) && HalfFits(lo, c.lo.shared, c.lo.alone)
    && HalfFits(dk, c.dk.shared, c.dk.alone) && HalfFits(dn, c.dn.shared, c.dn.alone)
  }

  lemma FourLive(c: Columns, rows: seq<Measures>, union: nat,
                 lk: seq<set<int>>, lo: seq<set<int>>, dk: seq<set<int>>, dn: seq<set<int>>)
    requires ColumnsMake(rows, c) && |lk| == |rows| && FourApart(lk, lo, dk, dn) && FourFit(c, lk, lo, dk, dn)
    requires |UnionOf(All(lk, lo, dk, dn))| == union
    ensures HasLiveCounts(All(lk, lo, dk, dn), UnionOf(lk) + UnionOf(lo), rows, union)
  {
    JoinFits(lk, lo, c.lk.shared, c.lk.alone, c.lo.shared, c.lo.alone);
    JoinFits(dk, dn, c.dk.shared, c.dk.alone, c.dn.shared, c.dn.alone);
    var live0, live1 := Added(c.lk.shared, c.lo.shared), Added(c.lk.alone, c.lo.alone);
    var dead0, dead1 := Added(c.dk.shared, c.dn.shared), Added(c.dk.alone, c.dn.alone);
    forall i | 0 <= i < |rows| ensures RowColumnsAre(rows, live0, live1, dead0, dead1, i) {
      assert RowOfColumns(rows[i], c, i);
    }
    JoinUnion(lk, lo);
    JoinUnion(dk, dn);
    JoinUnion(Join(lk, lo), Join(dk, dn));
    DisjointSize(UnionOf(Join(lk, lo)), UnionOf(Join(dk, dn)));
    HalvesMakeRows(Join(lk, lo), Join(dk, dn), UnionOf(lk) + UnionOf(lo), rows, union, live0, live1, dead0, dead1);
  }

  lemma FourCounts(c: Columns, rows: seq<Measures>, union: nat,
                   lk: seq<set<int>>, lo: seq<set<int>>, dk: seq<set<int>>, dn: seq<set<int>>)
    requires ColumnsMake(rows, c) && |lk| == |rows| && FourApart(lk, lo, dk, dn) && FourFit(c, lk, lo, dk, dn)
    requires |UnionOf(All(lk, lo, dk, dn))| == union
    ensures HasAllCounts(All(lk, lo, dk, dn), UnionOf(lk) + UnionOf(lo), UnionOf(lk) + UnionOf(dk), rows, union)
  {
    var family, live, kept := All(lk, lo, dk, dn), UnionOf(lk) + UnionOf(lo), UnionOf(lk) + UnionOf(dk);
    FourLive(c, rows, union, lk, lo, dk, dn);
    forall i | 0 <= i < |rows| ensures HasRow(family, live, kept, i, rows[i]) {
      assert RowOfColumns(rows[i], c, i) && HasLiveRow(family, live, i, rows[i]);
      FourKept(lk, lo, dk, dn, i);
      PartRow(lk, c.lk, i);
      PartRow(dk, c.dk, i);
      PartRow(dn, c.dn, i);
    }
  }

  lemma PartRow(family: seq<set<int>>, c: Column, i: nat)
    requires HalfFits(family, c.shared, c.alone) && i < |family|
    ensures |family[i]| == c.shared[i] + c.alone[i] && |family[i] * Others(family, i)| == c.shared[i]
  {
    var others := Others(family, i);
  }

  /** The columns that a split of accepted rows makes. */
  lemma ColumnsOfSplit(rows: seq<Measures>, union: nat, capacity: nat, s: Split) returns (c: Columns)
    requires KindAccepted(rows, union, capacity) && SplitsRows(rows, union, s)
    ensures ColumnsMake(rows, c)
    ensures ColumnsSize(c) == union
  {
    var n := |rows|;
    var lo := Naturals(Rest(SharedLive(rows), s.live));
    var dn := Naturals(Rest(SharedDead(rows), s.dead));
    forall i | 0 <= i < n ensures rows[i].candidate <= rows[i].unique {
      assert RowAccepted(rows[i], union, capacity);
    }
    var alone: seq<nat> := seq(n, i requires 0 <= i < n => AloneKept(rows, s, i));
    var aloneOpen: seq<nat> := seq(n, i requires 0 <= i < n => AloneLive(rows[i]) - AloneKept(rows, s, i));
    var unique: seq<nat> := seq(n, i requires 0 <= i < n => rows[i].unique - rows[i].candidate);
    var candidate: seq<nat> := seq(n, i requires 0 <= i < n => rows[i].candidate);
    c := Columns(Column(s.live, alone, s.liveKept), Column(lo, aloneOpen, s.liveOpen),
                 Column(s.dead, unique, s.deadKept), Column(dn, candidate, s.deadOpen));
    forall i | 0 <= i < n ensures RowOfColumns(rows[i], c, i) {
      RowColumns(rows[i], union, capacity);
    }
    SumOfFour(Exclusive(rows), alone, aloneOpen, unique, candidate);
  }

  ghost function Naturals(counts: seq<int>): (naturals: seq<nat>)
    requires forall i :: 0 <= i < |counts| ==> counts[i] >= 0
    ensures naturals == counts
  {
    seq(|counts|, i requires 0 <= i < |counts| => counts[i])
  }

  lemma {:induction false} SumOfFour(e: seq<int>, a: seq<nat>, b: seq<nat>, c: seq<nat>, d: seq<nat>)
    requires |e| == |a| == |b| == |c| == |d| && forall i :: 0 <= i < |e| ==> e[i] == a[i] + b[i] + c[i] + d[i]
    ensures Sum(e) == Sum(a) + Sum(b) + Sum(c) + Sum(d)
  {
    if e != [] {
      var n := |e| - 1;
      SumOfFour(e[..n], a[..n], b[..n], c[..n], d[..n]);
    }
  }

  /** A split of accepted rows has block sets, from any block on; the protected set lies inside them. */
  lemma SplitWitness(rows: seq<Measures>, union: nat, capacity: nat, s: Split, from: int)
    returns (family: seq<set<int>>, live: set<int>, kept: set<int>)
    requires KindAccepted(rows, union, capacity) && SplitsRows(rows, union, s)
    ensures HasAllCounts(family, live, kept, rows, union)
    ensures UnionOf(family) == Interval(from, from + union) && kept <= UnionOf(family)
  {
    var c := ColumnsOfSplit(rows, union, capacity, s);
    family, live, kept := ColumnsWitness(rows, union, c, from);
  }

  lemma ColumnsWitness(rows: seq<Measures>, union: nat, c: Columns, from: int)
    returns (family: seq<set<int>>, live: set<int>, kept: set<int>)
    requires ColumnsMake(rows, c) && ColumnsSize(c) == union
    ensures HasAllCounts(family, live, kept, rows, union)
    ensures UnionOf(family) == Interval(from, from + union) && kept <= UnionOf(family)
  {
    var lk, lo, dk, dn := FourFamilies(c, |rows|, from);
    IntervalSize(from, from + union);
    FourCounts(c, rows, union, lk, lo, dk, dn);
    UnionsOfFour(lk, lo, dk, dn);
    family, live, kept := All(lk, lo, dk, dn), UnionOf(lk) + UnionOf(lo), UnionOf(lk) + UnionOf(dk);
  }

  lemma UnionsOfFour(lk: seq<set<int>>, lo: seq<set<int>>, dk: seq<set<int>>, dn: seq<set<int>>)
    requires |lk| == |lo| == |dk| == |dn|
    ensures UnionOf(lk) + UnionOf(dk) <= UnionOf(All(lk, lo, dk, dn))
  {
    JoinUnion(lk, lo);
    JoinUnion(dk, dn);
    JoinUnion(Join(lk, lo), Join(dk, dn));
  }

  /**
   * Exactness for all seven columns together: accepted rows are the counts of a family, a live set and one
   * common protected set if and only if their numbers can be split.
   */
  lemma AllCountsAreExact(rows: seq<Measures>, union: nat, capacity: nat)
    requires KindAccepted(rows, union, capacity)
    ensures (exists s :: SplitsRows(rows, union, s)) <==>
      exists family, live, kept :: HasAllCounts(family, live, kept, rows, union)
  {
    if s :| SplitsRows(rows, union, s) {
      var family, live, kept := SplitWitness(rows, union, capacity, s, 0);
    }
    if family, live, kept :| HasAllCounts(family, live, kept, rows, union) {
      FamilySplits(family, live, kept, rows, union);
    }
  }

  // ---- A whole report ----

  /** Protected blocks outside a family change none of its counts. */
  lemma KeptOutside(family: seq<set<int>>, live: set<int>, kept: set<int>, more: set<int>, rows: seq<Measures>, union: nat)
    requires HasAllCounts(family, live, kept, rows, union) && more !! UnionOf(family)
    ensures HasAllCounts(family, live, kept + more, rows, union)
  {
    forall i | 0 <= i < |rows| ensures HasRow(family, live, kept + more, i, rows[i]) {
      MemberInUnion(family, i);
      assert HasRow(family, live, kept, i, rows[i]);
      KeptBeside(family[i], live, Others(family, i), kept, more);
    }
  }

  lemma KeptBeside(refs: set<int>, live: set<int>, others: set<int>, kept: set<int>, more: set<int>)
    requires more !! refs
    ensures MeasuresOf(refs, live, others, kept + more) == MeasuresOf(refs, live, others, kept)
  {
    assert refs * (kept + more) == refs * kept;
    assert refs - (live + others) - (kept + more) == refs - (live + others) - kept;
  }

  /** Block sets behind a whole report: one catalog, one protected set, and a family and a live set for each kind. */
  ghost predicate AllSetsBehind(rows: seq<SnapshotRow>, metadata: nat, payload: nat, catalog: nat, capacity: nat, area: set<int>,
                                ms: seq<set<int>>, liveMs: set<int>, ps: seq<set<int>>, livePs: set<int>, kept: set<int>) {
    && HasAllCounts(ms, liveMs, kept, Kind(rows, true), metadata) && HasAllCounts(ps, livePs, kept, Kind(rows, false), payload)
    && |area| == catalog && UnionOf(ms) <= area && area !! UnionOf(ps)
    && area + UnionOf(ps) <= Interval(0, capacity)
  }

  lemma AllSetsForReport(rows: seq<SnapshotRow>, metadata: nat, payload: nat, catalog: nat, capacity: nat, s: Split, t: Split)
    returns (area: set<int>, ms: seq<set<int>>, liveMs: set<int>, ps: seq<set<int>>, livePs: set<int>, kept: set<int>)
    requires InventoryAccepted(rows, metadata, payload, catalog, capacity)
    requires SplitsRows(Kind(rows, true), metadata, s) && SplitsRows(Kind(rows, false), payload, t)
    ensures AllSetsBehind(rows, metadata, payload, catalog, capacity, area, ms, liveMs, ps, livePs, kept)
  {
    var keptM, keptP;
    area := Interval(0, catalog);
    ms, liveMs, keptM := SplitWitness(Kind(rows, true), metadata, capacity, s, 0);
    ps, livePs, keptP := SplitWitness(Kind(rows, false), payload, capacity, t, catalog);
    Apart(metadata, payload, catalog, capacity);
    OneProtectedSet(ms, liveMs, keptM, Kind(rows, true), metadata, ps, livePs, keptP, Kind(rows, false), payload);
    kept := keptM + keptP;
  }

  /** Two families apart from each other can share one protected set. */
  lemma OneProtectedSet(ms: seq<set<int>>, liveMs: set<int>, keptM: set<int>, a: seq<Measures>, m: nat,
                        ps: seq<set<int>>, livePs: set<int>, keptP: set<int>, b: seq<Measures>, p: nat)
    requires HasAllCounts(ms, liveMs, keptM, a, m) && HasAllCounts(ps, livePs, keptP, b, p)
    requires keptM <= UnionOf(ms) && keptP <= UnionOf(ps) && UnionOf(ms) !! UnionOf(ps)
    ensures HasAllCounts(ms, liveMs, keptM + keptP, a, m) && HasAllCounts(ps, livePs, keptM + keptP, b, p)
  {
    KeptOutside(ms, liveMs, keptM, keptP, a, m);
    KeptOutside(ps, livePs, keptP, keptM, b, p);
    assert keptP + keptM == keptM + keptP;
  }

  /** The same for a whole accepted report with one protected set. */
  lemma ReportCountsAreExact(rows: seq<SnapshotRow>, metadata: nat, payload: nat, catalog: nat, capacity: nat)
    requires InventoryAccepted(rows, metadata, payload, catalog, capacity)
    ensures (exists s :: SplitsRows(Kind(rows, true), metadata, s)) && (exists t :: SplitsRows(Kind(rows, false), payload, t)) <==>
      exists area, ms, liveMs, ps, livePs, kept ::
        AllSetsBehind(rows, metadata, payload, catalog, capacity, area, ms, liveMs, ps, livePs, kept)
  {
    if (exists s :: SplitsRows(Kind(rows, true), metadata, s)) && (exists t :: SplitsRows(Kind(rows, false), payload, t)) {
      var s :| SplitsRows(Kind(rows, true), metadata, s);
      var t :| SplitsRows(Kind(rows, false), payload, t);
      var area, ms, liveMs, ps, livePs, kept := AllSetsForReport(rows, metadata, payload, catalog, capacity, s, t);
    }
    if area, ms, liveMs, ps, livePs, kept :|
      AllSetsBehind(rows, metadata, payload, catalog, capacity, area, ms, liveMs, ps, livePs, kept)
    {
      FamilySplits(ms, liveMs, kept, Kind(rows, true), metadata);
      FamilySplits(ps, livePs, kept, Kind(rows, false), payload);
    }
  }
}
