/** The split of the rows' numbers, decided: given the sizes of the four shared parts, no search over rows is left. */
module ProtectedTest {
  import opened Prelude
  import opened SnapshotFamilies
  import opened SnapshotAttribution
  import opened LiveOverlaps
  import opened ProtectedOverlaps

  // ---- Bounds on two numbers and their sum ----

  /** x from xl to xh, y from yl to yh, x + y from sl to sh. */
  datatype Bounds = Bounds(xl: int, xh: int, yl: int, yh: int, sl: int, sh: int)

  predicate Within(h: Bounds, x: int, y: int) {
    h.xl <= x <= h.xh && h.yl <= y <= h.yh && h.sl <= x + y <= h.sh
  }

  /** No two of the bounds contradict each other. */
  predicate Feasible(h: Bounds) {
    h.xl <= h.xh && h.yl <= h.yh && h.sl <= h.sh && h.xl + h.yl <= h.sh && h.sl <= h.xh + h.yh
  }

  /** Each bound is as sharp as the others make it. */
  predicate Tight(h: Bounds) {
    && Feasible(h)
    && h.xl + h.yl <= h.sl && h.sl <= h.xl + h.yh && h.sl <= h.xh + h.yl
    && h.sh <= h.xh + h.yh && h.xh + h.yl <= h.sh && h.xl + h.yh <= h.sh
  }

  function Tighten(h: Bounds): Bounds {
    Bounds(Max(h.xl, h.sl - h.yh), Min(h.xh, h.sh - h.yl), Max(h.yl, h.sl - h.xh), Min(h.yh, h.sh - h.xl),
           Max(h.sl, h.xl + h.yl), Min(h.sh, h.xh + h.yh))
  }

  lemma TightenKeeps(h: Bounds, x: int, y: int)
    ensures Within(h, x, y) <==> Within(Tighten(h), x, y)
  {
  }

  lemma TightenIsTight(h: Bounds)
    requires Feasible(h)
    ensures Tight(Tighten(h))
  {
  }

  /** Feasible bounds have a point. */
  lemma PointOf(h: Bounds) returns (x: int, y: int)
    requires Feasible(h)
    ensures Within(h, x, y)
  {
    x := Max(h.xl, h.sl - h.yh);
    y := Max(h.yl, h.sl - x);
  }

  function Plus(g: Bounds, h: Bounds): Bounds {
    Bounds(g.xl + h.xl, g.xh + h.xh, g.yl + h.yl, g.yh + h.yh, g.sl + h.sl, g.sh + h.sh)
  }

  const NONE := Bounds(0, 0, 0, 0, 0, 0)

  function Total(hs: seq<Bounds>): Bounds {
    if hs == [] then NONE else Plus(Total(hs[..|hs| - 1]), hs[|hs| - 1])
  }

  ghost predicate AllTight(hs: seq<Bounds>) {
    forall i :: 0 <= i < |hs| ==> Tight(hs[i])
  }

  lemma {:induction false} TotalIsTight(hs: seq<Bounds>)
    requires AllTight(hs)
    ensures Tight(Total(hs))
  {
    if hs != [] {
      TotalIsTight(hs[..|hs| - 1]);
    }
  }

  /** A point of the sum of two tight bounds is the sum of a point of each. */
  lemma Divide(g: Bounds, h: Bounds, x: int, y: int) returns (a: int, b: int)
    requires Tight(g) && Tight(h) && Within(Plus(g, h), x, y)
    ensures Within(h, a, b) && Within(g, x - a, y - b)
  {
    var both := Bounds(Max(h.xl, x - g.xh), Min(h.xh, x - g.xl), Max(h.yl, y - g.yh), Min(h.yh, y - g.yl),
                       Max(h.sl, x + y - g.sh), Min(h.sh, x + y - g.sl));
    a, b := PointOf(both);
  }

  ghost predicate AllWithin(hs: seq<Bounds>, xs: seq<int>, ys: seq<int>) {
    |xs| == |ys| == |hs| && forall i :: 0 <= i < |hs| ==> Within(hs[i], xs[i], ys[i])
  }

  /** A point within the totals can be spread over the rows. */
  lemma {:induction false} Spread(hs: seq<Bounds>, x: int, y: int) returns (xs: seq<int>, ys: seq<int>)
    requires AllTight(hs) && Within(Total(hs), x, y)
    ensures AllWithin(hs, xs, ys) && Sum(xs) == x && Sum(ys) == y
  {
    xs, ys := [], [];
    if hs != [] {
      var init, last := hs[..|hs| - 1], hs[|hs| - 1];
      TotalIsTight(init);
      var a, b := Divide(Total(init), last, x, y);
      xs, ys := Spread(init, x - a, y - b);
      SumInit(xs, a);
      SumInit(ys, b);
      xs, ys := xs + [a], ys + [b];
    }
  }

  /** And points of all rows add up to one within the totals. */
  lemma {:induction false} Collect(hs: seq<Bounds>, xs: seq<int>, ys: seq<int>)
    requires AllWithin(hs, xs, ys)
    ensures Within(Total(hs), Sum(xs), Sum(ys))
  {
    if hs != [] {
      var n := |hs| - 1;
      Collect(hs[..n], xs[..n], ys[..n]);
    }
  }

  // ---- The rows ----

  /** The sizes of the four parts of the shared blocks. */
  datatype Sizes4 = Sizes4(liveKept: nat, liveOpen: nat, deadKept: nat, deadOpen: nat)

  /** What the parts' sizes leave open for one row: its protected shared live and shared dead blocks, and their sum. */
  ghost function RowBounds(rows: seq<Measures>, p: Sizes4, i: int): Bounds
    requires 0 <= i < |rows|
  {
    var q, z, kept := SharedLive(rows)[i], SharedDead(rows)[i], KeptElsewhere(rows[i]);
    Bounds(Max(0, q - p.liveOpen), Min(q, p.liveKept), Max(0, z - p.deadOpen), Min(z, p.deadKept),
           kept - AloneLive(rows[i]), kept)
  }

  ghost function AllBounds(rows: seq<Measures>, p: Sizes4): seq<Bounds> {
    seq(|rows|, i requires 0 <= i < |rows| => Tighten(RowBounds(rows, p, i)))
  }

  /** What is left for the sums, when each part must be counted twice. */
  ghost function SumBounds(rows: seq<Measures>, p: Sizes4): Bounds {
    var t := Total(AllBounds(rows, p));
    Bounds(Max(t.xl, 2 * p.liveKept), Min(t.xh, Sum(SharedLive(rows)) - 2 * p.liveOpen),
           Max(t.yl, 2 * p.deadKept), Min(t.yh, Sum(SharedDead(rows)) - 2 * p.deadOpen), t.sl, t.sh)
  }

  /** The test for given sizes: every row's bounds and those of the sums are free of contradiction. */
  ghost predicate PartsFit(rows: seq<Measures>, p: Sizes4) {
    && (forall i :: 0 <= i < |rows| ==> Feasible(RowBounds(rows, p, i)))
    && Feasible(SumBounds(rows, p))
  }

  /** The whole test: some sizes that make up the shared blocks pass. */
  ghost predicate AllFits(rows: seq<Measures>, union: nat) {
    exists p :: PartsMakeUp(rows, union, p) && PartsFit(rows, p)
  }

  ghost predicate PartsMakeUp(rows: seq<Measures>, union: nat, p: Sizes4) {
    p.liveKept + p.liveOpen + p.deadKept + p.deadOpen == SharedCount(rows, union)
  }

  ghost function SplitWith(p: Sizes4, live: seq<nat>, dead: seq<nat>): Split {
    Split(live, dead, p.liveKept, p.liveOpen, p.deadKept, p.deadOpen)
  }

  lemma RestSum(whole: seq<int>, part: seq<nat>)
    requires |whole| == |part|
    ensures Sum(Rest(whole, part)) == Sum(whole) - Sum(part)
  {
    SumDifference(whole, part, Rest(whole, part));
  }

  /** For one row, a split is a point within its bounds. */
  lemma RowIsWithin(rows: seq<Measures>, s: Split, p: Sizes4, i: int)
    requires |s.live| == |s.dead| == |rows| && 0 <= i < |rows| && s == SplitWith(p, s.live, s.dead)
    ensures Within(RowBounds(rows, p, i), s.live[i], s.dead[i]) <==>
      && s.live[i] <= p.liveKept && 0 <= Rest(SharedLive(rows), s.live)[i] <= p.liveOpen
      && s.dead[i] <= p.deadKept && 0 <= Rest(SharedDead(rows), s.dead)[i] <= p.deadOpen
      && 0 <= AloneKept(rows, s, i) <= AloneLive(rows[i])
  {
  }

  lemma SplitFitsParts(rows: seq<Measures>, union: nat, s: Split, p: Sizes4)
    requires SplitsRows(rows, union, s) && s == SplitWith(p, s.live, s.dead)
    ensures PartsFit(rows, p)
  {
    forall i | 0 <= i < |rows|
      ensures Feasible(RowBounds(rows, p, i)) && Within(AllBounds(rows, p)[i], s.live[i], s.dead[i])
    {
      RowIsWithin(rows, s, p, i);
      TightenKeeps(RowBounds(rows, p, i), s.live[i], s.dead[i]);
    }
    Collect(AllBounds(rows, p), s.live, s.dead);
    RestSum(SharedLive(rows), s.live);
    RestSum(SharedDead(rows), s.dead);
    assert Within(SumBounds(rows, p), Sum(s.live), Sum(s.dead));
  }

  lemma PartsGiveSplit(rows: seq<Measures>, union: nat, p: Sizes4) returns (s: Split)
    requires PartsMakeUp(rows, union, p) && PartsFit(rows, p)
    ensures SplitsRows(rows, union, s)
  {
    var hs := AllBounds(rows, p);
    forall i | 0 <= i < |rows| ensures Tight(hs[i]) {
      TightenIsTight(RowBounds(rows, p, i));
    }
    var x, y := PointOf(SumBounds(rows, p));
    var xs, ys := Spread(hs, x, y);
    forall i | 0 <= i < |rows| ensures Within(RowBounds(rows, p, i), xs[i], ys[i]) && xs[i] >= 0 && ys[i] >= 0 {
      TightenKeeps(RowBounds(rows, p, i), xs[i], ys[i]);
    }
    s := SplitWith(p, Naturals(xs), Naturals(ys));
    PointsSplit(rows, s, p);
  }

  lemma PointsSplit(rows: seq<Measures>, s: Split, p: Sizes4)
    requires |s.live| == |s.dead| == |rows| && s == SplitWith(p, s.live, s.dead)
    requires forall i :: 0 <= i < |rows| ==> Within(RowBounds(rows, p, i), s.live[i], s.dead[i])
    requires Within(SumBounds(rows, p), Sum(s.live), Sum(s.dead))
    ensures PartsWrap(rows, s)
    ensures forall i :: 0 <= i < |rows| ==> 0 <= AloneKept(rows, s, i) <= AloneLive(rows[i])
  {
    RowsWithin(rows, s, p);
    RestSum(SharedLive(rows), s.live);
    RestSum(SharedDead(rows), s.dead);
  }

  lemma RowsWithin(rows: seq<Measures>, s: Split, p: Sizes4)
    requires |s.live| == |s.dead| == |rows| && s == SplitWith(p, s.live, s.dead)
    requires forall i :: 0 <= i < |rows| ==> Within(RowBounds(rows, p, i), s.live[i], s.dead[i])
    ensures forall i :: 0 <= i < |rows| ==> 0 <= s.live[i] <= p.liveKept && 0 <= s.dead[i] <= p.deadKept
    ensures forall i :: 0 <= i < |rows| ==> 0 <= Rest(SharedLive(rows), s.live)[i] <= p.liveOpen
    ensures forall i :: 0 <= i < |rows| ==> 0 <= Rest(SharedDead(rows), s.dead)[i] <= p.deadOpen
    ensures forall i :: 0 <= i < |rows| ==> 0 <= AloneKept(rows, s, i) <= AloneLive(rows[i])
  {
    forall i | 0 <= i < |rows|
      ensures s.live[i] <= p.liveKept && s.dead[i] <= p.deadKept && 0 <= AloneKept(rows, s, i) <= AloneLive(rows[i])
      ensures 0 <= Rest(SharedLive(rows), s.live)[i] <= p.liveOpen && 0 <= Rest(SharedDead(rows), s.dead)[i] <= p.deadOpen
    {
      RowIsWithin(rows, s, p, i);
    }
  }

  /** A split of the numbers exists exactly when the test passes. */
  lemma SplitIsDecided(rows: seq<Measures>, union: nat)
    ensures (exists s :: SplitsRows(rows, union, s)) <==> AllFits(rows, union)
  {
    if s :| SplitsRows(rows, union, s) {
      var p := Sizes4(s.liveKept, s.liveOpen, s.deadKept, s.deadOpen);
      SplitFitsParts(rows, union, s, p);
      assert PartsMakeUp(rows, union, p);
    }
    if AllFits(rows, union) {
      var p :| PartsMakeUp(rows, union, p) && PartsFit(rows, p);
      var s := PartsGiveSplit(rows, union, p);
    }
  }

  /**
   * Exactness of all seven columns: accepted rows are the counts of a family, a live set and one protected
   * set if and only if the test passes, which looks at sums and bounds for at most d^3 choices of sizes.
   */
  lemma SevenCountsAreExact(rows: seq<Measures>, union: nat, capacity: nat)
    requires KindAccepted(rows, union, capacity)
    ensures AllFits(rows, union) <==> exists family, live, kept :: HasAllCounts(family, live, kept, rows, union)
  {
    SplitIsDecided(rows, union);
    AllCountsAreExact(rows, union, capacity);
  }

  /** And for a whole accepted report: block sets with one catalog and one protected set exist exactly when both kinds pass. */
  lemma SevenReportIsExact(rows: seq<SnapshotRow>, metadata: nat, payload: nat, catalog: nat, capacity: nat)
    requires InventoryAccepted(rows, metadata, payload, catalog, capacity)
    ensures AllFits(Kind(rows, true), metadata) && AllFits(Kind(rows, false), payload) <==>
      exists area, ms, liveMs, ps, livePs, kept ::
        AllSetsBehind(rows, metadata, payload, catalog, capacity, area, ms, liveMs, ps, livePs, kept)
  {
    SplitIsDecided(Kind(rows, true), metadata);
    SplitIsDecided(Kind(rows, false), payload);
    ReportCountsAreExact(rows, metadata, payload, catalog, capacity);
  }
}
