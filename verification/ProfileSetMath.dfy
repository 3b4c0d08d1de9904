/** Set arithmetic on block ranges under a shared work budget. */
module ProfileSetMath {
  import opened Prelude
  import opened BlockRanges

  const BUDGET: int := 1000000
  const LONG_MAX: int := 0x7FFF_FFFF_FFFF_FFFF

  predicate SpanLeq(a: Span, b: Span) {
    a.start < b.start || (a.start == b.start && a.end <= b.end)
  }

  ghost predicate Sorted(s: seq<Span>) {
    forall i, j :: 0 <= i < j < |s| ==> SpanLeq(s[i], s[j])
  }

  /** Some prefix sum, formed as (sum so far) + end - start, leaves the 64-bit range before the subtraction. */
  ghost predicate CountOverflows(s: seq<Span>) {
    exists i :: 0 <= i < |s| && Length(s[..i]) + s[i].end > U64_MAX
  }

  lemma Gap(right: seq<Span>, k: nat, lo: int, hi: int)
    requires k <= |right|
    requires forall i :: 0 <= i < k ==> right[i].end <= lo
    requires forall i :: k <= i < |right| ==> hi <= right[i].start
    ensures Interval(lo, hi) !! Blocks(right)
  {
    forall b | b in Interval(lo, hi) ensures b !in Blocks(right) {
      InBlocks(right, b);
    }
  }

  lemma RangeInBlocks(s: seq<Span>, k: nat)
    requires k < |s|
    ensures Interval(s[k].start, s[k].end) <= Blocks(s)
  {
    forall b | b in Interval(s[k].start, s[k].end) ensures b in Blocks(s) {
      InBlocks(s, b);
    }
  }

  lemma BlocksPrefix(s: seq<Span>, i: nat)
    requires i < |s|
    ensures Blocks(s[..i + 1]) == Blocks(s[..i]) + Interval(s[i].start, s[i].end)
  {
    assert s[..i + 1] == s[..i] + [s[i]];
    BlocksAppend(s[..i], s[i]);
  }

  lemma CanonicalAppend(s: seq<Span>, r: Span)
    requires Canonical(s) && r.start < r.end
    requires s != [] ==> s[|s| - 1].end < r.start
    ensures Canonical(s + [r])
  {
    forall i | 0 <= i < |s| ensures s[i].end < r.start {
      assert i == |s| - 1 || (s[i].end < s[|s| - 1].start < s[|s| - 1].end);
    }
  }

  /** Every set of blocks has a normal form. */
  lemma {:induction false} ListOf(blocks: set<int>, limit: nat) returns (s: seq<Span>)
    requires blocks <= Interval(0, limit)
    ensures Canonical(s) && Blocks(s) == blocks
    ensures s != [] ==> s[|s| - 1].end <= limit
  {
    s := [];
    if limit > 0 {
      var top := limit - 1;
      forall b | b in blocks - {top} ensures b in Interval(0, top) {
        assert b in Interval(0, limit);
      }
      s := ListOf(blocks - {top}, top);
      if top in blocks {
        s := WithTop(s, top);
      }
    } else {
      assert blocks == {};
    }
  }

  lemma WithTop(s: seq<Span>, top: nat) returns (t: seq<Span>)
    requires Canonical(s) && (s != [] ==> s[|s| - 1].end <= top)
    ensures Canonical(t) && Blocks(t) == Blocks(s) + {top} && t != [] && t[|t| - 1].end == top + 1
  {
    assert Interval(top, top + 1) == {top};
    if s == [] || s[|s| - 1].end < top {
      t := s + [Span(top, top + 1)];
      CanonicalAppend(s, Span(top, top + 1));
      BlocksAppend(s, Span(top, top + 1));
    } else {
      t := s[..|s| - 1] + [Span(s[|s| - 1].start, top + 1)];
      Lengthen(s[..|s| - 1], s[|s| - 1], top);
    }
  }

  lemma Lengthen(init: seq<Span>, last: Span, top: nat)
    requires Canonical(init) && (init != [] ==> init[|init| - 1].end < last.start) && last.start < last.end == top
    ensures Canonical(init + [Span(last.start, top + 1)])
    ensures Blocks(init + [Span(last.start, top + 1)]) == Blocks(init) + Interval(last.start, last.end) + {top}
  {
    CanonicalAppend(init, Span(last.start, top + 1));
    BlocksAppend(init, Span(last.start, top + 1));
    assert Interval(last.start, top + 1) == Interval(last.start, last.end) + {top};
  }

  /** Overwrites the last range so that it reaches at least `end`. */
  function Extend(result: seq<Span>, end: nat): seq<Span>
    requires result != []
  {
    var last := result[|result| - 1];
    result[..|result| - 1] + [Span(last.start, if last.end < end then end else last.end)]
  }

  /** What the merge loop does with the next range: extend the last result range, or start a new one. */
  ghost function Absorb(result: seq<Span>, r: Span): seq<Span> {
    if result != [] && r.start <= result[|result| - 1].end then Extend(result, r.end) else result + [r]
  }

  lemma AbsorbBlocks(result: seq<Span>, r: Span)
    requires result != [] ==> result[|result| - 1].start <= r.start
    ensures Blocks(Absorb(result, r)) == Blocks(result) + Interval(r.start, r.end)
  {
    if result != [] && r.start <= result[|result| - 1].end {
      var init, last := result[..|result| - 1], result[|result| - 1];
      var top := if last.end < r.end then r.end else last.end;
      BlocksAppend(init, Span(last.start, top));
      assert Interval(last.start, top) == Interval(last.start, last.end) + Interval(r.start, r.end);
    } else {
      BlocksAppend(result, r);
    }
  }

  lemma AbsorbShape(result: seq<Span>, r: Span)
    requires Separated(result)
    requires result != [] ==> result[|result| - 1].start <= r.start
    ensures Separated(Absorb(result, r))
    ensures NonEmpty(result) && r.start < r.end ==> NonEmpty(Absorb(result, r))
    ensures Fits64(result) && r.end <= U64_MAX ==> Fits64(Absorb(result, r))
  {
    if result == [] || r.start > result[|result| - 1].end {
      forall i | 0 <= i < |result| ensures result[i].end < r.start {
        assert i == |result| - 1 || result[i].end < result[|result| - 1].start;
      }
    }
  }

  /** The merge loop's invariant after i ranges of a sorted list. */
  ghost predicate Merged(result: seq<Span>, sorted: seq<Span>, i: nat)
    requires i <= |sorted|
  {
    && Blocks(result) == Blocks(sorted[..i])
    && Separated(result)
    && (NonEmpty(sorted) ==> NonEmpty(result))
    && (Fits64(sorted) ==> Fits64(result))
    && (result != [] ==> i > 0 && result[|result| - 1].start <= sorted[i - 1].start)
  }

  lemma MergedStep(result: seq<Span>, sorted: seq<Span>, i: nat)
    requires i < |sorted| && Sorted(sorted) && Merged(result, sorted, i)
    ensures Merged(Absorb(result, sorted[i]), sorted, i + 1)
  {
    assert i > 0 ==> SpanLeq(sorted[i - 1], sorted[i]);
    BlocksPrefix(sorted, i);
    AbsorbBlocks(result, sorted[i]);
    AbsorbShape(result, sorted[i]);
  }

  lemma InsertSorted(s: seq<Span>, at: nat, x: Span)
    requires at <= |s| && Sorted(s)
    requires forall k :: 0 <= k < at ==> SpanLeq(s[k], x)
    requires forall k :: at <= k < |s| ==> SpanLeq(x, s[k])
    ensures Sorted(s[..at] + [x] + s[at..])
    ensures multiset(s[..at] + [x] + s[at..]) == multiset(s) + multiset{x}
  {
    assert s == s[..at] + s[at..];
  }

  lemma SameCount(s: seq<Span>, t: seq<Span>)
    requires multiset(s) == multiset(t)
    ensures |s| == |t|
  {
    assert |multiset(s)| == |s| && |multiset(t)| == |t|;
  }

  lemma SortedBelow(s: seq<Span>, at: nat, x: Span)
    requires at < |s| && Sorted(s) && SpanLeq(s[at], x)
    ensures forall k :: 0 <= k <= at ==> SpanLeq(s[k], x)
  {
    forall k | 0 <= k <= at ensures SpanLeq(s[k], x) {
      assert k == at || SpanLeq(s[k], s[at]);
    }
  }

  /** Two range lists share a block exactly when some range of one overlaps some range of the other. */
  lemma SharedBlock(a: seq<Span>, i: nat, b: seq<Span>, j: nat)
    requires i < |a| && j < |b|
    requires a[i].start < a[i].end && b[j].start < b[j].end
    requires b[j].start < a[i].end && a[i].start < b[j].end
    ensures exists x :: x in Blocks(a) && x in Blocks(b)
  {
    var x := if a[i].start < b[j].start then b[j].start else a[i].start;
    InBlocks(a, x);
    InBlocks(b, x);
  }

  /** The difference loop's invariant: everything before `at` in range i has been carved out. */
  ghost predicate Carved(result: seq<Span>, left: seq<Span>, right: seq<Span>, i: nat, at: int)
    requires i < |left|
  {
    && Canonical(result)
    && Blocks(result) == (Blocks(left[..i]) + Interval(left[i].start, Min(at, left[i].end))) - Blocks(right)
    && left[i].start <= at
    && (result != [] ==> result[|result| - 1].end < at && result[|result| - 1].end <= left[i].end)
  }

  /** The same invariant between two ranges of the left list. */
  ghost predicate Subtracted(result: seq<Span>, left: seq<Span>, right: seq<Span>, i: nat)
    requires i <= |left|
  {
    && Canonical(result)
    && Blocks(result) == Blocks(left[..i]) - Blocks(right)
    && (result != [] ==> i > 0 && result[|result| - 1].end <= left[i - 1].end)
  }

  /** All ranges of a list before index k end at or before a block. */
  ghost predicate EndsBy(s: seq<Span>, k: int, at: int) {
    forall i :: 0 <= i < k && i < |s| ==> s[i].end <= at
  }

  lemma CarveStart(result: seq<Span>, left: seq<Span>, right: seq<Span>, i: nat)
    requires i < |left| && Canonical(left) && Subtracted(result, left, right, i)
    ensures Carved(result, left, right, i, left[i].start)
  {
  }

  /** One right range moves the carving front from `at` to `next` and leaves the piece before it. */
  lemma CarveBlocks(p: set<int>, r: set<int>, start: int, end: int, at: int, from: int, to: int)
    requires start <= at < end && from < end && from < to
    requires Interval(from, to) <= r
    requires Interval(at, from) !! r
    ensures var next := if at < to then to else at;
      (p + Interval(start, Min(next, end))) - r == ((p + Interval(start, at)) - r) + Interval(at, from)
  {
    var next := if at < to then to else at;
    forall b ensures b in (p + Interval(start, Min(next, end))) - r
                 <==> b in ((p + Interval(start, at)) - r) + Interval(at, from) {
      assert from <= b < to ==> b in r;
      assert at <= b < from ==> b in Interval(at, from);
    }
  }

  /** Emits the piece from `at` up to `to`, if there is one. */
  function Emit(result: seq<Span>, at: nat, to: nat): seq<Span> {
    if at < to then result + [Span(at, to)] else result
  }

  lemma EmitPiece(result: seq<Span>, at: nat, to: nat)
    requires Canonical(result)
    requires result != [] ==> result[|result| - 1].end < at
    ensures Canonical(Emit(result, at, to))
    ensures Blocks(Emit(result, at, to)) == Blocks(result) + Interval(at, to)
    ensures Emit(result, at, to) != [] ==>
      Emit(result, at, to)[|Emit(result, at, to)| - 1].end == (if at < to then to else result[|result| - 1].end)
  {
    if at < to {
      CanonicalAppend(result, Span(at, to));
      BlocksAppend(result, Span(at, to));
    } else {
      assert Interval(at, to) == {};
    }
  }

  lemma CarveStep(result: seq<Span>, left: seq<Span>, right: seq<Span>, i: nat, at: nat, k: nat)
    requires i < |left| && k < |right| && Canonical(left) && Canonical(right)
    requires Carved(result, left, right, i, at)
    requires at < left[i].end && right[k].start < left[i].end
    requires EndsBy(right, k, at)
    ensures Carved(Emit(result, at, right[k].start), left, right, i, Max(at, right[k].end))
    ensures EndsBy(right, k + 1, Max(at, right[k].end))
  {
    RangeInBlocks(right, k);
    Gap(right, k, at, right[k].start);
    CarveBlocks(Blocks(left[..i]), Blocks(right), left[i].start, left[i].end, at, right[k].start, right[k].end);
    EmitPiece(result, at, right[k].start);
  }

  lemma RestBlocks(p: set<int>, r: set<int>, start: int, end: int, at: int)
    requires start <= at && Interval(at, end) !! r && start < end
    ensures (p + Interval(start, end)) - r == ((p + Interval(start, Min(at, end))) - r) + Interval(at, end)
  {
  }

  lemma CarveEnd(result: seq<Span>, left: seq<Span>, right: seq<Span>, i: nat, at: nat, k: nat)
    requires i < |left| && k <= |right| && Canonical(left) && Canonical(right)
    requires Carved(result, left, right, i, at)
    requires EndsBy(right, k, at)
    requires at < left[i].end && k < |right| ==> left[i].end <= right[k].start
    ensures Subtracted(Emit(result, at, left[i].end), left, right, i + 1)
  {
    BlocksPrefix(left, i);
    if at < left[i].end {
      Gap(right, k, at, left[i].end);
    }
    RestBlocks(Blocks(left[..i]), Blocks(right), left[i].start, left[i].end, at);
    EmitPiece(result, at, left[i].end);
  }

  class ProfileSetMath {
    var work: int

    constructor ()
      ensures work == 0
    {
      work := 0;
    }

    /**
     * Charges the shared budget. A charge past the budget stays on the counter; a negative count and a sum
     * past the signed 64-bit range leave the counter as it was.
     */
    method Tick(count: int := 1) returns (ok: bool)
      modifies this
      ensures ok <==> count >= 0 && old(work) + count <= BUDGET
      ensures work == if 0 <= count && old(work) + count <= LONG_MAX then old(work) + count else old(work)
      ensures !ok && 0 <= count <= BUDGET && old(work) <= LONG_MAX - BUDGET ==> work > BUDGET
    {
      if count < 0 || work + count > LONG_MAX {
        return false;
      }
      work := work + count;
      ok := work <= BUDGET;
    }

    /** Insertion point of a range in a sorted list; every comparison is charged. */
    method Position(sorted: seq<Span>, x: Span) returns (ok: bool, at: nat)
      requires 0 <= work <= BUDGET && Sorted(sorted)
      modifies this
      ensures work >= old(work)
      ensures !ok ==> work > BUDGET
      ensures ok ==> work <= BUDGET && at <= |sorted| && (sorted != [] ==> work > old(work))
      ensures ok ==> forall k :: 0 <= k < at ==> SpanLeq(sorted[k], x)
      ensures ok ==> forall k :: at <= k < |sorted| ==> SpanLeq(x, sorted[k])
    {
      at := |sorted|;
      while at > 0
        invariant 0 <= at <= |sorted|
        invariant old(work) + |sorted| - at == work <= BUDGET
        invariant forall k :: at <= k < |sorted| ==> SpanLeq(x, sorted[k])
      {
        ok := Tick();
        if !ok { return; }
        if SpanLeq(sorted[at - 1], x) {
          SortedBelow(sorted, at - 1, x);
          return true, at;
        }
        at := at - 1;
      }
      ok := true;
    }

    method Insert(sorted: seq<Span>, x: Span) returns (ok: bool, next: seq<Span>)
      requires 0 <= work <= BUDGET && Sorted(sorted)
      modifies this
      ensures work >= old(work)
      ensures !ok ==> work > BUDGET
      ensures ok ==> work <= BUDGET && Sorted(next) && multiset(next) == multiset(sorted) + multiset{x}
      ensures ok && sorted != [] ==> work > old(work)
    {
      next := sorted;
      var at: nat;
      ok, at := Position(sorted, x);
      if !ok { return; }
      InsertSorted(sorted, at, x);
      next := sorted[..at] + [x] + sorted[at..];
    }

    /** Any comparison sort will do here: each comparison is charged as it is made, and no sort gets by with fewer than n - 1. */
    method Sort(input: seq<Span>) returns (ok: bool, sorted: seq<Span>)
      requires 0 <= work <= BUDGET
      modifies this
      ensures work >= old(work)
      ensures !ok ==> work > BUDGET
      ensures ok ==> work <= BUDGET && Sorted(sorted) && multiset(sorted) == multiset(input)
      ensures ok ==> work >= old(work) + |input| - 1
    {
      sorted, ok := [], true;
      for i := 0 to |input|
        invariant ok && old(work) <= work <= BUDGET && work >= old(work) + i - 1
        invariant Sorted(sorted) && multiset(sorted) == multiset(input[..i])
      {
        SameCount(sorted, input[..i]);
        ok, sorted := Insert(sorted, input[i]);
        if !ok { return; }
        assert input[..i + 1] == input[..i] + [input[i]];
      }
      assert input[..|input|] == input;
    }

    /** The blocks of any range list, merged so that no two result ranges touch. */
    method Union(input: seq<Span>) returns (ok: bool, result: seq<Span>)
      requires 0 <= work <= BUDGET
      modifies this
      ensures work >= old(work)
      ensures !ok ==> work > BUDGET
      ensures ok ==> old(work) + 3 * |input| - 1 <= work <= BUDGET
      ensures ok ==> Blocks(result) == Blocks(input)
      ensures ok ==> Separated(result)
      ensures ok && NonEmpty(input) ==> Canonical(result)
      ensures ok && Fits64(input) ==> Fits64(result)
    {
      var sorted: seq<Span> := [];
      result := [];
      for i := 0 to |input|
        invariant old(work) + i == work <= BUDGET
        invariant sorted == input[..i]
      {
        ok := Tick();
        if !ok { return; }
        sorted := sorted + [input[i]];
      }
      assert input[..|input|] == input;
      ok, sorted := Sort(sorted);
      if !ok { return; }
      SameCount(sorted, input);
      BlocksSameElements(sorted, input);
      SameEnds(sorted, input);
      for i := 0 to |sorted|
        invariant ok && old(work) + 2 * |input| - 1 + i <= work <= BUDGET && old(work) <= work
        invariant Merged(result, sorted, i)
      {
        ok := Tick();
        if !ok { return; }
        MergedStep(result, sorted, i);
        result := if |result| > 0 && sorted[i].start <= result[|result| - 1].end
          then Extend(result, sorted[i].end)
          else result + [sorted[i]];
      }
      assert sorted[..|sorted|] == sorted;
    }

    /** One range of the right list cut out of what is left of range i. */
    method CarveNext(ghost left: seq<Span>, right: seq<Span>, ghost i: nat, init: seq<Span>, from: nat, n: nat)
      returns (ok: bool, result: seq<Span>, at: nat)
      requires 0 <= work <= BUDGET && i < |left| && n < |right| && Canonical(left) && Canonical(right)
      requires EndsBy(right, n, from) && Carved(init, left, right, i, from) && from < left[i].end && right[n].start < left[i].end
      modifies this
      ensures work == old(work) + 1 && (ok <==> work <= BUDGET)
      ensures ok ==> EndsBy(right, n + 1, at) && Carved(result, left, right, i, at)
    {
      result, at := init, from;
      ok := Tick();
      if !ok { return; }
      CarveStep(init, left, right, i, from, n);
      result := Emit(init, from, right[n].start);
      at := Max(from, right[n].end);
    }

    /** The inner scan of Difference over one left range, from right index j; k is the first index not visited. */
    method Carve(ghost left: seq<Span>, right: seq<Span>, ghost i: nat, range: Span, j: nat, init: seq<Span>)
      returns (ok: bool, result: seq<Span>, ghost k: nat)
      requires 0 <= work <= BUDGET && i < |left| && left[i] == range && j <= |right|
      requires Canonical(left) && Canonical(right)
      requires EndsBy(right, j, range.start) && Subtracted(init, left, right, i)
      modifies this
      ensures j <= k <= |right|
      ensures work == old(work) + k - j + (if ok then 0 else 1)
      ensures ok <==> work <= BUDGET
      ensures !ok ==> k < |right|
      ensures ok ==> Subtracted(result, left, right, i + 1)
      ensures k > j ==> right[k - 1].start < range.end
    {
      result := init;
      var at := range.start;
      var n := j;
      k := j;
      CarveStart(result, left, right, i);
      while n < |right| && right[n].start < range.end && at < range.end
        invariant n == k && j <= k <= |right|
        invariant work == old(work) + k - j && work <= BUDGET
        invariant EndsBy(right, k, at) && Carved(result, left, right, i, at)
        invariant k > j ==> right[k - 1].start < range.end
      {
        ok, result, at := CarveNext(left, right, i, result, at, n);
        if !ok { return; }
        n, k := n + 1, k + 1;
      }
      CarveEnd(result, left, right, i, at, k);
      result := Emit(result, at, range.end);
      ok := true;
    }

    /** The blocks of the left normal form that the right one lacks, within twice the input size in ticks. */
    method Difference(left: seq<Span>, right: seq<Span>) returns (ok: bool, result: seq<Span>)
      requires 0 <= work <= BUDGET && Canonical(left) && Canonical(right)
      modifies this
      ensures old(work) <= work <= old(work) + 2 * (|left| + |right|)
      ensures ok <==> work <= BUDGET
      ensures ok ==> Canonical(result) && Blocks(result) == Blocks(left) - Blocks(right)
    {
      result := [];
      var j := 0;
      ghost var visits, frontier := 0, 0;
      for i := 0 to |left|
        invariant 0 <= j <= |right| && 0 <= frontier <= |right| && 0 <= visits <= i + frontier
        invariant work == old(work) + i + j + visits && work <= BUDGET
        invariant i < |left| ==> EndsBy(right, j, left[i].start) && EndsBy(right, frontier - 1, left[i].start)
        invariant Subtracted(result, left, right, i)
      {
        ok := Tick();
        if !ok { return; }
        while j < |right| && right[j].end <= left[i].start
          invariant 0 <= j <= |right| && EndsBy(right, j, left[i].start)
          invariant work == old(work) + i + 1 + j + visits && work <= BUDGET
        {
          ok := Tick();
          if !ok { return; }
          j := j + 1;
        }
        assert j >= frontier - 1;
        ghost var k;
        ok, result, k := Carve(left, right, i, left[i], j, result);
        if !ok { return; }
        Frontier(left, right, i, j, k);
        visits, frontier := visits + k - j, k;
      }
      assert left[..|left|] == left;
      ok := true;
    }

    /** Adds up the lengths in checked 64-bit arithmetic; on a normal form the sum is the number of blocks. */
    method Count(ranges: seq<Span>) returns (ok: bool, result: nat)
      requires 0 <= work <= BUDGET && Canonical(ranges) && Fits64(ranges)
      modifies this
      ensures old(work) <= work <= old(work) + |ranges|
      ensures ok <==> old(work) + |ranges| <= BUDGET && !CountOverflows(ranges)
      ensures ok ==> result == |Blocks(ranges)| && work == old(work) + |ranges|
      ensures !ok && !CountOverflows(ranges) ==> work > BUDGET
    {
      result := 0;
      for i := 0 to |ranges|
        invariant work == old(work) + i <= BUDGET
        invariant result == Length(ranges[..i])
        invariant forall k :: 0 <= k < i ==> Length(ranges[..k]) + ranges[k].end <= U64_MAX
      {
        ok := Tick();
        if !ok { return; }
        if result + ranges[i].end > U64_MAX {
          return false, result;
        }
        assert ranges[..i + 1][..i] == ranges[..i];
        result := result + ranges[i].end - ranges[i].start;
      }
      assert ranges[..|ranges|] == ranges;
      LengthIsSize(ranges);
      ok := true;
    }

    /** Two-pointer scan: accepts exactly when two normal forms share no block, within the summed size in ticks. */
    method Disjoint(a: seq<Span>, b: seq<Span>) returns (verdict: Verdict)
      requires 0 <= work <= BUDGET && Canonical(a) && Canonical(b)
      modifies this
      ensures old(work) <= work <= old(work) + |a| + |b|
      ensures verdict == OverBudget <==> work > BUDGET
      ensures verdict == Accepted ==> Blocks(a) !! Blocks(b)
      ensures verdict == Refused ==> Blocks(a) * Blocks(b) != {}
    {
      var i, j := 0, 0;
      while i < |a| && j < |b|
        invariant 0 <= i <= |a| && 0 <= j <= |b|
        invariant work == old(work) + i + j && work <= BUDGET
        invariant Passed(a, i, b, j) && Passed(b, j, a, i)
      {
        var ok := Tick();
        if !ok { return OverBudget; }
        if a[i].end <= b[j].start {
          PassedStep(a, i, b, j);
          i := i + 1;
        } else if b[j].end <= a[i].start {
          PassedStep(b, j, a, i);
          j := j + 1;
        } else {
          SharedBlock(a, i, b, j);
          return Refused;
        }
      }
      BothPassed(a, i, b, j);
      verdict := Accepted;
    }
  }

  datatype Verdict = Accepted | Refused | OverBudget

  /** The ranges of `a` before i are clear of all of `b`, and those of `b` before j end before range i of `a`. */
  ghost predicate Passed(a: seq<Span>, i: nat, b: seq<Span>, j: nat) {
    && i <= |a|
    && Blocks(a[..i]) !! Blocks(b)
    && (i < |a| ==> EndsBy(b, j, a[i].start))
  }

  /** When either list is used up the two share nothing. */
  lemma BothPassed(a: seq<Span>, i: nat, b: seq<Span>, j: nat)
    requires Passed(a, i, b, j) && Passed(b, j, a, i) && (i == |a| || j == |b|)
    ensures Blocks(a) !! Blocks(b)
  {
    if i == |a| {
      assert a[..i] == a;
    } else {
      assert b[..j] == b;
    }
  }

  lemma PassedStep(a: seq<Span>, i: nat, b: seq<Span>, j: nat)
    requires Canonical(a) && Canonical(b) && i < |a| && j < |b|
    requires Passed(a, i, b, j) && Passed(b, j, a, i)
    requires a[i].end <= b[j].start
    ensures Passed(a, i + 1, b, j) && Passed(b, j, a, i + 1)
  {
    Gap(b, j, a[i].start, a[i].end);
    BlocksPrefix(a, i);
  }

  /** The checked sum cannot overflow while every end is below 2^63. */
  lemma CountOverflowNeedsHighBlocks(s: seq<Span>)
    requires Canonical(s) && CountOverflows(s)
    ensures exists i :: 0 <= i < |s| && s[i].end > U64_MAX / 2
  {
    var i :| 0 <= i < |s| && Length(s[..i]) + s[i].end > U64_MAX;
    LengthIsSize(s[..i]);
    if i > 0 {
      assert s[..i][i - 1] == s[i - 1];
    }
  }

  lemma {:induction false} LengthGrows(s: seq<Span>, i: nat, j: nat)
    requires Canonical(s) && i <= j <= |s|
    ensures Length(s[..i]) <= Length(s[..j])
  {
    if i < j {
      LengthGrows(s, i, j - 1);
      assert s[..j][..j - 1] == s[..j - 1];
    }
  }

  lemma LastSumIsLargest(s: seq<Span>, i: nat)
    requires Canonical(s) && i < |s|
    ensures Length(s[..i]) + s[i].end <= Length(s) + s[|s| - 1].start
  {
    LengthGrows(s, i, |s| - 1);
    assert i < |s| - 1 ==> s[i].end < s[|s| - 1].start;
  }

  lemma LastSum(s: seq<Span>)
    requires s != []
    ensures Length(s[..|s| - 1]) + s[|s| - 1].end == Length(s) + s[|s| - 1].start
  {
  }

  /** When Count overflows, in terms a caller can check: the block count on top of where the last range starts passes 64 bits. */
  lemma CountOverflowIsExact(s: seq<Span>)
    requires Canonical(s)
    ensures CountOverflows(s) <==> s != [] && |Blocks(s)| + s[|s| - 1].start > U64_MAX
  {
    LengthIsSize(s);
    if s != [] {
      LastSum(s);
      LargestSum(s, |Blocks(s)| + s[|s| - 1].start);
    }
  }

  /** Some sum passes the limit exactly when the last one does. */
  lemma LargestSum(s: seq<Span>, last: int)
    requires Canonical(s) && s != [] && last == Length(s) + s[|s| - 1].start
    ensures CountOverflows(s) <==> last > U64_MAX
  {
    LastSum(s);
    forall i: nat | i < |s| ensures Length(s[..i]) + s[i].end <= last {
      LastSumIsLargest(s, i);
    }
  }

  /** Above that the code can refuse a list whose block count fits: the sum is formed before the subtraction. */
  lemma CountCanOverflow()
    ensures var s := [Span(0, U64_MAX / 2), Span(U64_MAX / 2 + 2, U64_MAX)];
      Canonical(s) && Fits64(s) && |Blocks(s)| <= U64_MAX && CountOverflows(s)
  {
    var s := [Span(0, U64_MAX / 2), Span(U64_MAX / 2 + 2, U64_MAX)];
    LengthIsSize(s);
    assert s[..1] == [s[0]] && s[..1][..0] == [];
    assert Length(s[..1]) + s[1].end > U64_MAX;
  }

  lemma Frontier(left: seq<Span>, right: seq<Span>, i: nat, j: nat, k: nat)
    requires i < |left| && j <= k <= |right| && Canonical(left) && Canonical(right)
    requires EndsBy(right, j, left[i].start)
    requires k > j ==> right[k - 1].start < left[i].end
    ensures i + 1 < |left| ==> EndsBy(right, j, left[i + 1].start) && EndsBy(right, k - 1, left[i + 1].start)
  {
  }

  lemma SameEnds(s: seq<Span>, t: seq<Span>)
    requires multiset(s) == multiset(t)
    ensures Fits64(s) <==> Fits64(t)
  {
    forall i | 0 <= i < |s| ensures s[i] in t {
      assert s[i] in multiset(s);
    }
    forall i | 0 <= i < |t| ensures t[i] in s {
      assert t[i] in multiset(t);
    }
  }
}
