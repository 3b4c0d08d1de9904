/** Counting in a finite family of block sets: what each member shares with the others, and double counting. */
module SnapshotFamilies {

  ghost function Sum(s: seq<int>): int {
    if s == [] then 0 else Sum(s[..|s| - 1]) + s[|s| - 1]
  }

  ghost function Largest(s: seq<int>): int {
    if s == [] then 0 else
      var m := Largest(s[..|s| - 1]);
      if m < s[|s| - 1] then s[|s| - 1] else m
  }

  ghost function UnionOf(family: seq<set<int>>): set<int> {
    set i, b | 0 <= i < |family| && b in family[i] :: b
  }

  /** The blocks of every member except member i. */
  ghost function Others(family: seq<set<int>>, i: int): set<int> {
    set j, b | 0 <= j < |family| && j != i && b in family[j] :: b
  }

  /** The sizes of the members' parts inside a set. */
  ghost function Sizes(family: seq<set<int>>, within: set<int>): seq<int> {
    seq(|family|, i requires 0 <= i < |family| => |family[i] * within|)
  }

  /** How many members hold a block. */
  ghost function Multiplicity(family: seq<set<int>>, b: int): nat {
    if family == [] then 0
    else Multiplicity(family[..|family| - 1], b) + if b in family[|family| - 1] then 1 else 0
  }

  /** The blocks that at least two members hold. */
  ghost function SharedBlocks(family: seq<set<int>>): set<int> {
    set i, b | 0 <= i < |family| && b in family[i] && b in Others(family, i) :: b
  }

  lemma MemberInUnion(family: seq<set<int>>, i: int)
    requires 0 <= i < |family|
    ensures family[i] <= UnionOf(family)
  {
    forall b | b in family[i] ensures b in UnionOf(family) {}
  }

  lemma SumInit(s: seq<int>, x: int)
    ensures Sum(s + [x]) == Sum(s) + x
  {
    assert (s + [x])[..|s|] == s;
  }

  lemma {:induction false} SumMonotone(s: seq<int>, t: seq<int>)
    requires |s| == |t| && forall i :: 0 <= i < |s| ==> s[i] <= t[i]
    ensures Sum(s) <= Sum(t)
  {
    if s != [] {
      SumMonotone(s[..|s| - 1], t[..|t| - 1]);
    }
  }

  lemma {:induction false} SumNonnegative(s: seq<int>)
    requires forall i :: 0 <= i < |s| ==> s[i] >= 0
    ensures Sum(s) >= 0
    ensures forall i :: 0 <= i < |s| ==> s[i] <= Sum(s)
  {
    if s != [] {
      SumNonnegative(s[..|s| - 1]);
    }
  }

  lemma {:induction false} SumPrefix(s: seq<int>, k: nat)
    requires k <= |s| && forall i :: 0 <= i < |s| ==> s[i] >= 0
    ensures Sum(s[..k]) <= Sum(s)
    decreases |s|
  {
    if k < |s| {
      SumPrefix(s[..|s| - 1], k);
      assert s[..|s| - 1][..k] == s[..k];
    } else {
      assert s[..k] == s;
    }
  }

  lemma {:induction false} SumDifference(s: seq<int>, t: seq<int>, d: seq<int>)
    requires |s| == |t| == |d| && forall i :: 0 <= i < |s| ==> d[i] == s[i] - t[i]
    ensures Sum(d) == Sum(s) - Sum(t)
  {
    if s != [] {
      SumDifference(s[..|s| - 1], t[..|t| - 1], d[..|d| - 1]);
    }
  }

  lemma LargestNext(s: seq<int>, i: nat)
    requires i < |s|
    ensures Largest(s[..i + 1]) == if Largest(s[..i]) < s[i] then s[i] else Largest(s[..i])
  {
    assert s[..i + 1][..i] == s[..i];
  }

  lemma {:induction false} LargestBound(s: seq<int>, bound: int)
    requires 0 <= bound
    ensures Largest(s) <= bound <==> forall i :: 0 <= i < |s| ==> s[i] <= bound
  {
    if s != [] {
      LargestBound(s[..|s| - 1], bound);
    }
  }

  /** Taking one block out of a set lowers the summed sizes by the block's multiplicity. */
  lemma {:induction false} SizesWithout(family: seq<set<int>>, within: set<int>, b: int)
    requires b in within
    ensures Sum(Sizes(family, within)) == Sum(Sizes(family, within - {b})) + Multiplicity(family, b)
  {
    if family != [] {
      var init, last := family[..|family| - 1], family[|family| - 1];
      SizesWithout(init, within, b);
      assert Sizes(family, within)[..|init|] == Sizes(init, within);
      assert Sizes(family, within - {b})[..|init|] == Sizes(init, within - {b});
      if b in last {
        assert last * within == (last * (within - {b})) + {b};
      } else {
        assert last * within == last * (within - {b});
      }
    }
  }

  lemma {:induction false} SizesInNothing(family: seq<set<int>>)
    ensures Sum(Sizes(family, {})) == 0
  {
    if family != [] {
      SizesInNothing(family[..|family| - 1]);
      assert Sizes(family, {})[..|family| - 1] == Sizes(family[..|family| - 1], {});
      assert family[|family| - 1] * {} == {};
    }
  }

  lemma Pick<T(!new)>(s: set<T>) returns (b: T)
    requires s != {}
    ensures b in s
  {
    b :| b in s;
  }

  /** Double counting: blocks held at least lo and at most hi times are counted between lo and hi times. */
  lemma {:induction false} DoubleCount(family: seq<set<int>>, within: set<int>, lo: nat, hi: nat)
    requires forall b <- within :: lo <= Multiplicity(family, b) <= hi
    ensures lo * |within| <= Sum(Sizes(family, within)) <= hi * |within|
    decreases |within|
  {
    if within == {} {
      SizesInNothing(family);
    } else {
      var b := Pick(within);
      var rest := within - {b};
      SizesWithout(family, within, b);
      DoubleCount(family, rest, lo, hi);
      assert lo * (|rest| + 1) == lo * |rest| + lo && hi * (|rest| + 1) == hi * |rest| + hi;
    }
  }

  lemma {:induction false} NoMember(family: seq<set<int>>, b: int)
    ensures Multiplicity(family, b) == 0 <==> forall i :: 0 <= i < |family| ==> b !in family[i]
  {
    if family != [] {
      var init := family[..|family| - 1];
      NoMember(init, b);
      assert forall i :: 0 <= i < |init| ==> init[i] == family[i];
    }
  }

  /** Two members hold a block exactly when its multiplicity is at least two. */
  lemma {:induction false} SharedMultiplicity(family: seq<set<int>>, b: int)
    ensures Multiplicity(family, b) >= 2 <==> b in SharedBlocks(family)
    ensures Multiplicity(family, b) >= 1 <==> b in UnionOf(family)
  {
    NoMember(family, b);
    if family != [] {
      var n := |family| - 1;
      var init := family[..n];
      SharedMultiplicity(init, b);
      NoMember(init, b);
      assert forall i :: 0 <= i < n ==> init[i] == family[i];
      if b in SharedBlocks(init) {
        var i :| 0 <= i < n && b in init[i] && b in Others(init, i);
        assert b in family[i] && b in Others(family, i);
      } else if b in family[n] && Multiplicity(init, b) == 1 {
        var i :| 0 <= i < n && b in init[i];
        assert b in family[i] && b in Others(family, n);
      }
      if b in SharedBlocks(family) && Multiplicity(init, b) < 2 {
        var i :| 0 <= i < |family| && b in family[i] && b in Others(family, i);
        var j :| 0 <= j < |family| && j != i && b in family[j];
        assert i < n && j < n ==> init[i] == family[i] && init[j] == family[j];
      }
    }
  }

  /** Inside one member, shared with the others means shared at all. */
  lemma SharedPart(family: seq<set<int>>, i: int)
    requires 0 <= i < |family|
    ensures family[i] * Others(family, i) == family[i] * SharedBlocks(family)
    ensures family[i] - Others(family, i) == family[i] * (UnionOf(family) - SharedBlocks(family))
  {
    forall b | b in family[i] && b in SharedBlocks(family) ensures b in Others(family, i) {
      var k :| 0 <= k < |family| && b in family[k] && b in Others(family, k);
      assert k != i ==> b in Others(family, i);
    }
    forall b | b in family[i] ensures b in UnionOf(family) {}
  }

  /** The members' exclusive parts partition the unshared blocks; the shared ones are counted at least twice. */
  lemma FamilyCounts(family: seq<set<int>>)
    ensures var shared := SharedBlocks(family); var alone := UnionOf(family) - shared;
      && shared <= UnionOf(family)
      && Sum(Sizes(family, alone)) == |alone| == |UnionOf(family)| - |shared|
      && Sum(Sizes(family, shared)) >= 2 * |shared|
  {
    CountAlone(family);
    CountedTwice(family, SharedBlocks(family));
  }

  lemma CountAlone(family: seq<set<int>>)
    ensures var shared := SharedBlocks(family); var alone := UnionOf(family) - shared;
      shared <= UnionOf(family) && Sum(Sizes(family, alone)) == |alone| == |UnionOf(family)| - |shared|
  {
    var union, shared := UnionOf(family), SharedBlocks(family);
    CountOnce(family, union - shared);
    forall b | b in shared ensures b in union {
      SharedMultiplicity(family, b);
    }
    Complement(union, shared);
  }

  lemma Complement(whole: set<int>, part: set<int>)
    requires part <= whole
    ensures |whole - part| == |whole| - |part|
  {
    assert whole == (whole - part) + part;
  }

  /** Unshared blocks are counted once each. */
  lemma CountOnce(family: seq<set<int>>, alone: set<int>)
    requires alone <= UnionOf(family) && alone !! SharedBlocks(family)
    ensures Sum(Sizes(family, alone)) == |alone|
  {
    forall b | b in alone ensures Multiplicity(family, b) == 1 {
      SharedMultiplicity(family, b);
    }
    DoubleCount(family, alone, 1, 1);
  }

  /** Shared blocks are counted at least twice each. */
  lemma CountedTwice(family: seq<set<int>>, part: set<int>)
    requires part <= SharedBlocks(family)
    ensures Sum(Sizes(family, part)) >= 2 * |part|
  {
    var hi := if |family| < 2 then 2 else |family|;
    forall b | b in part ensures 2 <= Multiplicity(family, b) <= hi {
      SharedMultiplicity(family, b);
      MultiplicityBound(family);
    }
    DoubleCount(family, part, 2, hi);
  }

  lemma {:induction false} MultiplicityBound(family: seq<set<int>>)
    ensures forall b :: Multiplicity(family, b) <= |family|
  {
    if family != [] {
      MultiplicityBound(family[..|family| - 1]);
    }
  }
}
