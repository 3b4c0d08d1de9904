/** Which literal unions are possible inside given payloads: an interval always, and for two views its exact ends. */
module LiteralPlaces {
  import opened Prelude
  import opened BlockRanges
  import opened SnapshotFamilies
  import opened MarkedReferences
  import Exact = AttributionExactness

  // ---- Any number of views: nothing between two possible unions is impossible ----

  /** Where the first family's members hold blocks that the second's do not. */
  ghost function Apart(a: seq<set<int>>, b: seq<set<int>>): set<(int, int)>
    requires |a| == |b|
  {
    set i, x | 0 <= i < |a| && x in a[i] && x !in b[i] :: (i, x)
  }

  lemma Exchange(s: set<int>, t: set<int>) returns (x: int, y: int)
    requires |s| == |t| && s != t
    ensures x in s && x !in t && y in t && y !in s
  {
    Exact.SplitSize(s, t);
    Exact.SplitSize(t, s);
    assert s * t == t * s && s == (s * t) + (s - t) && t == (s * t) + (t - s);
    x := Pick(s - t);
    y := Pick(t - s);
  }

  /** One member gives up a block the target lacks for one the target has: no size changes and the union gains one block at most. */
  lemma OneExchange(a: seq<set<int>>, b: seq<set<int>>, i: nat, x: int, y: int)
    requires |a| == |b| && i < |a| && x in a[i] && x !in b[i] && y in b[i] && y !in a[i]
    ensures var c := a[i := a[i] - {x} + {y}];
      && |c[i]| == |a[i]| && Apart(c, b) < Apart(a, b) && |UnionOf(c)| <= |UnionOf(a)| + 1
  {
    var c := a[i := a[i] - {x} + {y}];
    assert (i, x) in Apart(a, b) && (i, x) !in Apart(c, b);
    assert |a[i] - {x}| == |a[i]| - 1;
    forall z | z in UnionOf(c) ensures z in UnionOf(a) + {y} {
      var k :| 0 <= k < |c| && z in c[k];
      assert z != y ==> z in a[k];
    }
    Exact.SubsetSize(UnionOf(c), UnionOf(a) + {y});
  }

  /** A literal union between two possible ones is possible, with the same sizes and inside the same payloads. */
  lemma {:induction false} Between(a: seq<set<int>>, b: seq<set<int>>, payload: seq<set<int>>, sizes: seq<nat>, union: nat)
    returns (literal: seq<set<int>>)
    requires FitsInside(a, payload, sizes, |UnionOf(a)|) && FitsInside(b, payload, sizes, |UnionOf(b)|)
    requires |UnionOf(a)| <= union <= |UnionOf(b)|
    ensures FitsInside(literal, payload, sizes, union)
    decreases Apart(a, b)
  {
    if |UnionOf(a)| == union {
      literal := a;
    } else {
      var i := Differing(a, b);
      assert |a[i]| == sizes[i] == |b[i]|;
      var x, y := Exchange(a[i], b[i]);
      OneExchange(a, b, i, x, y);
      literal := Between(a[i := a[i] - {x} + {y}], b, payload, sizes, union);
    }
  }

  lemma Differing(a: seq<set<int>>, b: seq<set<int>>) returns (i: nat)
    requires |a| == |b| && |UnionOf(a)| != |UnionOf(b)|
    ensures i < |a| && a[i] != b[i]
  {
    assert a != b;
    i :| 0 <= i < |a| && a[i] != b[i];
  }

  ghost predicate Possible(payload: seq<set<int>>, sizes: seq<nat>, union: nat) {
    exists literal :: FitsInside(literal, payload, sizes, union)
  }

  /** The possible unions of any payloads and sizes are all numbers from the smallest to the largest of them. */
  lemma PossibleIsAnInterval(payload: seq<set<int>>, sizes: seq<nat>, low: nat, high: nat, union: nat)
    requires Possible(payload, sizes, low) && Possible(payload, sizes, high)
    requires forall u: nat :: Possible(payload, sizes, u) ==> low <= u <= high
    ensures Possible(payload, sizes, union) <==> low <= union <= high
  {
    if low <= union <= high {
      var a :| FitsInside(a, payload, sizes, low);
      var b :| FitsInside(b, payload, sizes, high);
      var literal := Between(a, b, payload, sizes, union);
    }
  }

  // ---- Two views: the ends of the interval ----

  lemma TwoUnion(family: seq<set<int>>)
    requires |family| == 2
    ensures UnionOf(family) == family[0] + family[1]
  {
    forall b ensures b in UnionOf(family) <==> b in family[0] || b in family[1] {
      if b in family[0] || b in family[1] {
        assert exists i :: 0 <= i < |family| && b in family[i];
      }
    }
  }

  lemma Overlap(s: set<int>, t: set<int>)
    ensures |s + t| == |s| + |t| - |s * t|
  {
  }

  /** Two literal sets overlap inside the payloads' overlap and leave room for both in the payloads' union. */
  lemma TwoNeeds(s: set<int>, t: set<int>, p: set<int>, q: set<int>)
    requires s <= p && t <= q
    ensures |s| <= |p| && |t| <= |q|
    ensures |s| + |t| - Min(|s|, Min(|t|, |p * q|)) <= |s + t| <= Min(|s| + |t|, |p + q|)
  {
    Exact.SubsetSize(s, p);
    Exact.SubsetSize(t, q);
    Overlap(s, t);
    Exact.SubsetSize(s * t, s);
    Exact.SubsetSize(s * t, t);
    Exact.SubsetSize(s * t, p * q);
    Exact.SubsetSize(s + t, p + q);
  }

  lemma ThreeDisjoint(a: set<int>, b: set<int>, c: set<int>)
    requires a !! b && a !! c && b !! c
    ensures |a + b + c| == |a| + |b| + |c|
  {
    Exact.DisjointSize(a, b);
    Exact.DisjointSize(a + b, c);
  }

  /** With `shared` blocks in both: the rest of each set comes from its own part as far as it goes, then from the common part. */
  lemma TwoWitness(p: set<int>, q: set<int>, n: nat, m: nat, shared: nat) returns (s: set<int>, t: set<int>)
    requires n <= |p| && m <= |q| && shared <= n && shared <= m && shared <= |p * q| && n + m - shared <= |p + q|
    ensures s <= p && t <= q && |s| == n && |t| == m && |s + t| == n + m - shared
  {
    var both := p * q;
    Overlap(p, q);
    Exact.SplitSize(p, q);
    Exact.SplitSize(q, p);
    assert q * p == both;
    var a: nat := Max(0, n - shared - |p - q|);
    var b: nat := Max(0, m - shared - |q - p|);
    var common := Part(both, shared);
    Complement(both, common);
    var left := Part(both - common, a);
    Complement(both - common, left);
    var right := Part(both - common - left, b);
    var ownP, ownQ := Part(p - q, n - shared - a), Part(q - p, m - shared - b);
    s, t := common + left + ownP, common + right + ownQ;
    ThreeDisjoint(common, left, ownP);
    ThreeDisjoint(common, right, ownQ);
    Overlap(s, t);
    assert s * t == common;
  }

  /** For two views, exactly these unions are possible; the reported sizes and counts do not show the overlap they depend on. */
  lemma TwoViewsAreExact(payload: seq<set<int>>, sizes: seq<nat>, union: nat)
    requires |payload| == |sizes| == 2
    ensures Possible(payload, sizes, union) <==>
      && sizes[0] <= |payload[0]| && sizes[1] <= |payload[1]|
      && sizes[0] + sizes[1] - Min(sizes[0], Min(sizes[1], |payload[0] * payload[1]|)) <= union
      && union <= Min(sizes[0] + sizes[1], |payload[0] + payload[1]|)
  {
    if literal :| FitsInside(literal, payload, sizes, union) {
      TwoUnion(literal);
      TwoNeeds(literal[0], literal[1], payload[0], payload[1]);
    }
    if sizes[0] <= |payload[0]| && sizes[1] <= |payload[1]|
       && sizes[0] + sizes[1] - Min(sizes[0], Min(sizes[1], |payload[0] * payload[1]|)) <= union
       && union <= Min(sizes[0] + sizes[1], |payload[0] + payload[1]|)
    {
      var s, t := TwoWitness(payload[0], payload[1], sizes[0], sizes[1], sizes[0] + sizes[1] - union);
      TwoUnion([s, t]);
      assert FitsInside([s, t], payload, sizes, union);
    }
  }
}
