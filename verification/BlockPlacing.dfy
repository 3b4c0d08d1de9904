/** Moving block sets elsewhere: every block goes to the place listed for it, and no count changes. */
module BlockPlacing {
  import opened Prelude
  import opened BlockRanges
  import opened SnapshotFamilies

  ghost function Placed(places: seq<int>, s: set<int>): set<int>
    requires s <= Interval(0, |places|)
  {
    set b | b in s :: places[b]
  }

  lemma InPlaced(places: seq<int>, s: set<int>, b: int)
    requires Distinct(places) && s <= Interval(0, |places|) && 0 <= b < |places|
    ensures places[b] in Placed(places, s) <==> b in s
  {
    if places[b] in Placed(places, s) {
      var c :| c in s && places[c] == places[b];
      assert c in Interval(0, |places|);
    }
  }

  lemma {:induction false} PlacedSize(places: seq<int>, s: set<int>)
    requires Distinct(places) && s <= Interval(0, |places|)
    ensures |Placed(places, s)| == |s|
    decreases |s|
  {
    if s != {} {
      var b := Pick(s);
      var rest := s - {b};
      PlacedSize(places, rest);
      assert b in Interval(0, |places|);
      InPlaced(places, rest, b);
      assert Placed(places, s) == Placed(places, rest) + {places[b]};
    }
  }

  lemma PlacedCommon(places: seq<int>, s: set<int>, t: set<int>)
    requires Distinct(places) && s <= Interval(0, |places|) && t <= Interval(0, |places|)
    ensures Placed(places, s) * Placed(places, t) == Placed(places, s * t)
  {
    forall p | p in Placed(places, s) && p in Placed(places, t) ensures p in Placed(places, s * t) {
      var b :| b in s && places[b] == p;
      assert b in Interval(0, |places|);
      InPlaced(places, t, b);
    }
  }

  ghost function PlacedAll(places: seq<int>, family: seq<set<int>>): seq<set<int>>
    requires forall i :: 0 <= i < |family| ==> family[i] <= Interval(0, |places|)
  {
    seq(|family|, i requires 0 <= i < |family| => Placed(places, family[i]))
  }

  lemma UnionInside(family: seq<set<int>>, n: int)
    requires forall i :: 0 <= i < |family| ==> family[i] <= Interval(0, n)
    ensures UnionOf(family) <= Interval(0, n) && forall i :: Others(family, i) <= Interval(0, n)
  {
    forall b | b in UnionOf(family) ensures b in Interval(0, n) {
      var i :| 0 <= i < |family| && b in family[i];
    }
    forall i, b | b in Others(family, i) ensures b in Interval(0, n) {
      var j :| 0 <= j < |family| && j != i && b in family[j];
    }
  }

  lemma PlacedUnion(places: seq<int>, family: seq<set<int>>)
    requires forall i :: 0 <= i < |family| ==> family[i] <= Interval(0, |places|)
    ensures UnionOf(family) <= Interval(0, |places|)
    ensures UnionOf(PlacedAll(places, family)) == Placed(places, UnionOf(family))
  {
    UnionInside(family, |places|);
    var moved := PlacedAll(places, family);
    forall p ensures p in UnionOf(moved) <==> p in Placed(places, UnionOf(family)) {
      if p in UnionOf(moved) {
        var i :| 0 <= i < |moved| && p in moved[i];
        var b :| b in family[i] && places[b] == p;
        assert b in UnionOf(family);
      }
      if p in Placed(places, UnionOf(family)) {
        var b :| b in UnionOf(family) && places[b] == p;
        var i :| 0 <= i < |family| && b in family[i];
        assert p in moved[i];
      }
    }
  }

  lemma PlacedOthers(places: seq<int>, family: seq<set<int>>, i: int)
    requires forall k :: 0 <= k < |family| ==> family[k] <= Interval(0, |places|)
    ensures Others(family, i) <= Interval(0, |places|)
    ensures Others(PlacedAll(places, family), i) == Placed(places, Others(family, i))
  {
    UnionInside(family, |places|);
    var moved := PlacedAll(places, family);
    forall p ensures p in Others(moved, i) <==> p in Placed(places, Others(family, i)) {
      if p in Others(moved, i) {
        var j :| 0 <= j < |moved| && j != i && p in moved[j];
        var b :| b in family[j] && places[b] == p;
        assert b in Others(family, i);
      }
      if p in Placed(places, Others(family, i)) {
        var b :| b in Others(family, i) && places[b] == p;
        var j :| 0 <= j < |family| && j != i && b in family[j];
        assert p in moved[j];
      }
    }
  }

  /** Moving a family keeps each member's size, what it shares with the others, and the union. */
  lemma MovedCounts(places: seq<int>, family: seq<set<int>>)
    requires Distinct(places) && forall i :: 0 <= i < |family| ==> family[i] <= Interval(0, |places|)
    ensures |UnionOf(PlacedAll(places, family))| == |UnionOf(family)|
    ensures forall i {:trigger Others(family, i)} :: 0 <= i < |family| ==> var moved := PlacedAll(places, family);
      |moved[i]| == |family[i]| && |moved[i] * Others(moved, i)| == |family[i] * Others(family, i)|
  {
    PlacedUnion(places, family);
    PlacedSize(places, UnionOf(family));
    forall i | 0 <= i < |family|
      ensures var moved := PlacedAll(places, family);
        |moved[i]| == |family[i]| && |moved[i] * Others(moved, i)| == |family[i] * Others(family, i)|
    {
      PlacedOthers(places, family, i);
      PlacedSize(places, family[i]);
      PlacedCommon(places, family[i], Others(family, i));
      PlacedSize(places, family[i] * Others(family, i));
    }
  }

  /** The n places from `from` on. */
  ghost function From(from: int, n: nat): (places: seq<int>)
    ensures Distinct(places) && |places| == n
  {
    seq(n, i => from + i)
  }

  lemma PlacedFrom(from: int, n: nat)
    ensures Placed(From(from, n), Interval(0, n)) == Interval(from, from + n)
  {
    var places := From(from, n);
    forall p | p in Interval(from, from + n) ensures p in Placed(places, Interval(0, n)) {
      assert p - from in Interval(0, n) && places[p - from] == p;
    }
  }

  /** Every set can be listed without repetition. */
  lemma {:induction false} Listing(s: set<int>) returns (places: seq<int>)
    ensures Distinct(places) && |places| == |s| && forall i :: 0 <= i < |places| ==> places[i] in s
    decreases |s|
  {
    places := [];
    if s != {} {
      var b := Pick(s);
      var rest := Listing(s - {b});
      places := rest + [b];
    }
  }
}
