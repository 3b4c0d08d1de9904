/** Half-open ranges of 64-bit block addresses and the sets of blocks they stand for. */
module BlockRanges {

  const U64_MAX: nat := 0xFFFF_FFFF_FFFF_FFFF

  /** A range of blocks: start inclusive, end exclusive. */
  datatype Span = Span(start: nat, end: nat)

  ghost predicate Within(b: int, lo: int, hi: int) {
    lo <= b < hi
  }

  ghost function Interval(lo: int, hi: int): set<int> {
    set b | lo <= b < hi && Within(b, lo, hi)
  }

  /** The set of blocks a range list denotes, whatever its order or overlaps. */
  ghost function Blocks(s: seq<Span>): set<int> {
    if s == [] then {} else Blocks(s[..|s| - 1]) + Interval(s[|s| - 1].start, s[|s| - 1].end)
  }

  ghost predicate NonEmpty(s: seq<Span>) {
    forall i :: 0 <= i < |s| ==> s[i].start < s[i].end
  }

  /** Ranges are ordered and never touch. */
  ghost predicate Separated(s: seq<Span>) {
    forall i, j :: 0 <= i < j < |s| ==> s[i].end < s[j].start
  }

  /** The normal form of a block set: nonempty ranges, ordered, never touching. */
  ghost predicate Canonical(s: seq<Span>) {
    NonEmpty(s) && Separated(s)
  }

  ghost predicate Fits64(s: seq<Span>) {
    forall i :: 0 <= i < |s| ==> s[i].end <= U64_MAX
  }

  /** Sum of the lengths of a list of ranges. */
  ghost function Length(s: seq<Span>): int {
    if s == [] then 0 else Length(s[..|s| - 1]) + s[|s| - 1].end - s[|s| - 1].start
  }

  lemma IntervalSize(lo: int, hi: int)
    requires lo <= hi
    ensures |Interval(lo, hi)| == hi - lo
    decreases hi - lo
  {
    if lo < hi {
      IntervalSize(lo, hi - 1);
      assert Interval(lo, hi) == Interval(lo, hi - 1) + {hi - 1};
    } else {
      assert Interval(lo, hi) == {};
    }
  }

  lemma BlocksAppend(s: seq<Span>, r: Span)
    ensures Blocks(s + [r]) == Blocks(s) + Interval(r.start, r.end)
  {
    assert (s + [r])[..|s|] == s;
  }

  lemma {:induction false} BlocksConcat(s: seq<Span>, t: seq<Span>)
    ensures Blocks(s + t) == Blocks(s) + Blocks(t)
  {
    if t == [] {
      assert s + t == s;
    } else {
      BlocksConcat(s, t[..|t| - 1]);
      assert (s + t)[..|s + t| - 1] == s + t[..|t| - 1];
    }
  }

  /** A block belongs to the denotation exactly when some range of the list contains it. */
  lemma {:induction false} InBlocks(s: seq<Span>, b: int)
    ensures b in Blocks(s) <==> exists i :: 0 <= i < |s| && s[i].start <= b < s[i].end
  {
    if s != [] {
      var p := s[..|s| - 1];
      InBlocks(p, b);
      if b in Blocks(p) {
        var i :| 0 <= i < |p| && p[i].start <= b < p[i].end;
        assert s[i] == p[i];
      }
      if i :| 0 <= i < |s| && s[i].start <= b < s[i].end {
        assert i == |s| - 1 || s[i] == p[i];
      }
    }
  }

  lemma BlocksSameElements(s: seq<Span>, t: seq<Span>)
    requires multiset(s) == multiset(t)
    ensures Blocks(s) == Blocks(t)
    ensures NonEmpty(s) <==> NonEmpty(t)
  {
    forall r ensures r in s <==> r in t {
      assert r in s <==> r in multiset(s);
      assert r in t <==> r in multiset(t);
    }
    assert forall i :: 0 <= i < |s| ==> s[i] in t;
    assert forall i :: 0 <= i < |t| ==> t[i] in s;
    forall b ensures b in Blocks(s) <==> b in Blocks(t) {
      InBlocks(s, b);
      InBlocks(t, b);
    }
  }

  /** Every block of a normal form lies between its first start and its last end. */
  lemma {:induction false} BlocksBounds(s: seq<Span>)
    requires Canonical(s) && s != []
    ensures forall b <- Blocks(s) :: s[0].start <= b < s[|s| - 1].end
  {
    if |s| > 1 {
      BlocksBounds(s[..|s| - 1]);
    }
  }

  /** On a normal form, adding up lengths counts blocks, and no prefix sum exceeds the end reached. */
  lemma {:induction false} LengthIsSize(s: seq<Span>)
    requires Canonical(s)
    ensures Length(s) == |Blocks(s)|
    ensures s != [] ==> Length(s) <= s[|s| - 1].end
  {
    if s != [] {
      var p, r := s[..|s| - 1], s[|s| - 1];
      LengthIsSize(p);
      IntervalSize(r.start, r.end);
      if p != [] {
        BlocksBounds(p);
      }
      assert |Blocks(p) + Interval(r.start, r.end)| == |Blocks(p)| + |Interval(r.start, r.end)|;
    }
  }

  /** The first range of a normal form is its first run of blocks, and the rest starts past it. */
  lemma FirstRun(s: seq<Span>)
    requires Canonical(s) && s != []
    ensures Canonical(s[1..])
    ensures Blocks(s) == Interval(s[0].start, s[0].end) + Blocks(s[1..])
    ensures forall b <- Blocks(s[1..]) :: s[0].end < b
  {
    assert s == [s[0]] + s[1..];
    BlocksConcat([s[0]], s[1..]);
    BlocksAppend([], s[0]);
    assert [] + [s[0]] == [s[0]];
    if |s| > 1 {
      BlocksBounds(s[1..]);
    }
  }

  lemma RunsAgree(a: Span, x: set<int>, b: Span, y: set<int>)
    requires a.start < a.end && b.start < b.end
    requires forall e <- x :: a.end < e
    requires forall e <- y :: b.end < e
    requires Interval(a.start, a.end) + x == Interval(b.start, b.end) + y
    ensures a == b && x == y
  {
    var u, v := Interval(a.start, a.end) + x, Interval(b.start, b.end) + y;
    assert a.start in u && b.start in v;
    assert a.start == b.start;
    assert a.end !in u && b.end !in v;
    assert a.end - 1 in u && b.end - 1 in v;
    assert a.end == b.end;
    assert x == u - Interval(a.start, a.end);
    assert y == v - Interval(a.start, a.end);
  }

  lemma HoldsABlock(s: seq<Span>)
    requires Canonical(s)
    ensures s == [] <==> Blocks(s) == {}
  {
    if s != [] {
      FirstRun(s);
      assert s[0].start in Blocks(s);
    }
  }

  lemma SameFirstRun(s: seq<Span>, t: seq<Span>)
    requires Canonical(s) && Canonical(t) && s != [] && t != [] && Blocks(s) == Blocks(t)
    ensures s[0] == t[0] && Blocks(s[1..]) == Blocks(t[1..]) && Canonical(s[1..]) && Canonical(t[1..])
  {
    FirstRun(s);
    FirstRun(t);
    RunsAgree(s[0], Blocks(s[1..]), t[0], Blocks(t[1..]));
  }

  /** A block set has one normal form: canonical lists that denote the same blocks are the same list. */
  lemma {:induction false} CanonicalIsUnique(s: seq<Span>, t: seq<Span>)
    requires Canonical(s) && Canonical(t)
    requires Blocks(s) == Blocks(t)
    ensures s == t
  {
    HoldsABlock(s);
    HoldsABlock(t);
    if s != [] {
      SameFirstRun(s, t);
      CanonicalIsUnique(s[1..], t[1..]);
      assert s == [s[0]] + s[1..] && t == [t[0]] + t[1..];
    }
  }
}
