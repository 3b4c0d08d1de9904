/** What the attribution tests mean: which block sets pass them, and which counts have block sets behind them. */
module AttributionExactness {
  import opened BlockRanges
  import opened SnapshotFamilies
  import opened SnapshotAttribution

  // ---- Every family of block sets passes ----

  ghost function RowsOf(family: seq<set<int>>, live: set<int>, kept: set<int>): seq<Measures> {
    seq(|family|, i requires 0 <= i < |family| => MeasuresOf(family[i], live, Others(family, i), kept))
  }

  lemma SplitSize(a: set<int>, b: set<int>)
    ensures |a| == |a * b| + |a - b|
  {
    assert a == (a * b) + (a - b);
  }

  lemma SubsetSize(a: set<int>, b: set<int>)
    requires a <= b
    ensures |a| <= |b|
  {
    assert b == a + (b - a);
  }

  /** The counts of any four sets pass the row test of any union that holds the snapshot. */
  lemma RowOfSets(refs: set<int>, live: set<int>, others: set<int>, kept: set<int>, union: nat, capacity: nat)
    requires |refs| <= union <= capacity
    ensures RowAccepted(MeasuresOf(refs, live, others, kept), union, capacity)
  {
    var unique := refs - (live + others);
    SplitSize(refs, live);
    SplitSize(refs, others);
    SplitSize(refs, kept);
    SplitSize(unique, kept);
    SubsetSize(unique, refs - live);
    SubsetSize(unique, refs - others);
    SubsetSize(unique - kept, refs - kept);
    SubsetSize(unique * kept, refs * kept);
    SubsetSize(refs - live, unique + (refs * others));
    assert |unique + (refs * others)| <= |unique| + |refs * others|;
  }

  lemma RowOfMember(family: seq<set<int>>, live: set<int>, kept: set<int>, capacity: nat, i: nat)
    requires |UnionOf(family)| <= capacity && i < |family|
    ensures var row := MeasuresOf(family[i], live, Others(family, i), kept);
      && RowAccepted(row, |UnionOf(family)|, capacity)
      && row.sharedWithOthers == |family[i] * SharedBlocks(family)| <= |SharedBlocks(family)|
      && row.referenced - row.sharedWithOthers == |family[i] * (UnionOf(family) - SharedBlocks(family))|
  {
    MemberInUnion(family, i);
    SubsetSize(family[i], UnionOf(family));
    RowOfSets(family[i], live, Others(family, i), kept, |UnionOf(family)|, capacity);
    SharedPart(family, i);
    SplitSize(family[i], Others(family, i));
    SubsetSize(family[i] * SharedBlocks(family), SharedBlocks(family));
  }

  lemma RowSums(family: seq<set<int>>, live: set<int>, kept: set<int>, capacity: nat)
    requires |UnionOf(family)| <= capacity
    ensures var rows := RowsOf(family, live, kept);
      && Shared(rows) == Sizes(family, SharedBlocks(family))
      && Exclusive(rows) == Sizes(family, UnionOf(family) - SharedBlocks(family))
      && Sum(Exclusive(rows)) == Sum(Referenced(rows)) - Sum(Shared(rows))
  {
    var rows := RowsOf(family, live, kept);
    forall i | 0 <= i < |family|
      ensures Shared(rows)[i] == Sizes(family, SharedBlocks(family))[i]
      ensures Exclusive(rows)[i] == Sizes(family, UnionOf(family) - SharedBlocks(family))[i]
    {
      RowOfMember(family, live, kept, capacity, i);
    }
    SumDifference(Referenced(rows), Shared(rows), Exclusive(rows));
  }

  /** Completeness: real block sets within capacity pass every row test and every inventory test of their kind. */
  lemma FamilyAccepted(family: seq<set<int>>, live: set<int>, kept: set<int>, capacity: nat)
    requires |UnionOf(family)| <= capacity
    ensures KindAccepted(RowsOf(family, live, kept), |UnionOf(family)|, capacity)
  {
    RowSums(family, live, kept, capacity);
    FamilyCounts(family);
    forall i | 0 <= i < |family|
      ensures RowAccepted(RowsOf(family, live, kept)[i], |UnionOf(family)|, capacity)
      ensures RowsOf(family, live, kept)[i].sharedWithOthers <= |SharedBlocks(family)|
    {
      RowOfMember(family, live, kept, capacity, i);
    }
  }

  ghost function ReportOf(metadata: seq<set<int>>, payload: seq<set<int>>,
                          liveMetadata: set<int>, livePayload: set<int>, kept: set<int>): seq<SnapshotRow>
    requires |metadata| == |payload|
  {
    seq(|metadata|, i requires 0 <= i < |metadata| => SnapshotRow(
      MeasuresOf(metadata[i], liveMetadata, Others(metadata, i), kept),
      MeasuresOf(payload[i], livePayload, Others(payload, i), kept)))
  }

  /** Completeness for a whole report: metadata inside the catalog, payload outside it, no empty metadata set. */
  lemma ReportAccepted(metadata: seq<set<int>>, payload: seq<set<int>>, catalog: set<int>,
                       liveMetadata: set<int>, livePayload: set<int>, kept: set<int>, capacity: nat)
    requires |metadata| == |payload| && forall i :: 0 <= i < |metadata| ==> metadata[i] != {}
    requires catalog != {} && UnionOf(metadata) <= catalog && catalog !! UnionOf(payload)
    requires catalog + UnionOf(payload) <= Interval(0, capacity)
    ensures InventoryAccepted(ReportOf(metadata, payload, liveMetadata, livePayload, kept),
                              |UnionOf(metadata)|, |UnionOf(payload)|, |catalog|, capacity)
  {
    IntervalSize(0, capacity);
    SubsetSize(UnionOf(metadata), catalog);
    SubsetSize(catalog + UnionOf(payload), Interval(0, capacity));
    DisjointSize(catalog, UnionOf(payload));
    FamilyAccepted(metadata, liveMetadata, kept, capacity);
    FamilyAccepted(payload, livePayload, kept, capacity);
    var rows := ReportOf(metadata, payload, liveMetadata, livePayload, kept);
    assert Kind(rows, true) == RowsOf(metadata, liveMetadata, kept);
    assert Kind(rows, false) == RowsOf(payload, livePayload, kept);
    EmptyIsZero(metadata);
  }

  lemma EmptyIsZero(family: seq<set<int>>)
    ensures forall i :: 0 <= i < |family| && family[i] != {} ==> |family[i]| > 0
  {
  }

  lemma DisjointSize(a: set<int>, b: set<int>)
    requires a !! b
    ensures |a + b| == |a| + |b|
  {
  }

  // ---- The row test is exact ----

  lemma IntervalParts(lo: int, hi: int, from: int, to: int)
    requires lo <= from <= to <= hi
    ensures Interval(lo, hi) * Interval(from, to) == Interval(from, to)
    ensures Interval(lo, hi) - Interval(from, to) == Interval(lo, from) + Interval(to, hi)
  {
  }

  lemma InsideInterval(r: nat, from: nat, to: nat)
    requires from <= to <= r
    ensures |Interval(0, r) * Interval(from, to)| == to - from
    ensures |Interval(0, r) - Interval(from, to)| == r - (to - from)
  {
    IntervalParts(0, r, from, to);
    IntervalSize(from, to);
    IntervalSize(0, r);
    SplitSize(Interval(0, r), Interval(from, to));
  }

  lemma UniqueInterval(r: nat, u: nat, l: nat, s: nat, c: nat, p: nat)
    requires u + l <= r && u <= r - s <= u + l && c <= u <= c + p
    ensures Interval(0, r) - (Interval(u, u + l) + Interval(r - s, r)) == Interval(0, u)
    ensures Interval(0, u) - Interval(c, c + p) == Interval(0, c)
  {
  }

  lemma MeasuresAre(m: Measures, refs: set<int>, live: set<int>, others: set<int>, kept: set<int>, unique: set<int>)
    requires unique == refs - (live + others)
    requires |refs| == m.referenced && |refs * live| == m.sharedWithLive && |refs - live| == m.absentFromLive
    requires |refs * others| == m.sharedWithOthers && |refs * kept| == m.protectedBlocks
    requires |unique| == m.unique && |unique - kept| == m.candidate
    ensures m == MeasuresOf(refs, live, others, kept)
  {
  }

  lemma ThreeInside(r: nat, u: nat, l: nat, s: nat, c: nat, p: nat)
    requires u + l <= r && s <= r && c + p <= r
    ensures |Interval(0, r)| == r
    ensures |Interval(0, r) * Interval(u, u + l)| == l && |Interval(0, r) - Interval(u, u + l)| == r - l
    ensures |Interval(0, r) * Interval(r - s, r)| == s
    ensures |Interval(0, r) * Interval(c, c + p)| == p
  {
    InsideInterval(r, u, u + l);
    InsideInterval(r, r - s, r);
    InsideInterval(r, c, c + p);
    IntervalSize(0, r);
  }

  lemma WitnessSizes(m: Measures, union: nat, capacity: nat)
    requires RowAccepted(m, union, capacity)
    ensures var r := m.referenced;
      && |Interval(0, r)| == r
      && |Interval(0, r) * Interval(m.unique, m.unique + m.sharedWithLive)| == m.sharedWithLive
      && |Interval(0, r) - Interval(m.unique, m.unique + m.sharedWithLive)| == r - m.sharedWithLive
      && |Interval(0, r) * Interval(r - m.sharedWithOthers, r)| == m.sharedWithOthers
      && |Interval(0, r) * Interval(m.candidate, m.candidate + m.protectedBlocks)| == m.protectedBlocks
  {
    ThreeInside(m.referenced, m.unique, m.sharedWithLive, m.sharedWithOthers, m.candidate, m.protectedBlocks);
  }

  lemma WitnessUnique(m: Measures, union: nat, capacity: nat)
    requires RowAccepted(m, union, capacity)
    ensures var r := m.referenced;
      && Interval(0, m.unique) == Interval(0, r) - (Interval(m.unique, m.unique + m.sharedWithLive) + Interval(r - m.sharedWithOthers, r))
      && |Interval(0, m.unique)| == m.unique
      && |Interval(0, m.unique) - Interval(m.candidate, m.candidate + m.protectedBlocks)| == m.candidate
  {
    UniqueInterval(m.referenced, m.unique, m.sharedWithLive, m.sharedWithOthers, m.candidate, m.protectedBlocks);
    IntervalSize(0, m.unique);
    IntervalSize(0, m.candidate);
  }

  /** Seven counts that pass come from four intervals of blocks. */
  lemma RowWitness(m: Measures, union: nat, capacity: nat) returns (refs: set<int>, live: set<int>, others: set<int>, kept: set<int>)
    requires RowAccepted(m, union, capacity)
    ensures |refs| == m.referenced && m == MeasuresOf(refs, live, others, kept)
  {
    WitnessSizes(m, union, capacity);
    WitnessUnique(m, union, capacity);
    refs, live := Interval(0, m.referenced), Interval(m.unique, m.unique + m.sharedWithLive);
    others, kept := Interval(m.referenced - m.sharedWithOthers, m.referenced), Interval(m.candidate, m.candidate + m.protectedBlocks);
    MeasuresAre(m, refs, live, others, kept, Interval(0, m.unique));
  }

  /** Tightness: a row passes exactly when some snapshot, live view, other snapshots and protected set have its counts. */
  lemma RowTestIsExact(m: Measures, union: nat, capacity: nat)
    requires union <= capacity
    ensures RowAccepted(m, union, capacity) <==>
      exists refs, live, others, kept :: |refs| <= union && m == MeasuresOf(refs, live, others, kept)
  {
    if RowAccepted(m, union, capacity) {
      var refs, live, others, kept := RowWitness(m, union, capacity);
    }
    if refs, live, others, kept :| |refs| <= union && m == MeasuresOf(refs, live, others, kept) {
      RowOfSets(refs, live, others, kept, union, capacity);
    }
  }

  // ---- The inventory test on referenced, shared and union counts is exact ----

  /** The residues modulo d that a run of `len` positions starting at p meets. */
  ghost function Arc(p: nat, len: nat, d: nat): set<int>
    requires len <= d
  {
    if d == 0 then {}
    else if p % d + len <= d then Interval(p % d, p % d + len)
    else Interval(p % d, d) + Interval(0, p % d + len - d)
  }

  lemma ArcSize(p: nat, len: nat, d: nat)
    requires len <= d
    ensures |Arc(p, len, d)| == len && Arc(p, len, d) <= Interval(0, d)
  {
    if d > 0 {
      var a := p % d;
      if a + len <= d {
        IntervalSize(a, a + len);
      } else {
        IntervalSize(a, d);
        IntervalSize(0, a + len - d);
        DisjointSize(Interval(a, d), Interval(0, a + len - d));
      }
    }
  }

  lemma FirstLaps(p: nat, d: nat)
    requires 0 < d && p < 2 * d
    ensures p % d == if p < d then p else p - d
  {
    if p < d {
      assert p / d == 0;
    } else {
      assert p / d == 1;
    }
  }

  /** An arc that runs over position c or, a lap later, c + d, holds the residue c. */
  lemma ArcHolds(p: nat, len: nat, d: nat, c: nat)
    requires len <= d && c < d
    requires p <= c < p + len || p <= c + d < p + len
    ensures c in Arc(p, len, d)
  {
    FirstLaps(p, d);
  }

  ghost function Start(s: seq<nat>, i: int): int
    requires 0 <= i <= |s|
  {
    Sum(s[..i])
  }

  /** Laying lengths end to end, every position below their sum falls into one of them. */
  lemma {:induction false} Locate(s: seq<nat>, x: nat) returns (i: nat)
    requires x < Sum(s)
    ensures i < |s| && Start(s, i) <= x < Start(s, i) + s[i]
  {
    var n := |s| - 1;
    if x < Sum(s[..n]) {
      i := Locate(s[..n], x);
      assert s[..n][..i] == s[..i];
    } else {
      i := n;
    }
  }

  lemma StartNext(s: seq<nat>, i: nat)
    requires i < |s|
    ensures Start(s, i + 1) == Start(s, i) + s[i]
    ensures 0 <= Start(s, i) && Start(s, i + 1) <= Sum(s)
  {
    TakeNext(s, i);
    SumPrefix(s, i + 1);
    SumNonnegative(s[..i]);
  }

  lemma {:induction false} StartsOrdered(s: seq<nat>, i: nat, j: nat)
    requires i <= j <= |s|
    ensures Start(s, i) <= Start(s, j)
    decreases j - i
  {
    if i < j {
      StartsOrdered(s, i, j - 1);
      StartNext(s, j - 1);
    }
  }

  ghost predicate SharedFit(shared: seq<nat>, d: nat) {
    && (forall i :: 0 <= i < |shared| ==> shared[i] <= d)
    && Sum(shared) >= 2 * d
  }

  ghost function Own(alone: seq<nat>, d: nat, i: int): set<int>
    requires 0 <= i < |alone|
  {
    Interval(d + Start(alone, i), d + Start(alone, i) + alone[i])
  }

  /** Member i: an arc of the d shared blocks, followed by its own run of exclusive blocks. */
  ghost function Member(shared: seq<nat>, alone: seq<nat>, d: nat, i: int): set<int>
    requires |shared| == |alone| && SharedFit(shared, d) && 0 <= i < |shared|
  {
    SumNonnegative(shared[..i]);
    Arc(Start(shared, i), shared[i], d) + Own(alone, d, i)
  }

  ghost function Members(shared: seq<nat>, alone: seq<nat>, d: nat): seq<set<int>>
    requires |shared| == |alone| && SharedFit(shared, d)
  {
    seq(|shared|, i requires 0 <= i < |shared| => Member(shared, alone, d, i))
  }

  lemma OwnSize(alone: seq<nat>, d: nat, i: nat)
    requires i < |alone|
    ensures |Own(alone, d, i)| == alone[i]
    ensures forall b <- Own(alone, d, i) :: d <= b < d + Sum(alone)
  {
    StartNext(alone, i);
    IntervalSize(d + Start(alone, i), d + Start(alone, i) + alone[i]);
  }

  lemma MemberParts(shared: seq<nat>, alone: seq<nat>, d: nat, i: nat)
    requires |shared| == |alone| && SharedFit(shared, d) && i < |shared|
    ensures |Member(shared, alone, d, i)| == shared[i] + alone[i]
    ensures Member(shared, alone, d, i) <= Interval(0, d + Sum(alone))
    ensures |Member(shared, alone, d, i) * Interval(0, d)| == shared[i]
  {
    SumNonnegative(shared[..i]);
    SumNonnegative(alone);
    ArcSize(Start(shared, i), shared[i], d);
    OwnSize(alone, d, i);
    Layered(Arc(Start(shared, i), shared[i], d), Own(alone, d, i), d);
  }

  lemma Layered(arc: set<int>, own: set<int>, d: nat)
    requires arc <= Interval(0, d) && forall b <- own :: d <= b
    ensures |arc + own| == |arc| + |own|
    ensures (arc + own) * Interval(0, d) == arc
  {
    DisjointSize(arc, own);
  }

  /** Every one of the d shared blocks lies on two different arcs. */
  lemma TwoArcs(shared: seq<nat>, alone: seq<nat>, d: nat, c: nat) returns (i: nat, j: nat)
    requires |shared| == |alone| && SharedFit(shared, d) && c < d
    ensures i < |shared| && j < |shared| && i != j
    ensures c in Member(shared, alone, d, i) && c in Member(shared, alone, d, j)
  {
    i := Locate(shared, c);
    j := Locate(shared, c + d);
    SumNonnegative(shared[..i]);
    SumNonnegative(shared[..j]);
    ArcHolds(Start(shared, i), shared[i], d, c);
    ArcHolds(Start(shared, j), shared[j], d, c);
  }

  /** Two members never share a block past the first d. */
  lemma OwnRunsApart(shared: seq<nat>, alone: seq<nat>, d: nat, i: nat, j: nat, b: int)
    requires |shared| == |alone| && SharedFit(shared, d) && i < j < |shared|
    requires b in Member(shared, alone, d, i) && b in Member(shared, alone, d, j)
    ensures b < d
  {
    SumNonnegative(shared[..i]);
    SumNonnegative(shared[..j]);
    ArcSize(Start(shared, i), shared[i], d);
    ArcSize(Start(shared, j), shared[j], d);
    StartNext(alone, i);
    StartsOrdered(alone, i + 1, j);
  }

  lemma MemberShares(shared: seq<nat>, alone: seq<nat>, d: nat, i: nat, b: int)
    requires |shared| == |alone| && SharedFit(shared, d) && i < |shared| && b in Members(shared, alone, d)[i]
    ensures b >= 0 && (b in Others(Members(shared, alone, d), i) <==> b < d)
  {
    var family := Members(shared, alone, d);
    MemberParts(shared, alone, d, i);
    assert b in Interval(0, d + Sum(alone));
    if b < d {
      var j, k := TwoArcs(shared, alone, d, b);
      assert b in family[j] && b in family[k];
    }
    if b in Others(family, i) {
      var j :| 0 <= j < |family| && j != i && b in family[j];
      if i < j {
        OwnRunsApart(shared, alone, d, i, j, b);
      } else {
        OwnRunsApart(shared, alone, d, j, i, b);
      }
    }
  }

  lemma MembersShare(shared: seq<nat>, alone: seq<nat>, d: nat, i: nat)
    requires |shared| == |alone| && SharedFit(shared, d) && i < |shared|
    ensures var family := Members(shared, alone, d);
      family[i] * Others(family, i) == family[i] * Interval(0, d)
  {
    var family := Members(shared, alone, d);
    MemberParts(shared, alone, d, i);
    forall b | b in family[i] ensures b in Others(family, i) <==> b in Interval(0, d) {
      MemberShares(shared, alone, d, i, b);
      assert 0 <= b;
    }
  }

  lemma MembersCoverBlock(shared: seq<nat>, alone: seq<nat>, d: nat, b: nat)
    requires |shared| == |alone| && SharedFit(shared, d) && b < d + Sum(alone)
    ensures b in UnionOf(Members(shared, alone, d))
  {
    var family := Members(shared, alone, d);
    if b < d {
      var i, j := TwoArcs(shared, alone, d, b);
      assert b in family[i];
    } else {
      var i := Locate(alone, b - d);
      assert b in Own(alone, d, i);
      assert b in family[i];
    }
  }

  lemma MembersCover(shared: seq<nat>, alone: seq<nat>, d: nat)
    requires |shared| == |alone| && SharedFit(shared, d)
    ensures UnionOf(Members(shared, alone, d)) == Interval(0, d + Sum(alone))
  {
    var family := Members(shared, alone, d);
    forall i | 0 <= i < |family| ensures family[i] <= Interval(0, d + Sum(alone)) {
      MemberParts(shared, alone, d, i);
    }
    forall b | b in Interval(0, d + Sum(alone)) ensures b in UnionOf(family) {
      MembersCoverBlock(shared, alone, d, b);
    }
  }

  /** A family of block sets has these referenced and shared counts and this union. */
  ghost predicate HasCounts(family: seq<set<int>>, rows: seq<Measures>, union: nat) {
    && |family| == |rows|
    && |UnionOf(family)| == union
    && forall i :: 0 <= i < |rows| ==>
         |family[i]| == rows[i].referenced && |family[i] * Others(family, i)| == rows[i].sharedWithOthers
  }

  /** The inventory test's part that compares rows with each other. */
  ghost predicate CountsAccepted(rows: seq<Measures>, union: nat) {
    && (forall i :: 0 <= i < |rows| ==> rows[i].sharedWithOthers <= rows[i].referenced)
    && Sum(Exclusive(rows)) <= union <= Sum(Referenced(rows))
    && Sum(Shared(rows)) >= 2 * (union - Sum(Exclusive(rows)))
    && (forall i :: 0 <= i < |rows| ==> rows[i].sharedWithOthers <= union - Sum(Exclusive(rows)))
  }

  /** Accepted counts have block sets: arcs wound around the shared blocks, twice or more over each of them. */
  lemma CountsWitness(rows: seq<Measures>, union: nat) returns (family: seq<set<int>>)
    requires CountsAccepted(rows, union)
    ensures HasCounts(family, rows, union)
  {
    var shared: seq<nat> := seq(|rows|, i requires 0 <= i < |rows| => rows[i].sharedWithOthers);
    var alone: seq<nat> := seq(|rows|, i requires 0 <= i < |rows| => rows[i].referenced - rows[i].sharedWithOthers);
    assert shared == Shared(rows) && alone == Exclusive(rows);
    SumNonnegative(alone);
    var d := union - Sum(alone);
    family := Members(shared, alone, d);
    MembersCover(shared, alone, d);
    IntervalSize(0, union);
    forall i | 0 <= i < |rows|
      ensures |family[i]| == rows[i].referenced && |family[i] * Others(family, i)| == rows[i].sharedWithOthers
    {
      MemberParts(shared, alone, d, i);
      MembersShare(shared, alone, d, i);
    }
  }

  /** A kind that the whole validation accepts has block sets behind its referenced, shared and union counts. */
  lemma AcceptedKindHasSets(rows: seq<Measures>, union: nat, capacity: nat)
    requires KindAccepted(rows, union, capacity)
    ensures exists family :: HasCounts(family, rows, union)
  {
    var family := CountsWitness(rows, union);
  }

  lemma CountsOfFamily(family: seq<set<int>>, rows: seq<Measures>, union: nat)
    requires HasCounts(family, rows, union)
    ensures CountsAccepted(rows, union)
  {
    var actual := RowsOf(family, {}, {});
    FamilyAccepted(family, {}, {}, union);
    forall i | 0 <= i < |rows|
      ensures actual[i].sharedWithOthers == rows[i].sharedWithOthers && actual[i].referenced == rows[i].referenced
    {
    }
    SameCounts(actual, rows, union);
  }

  lemma SameCounts(actual: seq<Measures>, rows: seq<Measures>, union: nat)
    requires |actual| == |rows| && KindAccepted(actual, union, union)
    requires forall i :: 0 <= i < |rows| ==>
      actual[i].sharedWithOthers == rows[i].sharedWithOthers && actual[i].referenced == rows[i].referenced
    ensures CountsAccepted(rows, union)
  {
    assert Referenced(actual) == Referenced(rows);
    assert Shared(actual) == Shared(rows);
    assert Exclusive(actual) == Exclusive(rows);
  }

  /** Exactness of the inventory test: its counts pass if and only if some family of block sets has them. */
  lemma InventoryTestIsExact(rows: seq<Measures>, union: nat)
    ensures CountsAccepted(rows, union) <==> exists family :: HasCounts(family, rows, union)
  {
    if CountsAccepted(rows, union) {
      var family := CountsWitness(rows, union);
    }
    if family :| HasCounts(family, rows, union) {
      CountsOfFamily(family, rows, union);
    }
  }

  lemma SumOfTwo(x: int, y: int)
    ensures Sum([x, y]) == x + y
  {
    assert [x, y] == [x] + [y] && [x] == [] + [x];
    SumInit([x], y);
    SumInit([], x);
  }
}
