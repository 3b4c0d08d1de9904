/** Shared container space: reserves, quotas and the availability each volume is told. */
module SharedSpace {
  import opened Prelude

  datatype Amount = Amount(blocks: nat, bytes: nat)

  datatype VolumeSpace = VolumeSpace(
    id: string, drawn: Amount, reserve: Option<Amount>, quota: Option<Amount>,
    available: Amount, siblingReserve: Amount)

  datatype Projection = Projection(unit: nat, total: Amount, free: Amount, used: Amount, volumes: seq<VolumeSpace>)

  /** Block counts alone: what a projection says about the pool. */
  datatype Volume = Volume(id: string, drawn: nat, reserve: nat, quota: Option<nat>)

  datatype Pool = Pool(total: nat, free: int, used: nat, volumes: seq<Volume>)

  function BlocksOf(a: Option<Amount>): nat {
    if a.Some? then a.value.blocks else 0
  }

  ghost function VolumeOf(v: VolumeSpace): Volume {
    Volume(v.id, v.drawn.blocks, BlocksOf(v.reserve), if v.quota.Some? then Some(v.quota.value.blocks) else None)
  }

  ghost function PoolOf(p: Projection): Pool {
    Pool(p.total.blocks, p.free.blocks, p.used.blocks,
         seq(|p.volumes|, i requires 0 <= i < |p.volumes| => VolumeOf(p.volumes[i])))
  }

  /** The part of a volume's reserve it has not drawn yet. */
  ghost function Unmet(v: Volume): int {
    Max(0, v.reserve - v.drawn)
  }

  ghost function TotalUnmet(vs: seq<Volume>): int {
    if vs == [] then 0 else TotalUnmet(vs[..|vs| - 1]) + Unmet(vs[|vs| - 1])
  }

  ghost function TotalDrawn(vs: seq<Volume>): int {
    if vs == [] then 0 else TotalDrawn(vs[..|vs| - 1]) + vs[|vs| - 1].drawn
  }

  /** What volume i may still take: free space less the other volumes' unmet reserves, within its quota. */
  ghost function Available(p: Pool, i: nat): int
    requires i < |p.volumes|
  {
    var shared := p.free - (TotalUnmet(p.volumes) - Unmet(p.volumes[i]));
    if p.volumes[i].quota.Some? then Min(shared, Max(0, p.volumes[i].quota.value - p.volumes[i].drawn)) else shared
  }

  // ---- Validation ----

  predicate AmountValid(a: Amount, unit: nat) {
    a.blocks * unit == a.bytes
  }

  ghost predicate UnitValid(unit: nat) {
    unit == 4096 || unit == 8192 || unit == 16384 || unit == 32768 || unit == 65536
  }

  /** The checks on one volume that look at no other volume. */
  ghost predicate VolumeValid(p: Projection, v: VolumeSpace) {
    && AmountValid(v.drawn, p.unit) && AmountValid(v.available, p.unit) && AmountValid(v.siblingReserve, p.unit)
    && (v.reserve.Some? ==> AmountValid(v.reserve.value, p.unit) && v.reserve.value.blocks != 0 && v.reserve.value.blocks <= p.total.blocks)
    && (v.quota.Some? ==> AmountValid(v.quota.value, p.unit) && v.quota.value.blocks != 0)
    && v.drawn.blocks <= p.used.blocks
    && (v.quota.Some? ==> BlocksOf(v.reserve) <= v.quota.value.blocks)
  }

  ghost predicate TotalsValid(p: Projection, storeBytes: nat) {
    && UnitValid(p.unit)
    && AmountValid(p.total, p.unit) && AmountValid(p.free, p.unit) && AmountValid(p.used, p.unit)
    && p.total.blocks != 0 && p.free.blocks <= p.total.blocks && p.used.blocks == p.total.blocks - p.free.blocks
    && p.total.bytes <= storeBytes
  }

  ghost predicate IdsMatch(vs: seq<VolumeSpace>, ids: set<string>) {
    && (forall i, j :: 0 <= i < j < |vs| ==> vs[i].id != vs[j].id)
    && (forall i :: 0 <= i < |vs| ==> vs[i].id in ids)
    && (forall id :: id in ids ==> exists i :: 0 <= i < |vs| && vs[i].id == id)
  }

  ghost predicate DerivedValid(p: Projection, i: nat)
    requires i < |p.volumes|
  {
    && p.volumes[i].siblingReserve.blocks == TotalUnmet(PoolOf(p).volumes) - Unmet(VolumeOf(p.volumes[i]))
    && p.volumes[i].available.blocks == Available(PoolOf(p), i)
  }

  ghost predicate Accepted(p: Projection, storeBytes: nat, ids: set<string>) {
    && TotalsValid(p, storeBytes)
    && IdsMatch(p.volumes, ids)
    && (forall i :: 0 <= i < |p.volumes| ==> VolumeValid(p, p.volumes[i]))
    && TotalUnmet(PoolOf(p).volumes) <= p.free.blocks
    && (forall i :: 0 <= i < |p.volumes| ==> DerivedValid(p, i))
  }

  lemma TakeUnmet(vs: seq<Volume>, i: nat)
    requires i < |vs|
    ensures TotalUnmet(vs[..i + 1]) == TotalUnmet(vs[..i]) + Unmet(vs[i])
  {
    assert vs[..i + 1][..i] == vs[..i];
  }

  method CheckIds(vs: seq<VolumeSpace>, ids: set<string>) returns (ok: bool)
    ensures ok <==> IdsMatch(vs, ids)
  {
    var seen: set<string> := {};
    for i := 0 to |vs|
      invariant forall k :: 0 <= k < i ==> vs[k].id in seen && vs[k].id in ids
      invariant forall id :: id in seen ==> exists k :: 0 <= k < i && vs[k].id == id
      invariant forall k, l :: 0 <= k < l < i ==> vs[k].id != vs[l].id
    {
      if vs[i].id in seen || vs[i].id !in ids { return false; }
      seen := seen + {vs[i].id};
    }
    ok := forall id :: id in ids ==> id in seen;
  }

  /** First pass: each volume on its own, and the unmet reserves added up. */
  method SumReserves(p: Projection) returns (ok: bool, unmet: int)
    ensures ok <==> forall i :: 0 <= i < |p.volumes| ==> VolumeValid(p, p.volumes[i])
    ensures ok ==> unmet == TotalUnmet(PoolOf(p).volumes)
  {
    unmet := 0;
    ghost var vs := PoolOf(p).volumes;
    for i := 0 to |p.volumes|
      invariant unmet == TotalUnmet(vs[..i])
      invariant forall k :: 0 <= k < i ==> VolumeValid(p, p.volumes[k])
    {
      var v := p.volumes[i];
      if !AmountValid(v.drawn, p.unit) || !AmountValid(v.available, p.unit) || !AmountValid(v.siblingReserve, p.unit) {
        return false, unmet;
      }
      if v.reserve.Some? {
        var reserve := v.reserve.value;
        if !AmountValid(reserve, p.unit) || reserve.blocks == 0 || reserve.blocks > p.total.blocks { return false, unmet; }
      }
      if v.quota.Some? {
        if !AmountValid(v.quota.value, p.unit) || v.quota.value.blocks == 0 { return false, unmet; }
      }
      if v.drawn.blocks > p.used.blocks || (v.quota.Some? && BlocksOf(v.reserve) > v.quota.value.blocks) { return false, unmet; }
      TakeUnmet(vs, i);
      unmet := unmet + Max(0, BlocksOf(v.reserve) - v.drawn.blocks);
    }
    assert vs[..|vs|] == vs;
    ok := true;
  }

  /** Second pass: every volume's two derived amounts. */
  method CheckDerived(p: Projection, unmet: int) returns (ok: bool)
    requires unmet == TotalUnmet(PoolOf(p).volumes)
    ensures ok <==> forall i :: 0 <= i < |p.volumes| ==> DerivedValid(p, i)
  {
    for i := 0 to |p.volumes|
      invariant forall k :: 0 <= k < i ==> DerivedValid(p, k)
    {
      var v := p.volumes[i];
      var siblings := unmet - Max(0, BlocksOf(v.reserve) - v.drawn.blocks);
      var available := p.free.blocks - siblings;
      if v.quota.Some? {
        available := Min(available, Max(0, v.quota.value.blocks - v.drawn.blocks));
      }
      assert PoolOf(p).volumes[i] == VolumeOf(v);
      assert available == Available(PoolOf(p), i);
      if !(v.siblingReserve.blocks == siblings && v.available.blocks == available) {
        assert !DerivedValid(p, i);
        return false;
      }
    }
    ok := true;
  }

  method ValidateSpace(p: Projection, storeBytes: nat, ids: set<string>) returns (ok: bool)
    ensures ok <==> Accepted(p, storeBytes, ids)
  {
    if p.unit != 4096 && p.unit != 8192 && p.unit != 16384 && p.unit != 32768 && p.unit != 65536 { return false; }
    if !AmountValid(p.total, p.unit) || !AmountValid(p.free, p.unit) || !AmountValid(p.used, p.unit) { return false; }
    if p.total.blocks == 0 || p.free.blocks > p.total.blocks || p.used.blocks != p.total.blocks - p.free.blocks ||
       p.total.bytes > storeBytes {
      return false;
    }
    ok := CheckIds(p.volumes, ids);
    if !ok { return; }
    var unmet: int;
    ok, unmet := SumReserves(p);
    if !ok || unmet > p.free.blocks { return false; }
    ok := CheckDerived(p, unmet);
  }

  // ---- Allocation and release ----

  /** Every unmet reserve is backed by free space, and no block is lost. */
  ghost predicate Covered(p: Pool) {
    TotalUnmet(p.volumes) <= p.free && p.free + p.used == p.total
  }

  function Allocate(p: Pool, i: nat, n: nat): Pool
    requires i < |p.volumes|
  {
    p.(free := p.free - n, used := p.used + n,
       volumes := p.volumes[i := p.volumes[i].(drawn := p.volumes[i].drawn + n)])
  }

  function Give(p: Pool, i: nat, n: nat): Pool
    requires i < |p.volumes| && n <= p.volumes[i].drawn && n <= p.used
  {
    p.(free := p.free + n, used := p.used - n,
       volumes := p.volumes[i := p.volumes[i].(drawn := p.volumes[i].drawn - n)])
  }

  lemma {:induction false} UnmetAfter(vs: seq<Volume>, i: nat, v: Volume)
    requires i < |vs|
    ensures TotalUnmet(vs[i := v]) == TotalUnmet(vs) - Unmet(vs[i]) + Unmet(v)
    ensures TotalDrawn(vs[i := v]) == TotalDrawn(vs) - vs[i].drawn + v.drawn
  {
    var ws := vs[i := v];
    if i == |vs| - 1 {
      assert ws[..|ws| - 1] == vs[..|vs| - 1];
    } else {
      assert ws[..|ws| - 1] == vs[..|vs| - 1][i := v];
      UnmetAfter(vs[..|vs| - 1], i, v);
    }
  }

  lemma {:induction false} UnmetNonnegative(vs: seq<Volume>)
    ensures TotalUnmet(vs) >= 0
    ensures forall i :: 0 <= i < |vs| ==> Unmet(vs[i]) <= TotalUnmet(vs)
  {
    if vs != [] {
      UnmetNonnegative(vs[..|vs| - 1]);
    }
  }

  ghost predicate WithinQuota(p: Pool, i: nat, n: nat)
    requires i < |p.volumes|
  {
    p.volumes[i].quota.Some? ==> n == 0 || p.volumes[i].drawn + n <= p.volumes[i].quota.value
  }

  /** Availability is exact: a volume may take n blocks without breaking a reserve or its quota just when n is available. */
  lemma AvailableIsExact(p: Pool, i: nat, n: nat)
    requires Covered(p) && i < |p.volumes|
    ensures n <= Available(p, i) <==> Covered(Allocate(p, i, n)) && WithinQuota(p, i, n)
  {
    UnmetNonnegative(p.volumes);
    UnmetAfter(p.volumes, i, p.volumes[i].(drawn := p.volumes[i].drawn + n));
  }

  lemma GiveKeepsCovered(p: Pool, i: nat, n: nat)
    requires Covered(p) && i < |p.volumes| && n <= p.volumes[i].drawn && n <= p.used
    ensures Covered(Give(p, i, n))
  {
    UnmetAfter(p.volumes, i, p.volumes[i].(drawn := p.volumes[i].drawn - n));
  }

  datatype Step = Take(i: nat, n: nat) | Free(i: nat, n: nat)

  ghost predicate StepAllowed(p: Pool, s: Step) {
    s.i < |p.volumes| &&
    match s
    case Take(i, n) => n <= Available(p, i)
    case Free(i, n) => n <= p.volumes[i].drawn && n <= p.used
  }

  ghost function Next(p: Pool, s: Step): Pool
    requires StepAllowed(p, s)
  {
    match s
    case Take(i, n) => Allocate(p, i, n)
    case Free(i, n) => Give(p, i, n)
  }

  ghost predicate Schedule(p: Pool, steps: seq<Step>)
    decreases |steps|
  {
    steps == [] || (StepAllowed(p, steps[0]) && Schedule(Next(p, steps[0]), steps[1..]))
  }

  ghost function Run(p: Pool, steps: seq<Step>): Pool
    requires Schedule(p, steps)
    decreases |steps|
  {
    if steps == [] then p else Run(Next(p, steps[0]), steps[1..])
  }

  /** The volumes' own counters, taken together, never exceed the container's. */
  ghost predicate Additive(p: Pool) {
    TotalDrawn(p.volumes) <= p.used
  }

  /** Ids, reserves and quotas do not move. */
  ghost predicate SameTerms(vs: seq<Volume>, ws: seq<Volume>) {
    |vs| == |ws| && forall i :: 0 <= i < |vs| ==> ws[i].id == vs[i].id && ws[i].reserve == vs[i].reserve && ws[i].quota == vs[i].quota
  }

  lemma StepKeeps(p: Pool, s: Step)
    requires Covered(p) && StepAllowed(p, s)
    ensures Covered(Next(p, s)) && Next(p, s).total == p.total && SameTerms(p.volumes, Next(p, s).volumes)
    ensures Additive(p) ==> Additive(Next(p, s))
  {
    match s
    case Take(i, n) =>
      AvailableIsExact(p, i, n);
      AllocateMoves(p, i, n);
    case Free(i, n) =>
      GiveKeepsCovered(p, i, n);
      GiveMoves(p, i, n);
  }

  lemma AllocateMoves(p: Pool, i: nat, n: nat)
    requires i < |p.volumes|
    ensures TotalDrawn(Allocate(p, i, n).volumes) == TotalDrawn(p.volumes) + n
    ensures SameTerms(p.volumes, Allocate(p, i, n).volumes)
  {
    UnmetAfter(p.volumes, i, p.volumes[i].(drawn := p.volumes[i].drawn + n));
  }

  lemma GiveMoves(p: Pool, i: nat, n: nat)
    requires i < |p.volumes| && n <= p.volumes[i].drawn && n <= p.used
    ensures TotalDrawn(Give(p, i, n).volumes) == TotalDrawn(p.volumes) - n
    ensures SameTerms(p.volumes, Give(p, i, n).volumes)
  {
    UnmetAfter(p.volumes, i, p.volumes[i].(drawn := p.volumes[i].drawn - n));
  }

  /** Every schedule of available allocations and of releases conserves the container and keeps every reserve backed. */
  lemma {:induction false} SchedulesKeepCovered(p: Pool, steps: seq<Step>)
    requires Covered(p) && Schedule(p, steps)
    ensures var q := Run(p, steps);
      && Covered(q) && q.total == p.total && SameTerms(p.volumes, q.volumes)
      && (Additive(p) ==> Additive(q))
    decreases |steps|
  {
    if steps != [] {
      StepKeeps(p, steps[0]);
      SchedulesKeepCovered(Next(p, steps[0]), steps[1..]);
    }
  }

  /** In an accepted report a volume may take n blocks, reserves and quota unbroken, just when n is at most its reported availability. */
  lemma AcceptedAvailabilityIsExact(p: Projection, storeBytes: nat, ids: set<string>, i: nat, n: nat)
    requires Accepted(p, storeBytes, ids) && i < |p.volumes|
    ensures Covered(PoolOf(p))
    ensures n <= p.volumes[i].available.blocks <==> Covered(Allocate(PoolOf(p), i, n)) && WithinQuota(PoolOf(p), i, n)
  {
    assert DerivedValid(p, i);
    AvailableIsExact(PoolOf(p), i, n);
  }

  // ---- Reporting again ----

  function AmountOf(blocks: nat, unit: nat): Amount {
    Amount(blocks, blocks * unit)
  }

  /** The report of a pool: the given terms with recomputed counters. */
  ghost function Report(p: Projection, q: Pool): Projection
    requires Covered(q) && SameTerms(PoolOf(p).volumes, q.volumes) && |q.volumes| == |p.volumes|
  {
    UnmetNonnegative(q.volumes);
    Projection(p.unit, p.total, AmountOf(q.free, p.unit), AmountOf(q.used, p.unit),
      seq(|p.volumes|, i requires 0 <= i < |p.volumes| =>
        p.volumes[i].(
          drawn := AmountOf(q.volumes[i].drawn, p.unit),
          available := AmountOf(Max(0, Available(q, i)), p.unit),
          siblingReserve := AmountOf(TotalUnmet(q.volumes) - Unmet(q.volumes[i]), p.unit))))
  }

  lemma ReportVolumes(p: Projection, q: Pool)
    requires Covered(q) && SameTerms(PoolOf(p).volumes, q.volumes)
    ensures PoolOf(Report(p, q)).volumes == q.volumes
  {
    var r := PoolOf(Report(p, q)).volumes;
    forall i | 0 <= i < |q.volumes| ensures r[i] == q.volumes[i] {
      assert PoolOf(p).volumes[i] == VolumeOf(p.volumes[i]);
    }
  }

  lemma {:induction false} OneOfTotal(vs: seq<Volume>, i: nat)
    requires i < |vs|
    ensures vs[i].drawn <= TotalDrawn(vs)
  {
    if i < |vs| - 1 {
      OneOfTotal(vs[..|vs| - 1], i);
    } else {
      DrawnNonnegative(vs[..|vs| - 1]);
    }
  }

  lemma {:induction false} DrawnNonnegative(vs: seq<Volume>)
    ensures TotalDrawn(vs) >= 0
  {
    if vs != [] {
      DrawnNonnegative(vs[..|vs| - 1]);
    }
  }

  lemma ReportDerived(p: Projection, q: Pool, i: nat)
    requires Covered(q) && SameTerms(PoolOf(p).volumes, q.volumes) && i < |q.volumes|
    requires PoolOf(Report(p, q)) == q
    ensures DerivedValid(Report(p, q), i)
  {
    UnmetNonnegative(q.volumes);
    assert PoolOf(Report(p, q)).volumes[i] == VolumeOf(Report(p, q).volumes[i]);
    AvailableIsExact(q, i, 0);
  }

  lemma ReportVolumeValid(p: Projection, q: Pool, i: nat)
    requires Covered(q) && SameTerms(PoolOf(p).volumes, q.volumes) && Additive(q) && i < |q.volumes|
    requires q.total == p.total.blocks && VolumeValid(p, p.volumes[i])
    ensures VolumeValid(Report(p, q), Report(p, q).volumes[i])
  {
    OneOfTotal(q.volumes, i);
  }

  lemma ReportIds(p: Projection, q: Pool, ids: set<string>)
    requires Covered(q) && SameTerms(PoolOf(p).volumes, q.volumes) && IdsMatch(p.volumes, ids)
    ensures IdsMatch(Report(p, q).volumes, ids)
  {
    var r := Report(p, q);
    assert forall i :: 0 <= i < |r.volumes| ==> r.volumes[i].id == p.volumes[i].id;
    forall id | id in ids ensures exists i :: 0 <= i < |r.volumes| && r.volumes[i].id == id {
      var i :| 0 <= i < |p.volumes| && p.volumes[i].id == id;
      assert r.volumes[i].id == id;
    }
  }

  /** A pool reached by a schedule from an accepted, additive report gives an accepted report again. */
  lemma ReportsStayAccepted(p: Projection, storeBytes: nat, ids: set<string>, steps: seq<Step>)
    requires Accepted(p, storeBytes, ids) && Additive(PoolOf(p)) && Schedule(PoolOf(p), steps)
    ensures var q := Run(PoolOf(p), steps);
      && Covered(q) && SameTerms(PoolOf(p).volumes, q.volumes)
      && Accepted(Report(p, q), storeBytes, ids)
  {
    SchedulesKeepCovered(PoolOf(p), steps);
    var q := Run(PoolOf(p), steps);
    ReportVolumes(p, q);
    UnmetNonnegative(q.volumes);
    ReportIds(p, q, ids);
    forall i | 0 <= i < |q.volumes| ensures VolumeValid(Report(p, q), Report(p, q).volumes[i]) {
      ReportVolumeValid(p, q, i);
    }
    forall i | 0 <= i < |q.volumes| ensures DerivedValid(Report(p, q), i) {
      ReportDerived(p, q, i);
    }
  }

  /** The report of the pool a schedule leads to, and its acceptance. */
  ghost predicate NextAccepted(p: Projection, storeBytes: nat, ids: set<string>, steps: seq<Step>)
    requires Schedule(PoolOf(p), steps)
  {
    var q := Run(PoolOf(p), steps);
    Covered(q) && SameTerms(PoolOf(p).volumes, q.volumes) && Accepted(Report(p, q), storeBytes, ids)
  }

  lemma {:induction false} NoneDrawn(vs: seq<Volume>)
    requires forall i :: 0 <= i < |vs| ==> vs[i].drawn == 0
    ensures TotalDrawn(vs) == 0
  {
    if vs != [] {
      NoneDrawn(vs[..|vs| - 1]);
    }
  }

  /** Freeing the volumes one after another meets one that claims more than the container has in use. */
  lemma {:induction false} Drain(p: Pool, k: nat) returns (steps: seq<Step>, i: nat)
    requires k <= |p.volumes| && TotalDrawn(p.volumes) > p.used
    requires forall j :: 0 <= j < k ==> p.volumes[j].drawn == 0
    ensures Schedule(p, steps) && i < |Run(p, steps).volumes| && Run(p, steps).volumes[i].drawn > Run(p, steps).used
    decreases |p.volumes| - k
  {
    if k == |p.volumes| {
      NoneDrawn(p.volumes);
      assert false;
    } else if p.volumes[k].drawn > p.used {
      steps, i := [], k;
    } else {
      var s := Free(k, p.volumes[k].drawn);
      GiveMoves(p, k, s.n);
      var rest: seq<Step>;
      rest, i := Drain(Next(p, s), k + 1);
      steps := [s] + rest;
      assert steps[1..] == rest;
    }
  }

  /** A volume that claims more than the container has in use makes the report refused. */
  lemma OverdrawnIsRefused(p: Projection, q: Pool, storeBytes: nat, ids: set<string>, i: nat)
    requires Covered(q) && SameTerms(PoolOf(p).volumes, q.volumes) && i < |q.volumes| && q.volumes[i].drawn > q.used
    ensures !Accepted(Report(p, q), storeBytes, ids)
  {
    assert !VolumeValid(Report(p, q), Report(p, q).volumes[i]);
  }

  /**
   * The exact condition: from an accepted report every schedule leads to an accepted report if and only if
   * the volumes' own counters together do not exceed the container's.
   */
  lemma AdditivityIsExact(p: Projection, storeBytes: nat, ids: set<string>)
    requires Accepted(p, storeBytes, ids)
    ensures Additive(PoolOf(p)) <==> forall steps :: Schedule(PoolOf(p), steps) ==> NextAccepted(p, storeBytes, ids, steps)
  {
    if Additive(PoolOf(p)) {
      forall steps | Schedule(PoolOf(p), steps) ensures NextAccepted(p, storeBytes, ids, steps) {
        ReportsStayAccepted(p, storeBytes, ids, steps);
      }
    } else {
      var steps, i := Drain(PoolOf(p), 0);
      SchedulesKeepCovered(PoolOf(p), steps);
      OverdrawnIsRefused(p, Run(PoolOf(p), steps), storeBytes, ids, i);
      assert !NextAccepted(p, storeBytes, ids, steps);
    }
  }

  /** An accepted report of two volumes that each claim all ten used blocks. */
  function Overlapping(): Projection {
    var none, ten := Amount(0, 0), Amount(10, 40960);
    Projection(4096, Amount(20, 81920), ten, ten,
               [VolumeSpace("a", ten, None, None, ten, none), VolumeSpace("b", ten, None, None, ten, none)])
  }

  lemma {:induction false} NoReserves(vs: seq<Volume>)
    requires forall i :: 0 <= i < |vs| ==> vs[i].reserve == 0
    ensures TotalUnmet(vs) == 0
  {
    if vs != [] {
      NoReserves(vs[..|vs| - 1]);
    }
  }

  lemma OverlappingAccepted(p: Projection)
    requires p == Overlapping()
    ensures Accepted(p, 81920, {"a", "b"}) && PoolOf(p).volumes == [Volume("a", 10, 0, None), Volume("b", 10, 0, None)]
  {
    var vs := PoolOf(p).volumes;
    assert vs == [VolumeOf(p.volumes[0]), VolumeOf(p.volumes[1])];
    NoReserves(vs);
    assert DerivedValid(p, 0) && DerivedValid(p, 1);
    assert p.volumes[0].id == "a" && p.volumes[1].id == "b";
  }

  /** When one of them gives half of its blocks back, the next report is refused. */
  lemma OverlappingCountersCanFail(p: Projection)
    requires p == Overlapping()
    ensures Accepted(p, 81920, {"a", "b"})
    ensures Schedule(PoolOf(p), [Free(0, 5)]) && !NextAccepted(p, 81920, {"a", "b"}, [Free(0, 5)])
  {
    OverlappingAccepted(p);
    var s, q := Free(0, 5), PoolOf(p);
    var after := Next(q, s);
    assert [s][1..] == [];
    assert Run(q, [s]) == after;
    if Covered(after) && SameTerms(q.volumes, after.volumes) {
      OverdrawnIsRefused(p, after, 81920, {"a", "b"}, 1);
    }
  }
}
