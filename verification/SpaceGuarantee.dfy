/** What reserves, free space and availability promise, in drawn blocks alone: every volume can be brought up to its reserve. */
module SpaceGuarantee {
  import opened Prelude
  import opened SharedSpace

  /** Every volume has drawn at least its reserve. */
  ghost predicate AllMet(p: Pool) {
    forall i :: 0 <= i < |p.volumes| ==> p.volumes[i].drawn >= p.volumes[i].reserve
  }

  /** A take that free space and the volume's quota have room for. */
  ghost predicate HasRoom(p: Pool, i: nat, n: nat)
    requires i < |p.volumes|
  {
    n <= p.free && (p.volumes[i].quota.Some? && n > 0 ==> p.volumes[i].drawn + n <= p.volumes[i].quota.value)
  }

  /** A schedule of takes that only free space and quotas limit. */
  ghost predicate Takes(p: Pool, steps: seq<Step>)
    decreases |steps|
  {
    steps == [] ||
    (steps[0].Take? && steps[0].i < |p.volumes| && HasRoom(p, steps[0].i, steps[0].n)
     && Takes(Allocate(p, steps[0].i, steps[0].n), steps[1..]))
  }

  ghost function After(p: Pool, steps: seq<Step>): Pool
    requires Takes(p, steps)
    decreases |steps|
  {
    if steps == [] then p else After(Allocate(p, steps[0].i, steps[0].n), steps[1..])
  }

  /** Some schedule of takes brings every volume's drawn blocks up to its reserve. */
  ghost predicate Attainable(p: Pool) {
    exists steps :: Takes(p, steps) && AllMet(After(p, steps))
  }

  /** No reserve is larger than its volume's quota. */
  ghost predicate ReservesFitQuotas(vs: seq<Volume>) {
    forall i :: 0 <= i < |vs| && vs[i].quota.Some? ==> vs[i].reserve <= vs[i].quota.value
  }

  // ---- The unmet part of a reserve ----

  /** The unmet part of a reserve is the least number of blocks that bring the volume up to it. */
  lemma UnmetIsLeast(v: Volume, n: nat)
    ensures v.drawn + n >= v.reserve <==> n >= Unmet(v)
  {
  }

  lemma {:induction false} MetIsNothing(vs: seq<Volume>)
    requires forall i :: 0 <= i < |vs| ==> vs[i].drawn >= vs[i].reserve
    ensures TotalUnmet(vs) == 0
  {
    if vs != [] {
      UnmetIsLeast(vs[|vs| - 1], 0);
      MetIsNothing(vs[..|vs| - 1]);
    }
  }

  /** A take lowers what is unmet by no more than the blocks it takes. */
  lemma TakeLowers(p: Pool, i: nat, n: nat)
    requires i < |p.volumes|
    ensures TotalUnmet(Allocate(p, i, n).volumes) >= TotalUnmet(p.volumes) - n
  {
    UnmetAfter(p.volumes, i, p.volumes[i].(drawn := p.volumes[i].drawn + n));
  }

  /** So no schedule of takes meets every reserve from less free space than is unmet. */
  lemma {:induction false} TooLittle(p: Pool, steps: seq<Step>)
    requires Takes(p, steps) && AllMet(After(p, steps)) && p.free >= 0
    ensures TotalUnmet(p.volumes) <= p.free
    decreases |steps|
  {
    if steps == [] {
      MetIsNothing(p.volumes);
    } else {
      TakeLowers(p, steps[0].i, steps[0].n);
      TooLittle(Allocate(p, steps[0].i, steps[0].n), steps[1..]);
    }
  }

  // ---- Meeting every reserve ----

  /** From volume k on, each volume takes what its reserve lacks. */
  function Fill(vs: seq<Volume>, k: nat): (steps: seq<Step>)
    requires k <= |vs|
    decreases |vs| - k
  {
    if k == |vs| then [] else [Take(k, Max(0, vs[k].reserve - vs[k].drawn))] + Fill(vs, k + 1)
  }

  lemma {:induction false} FillSkips(vs: seq<Volume>, ws: seq<Volume>, k: nat)
    requires k <= |vs| == |ws| && forall i :: k <= i < |vs| ==> vs[i] == ws[i]
    ensures Fill(vs, k) == Fill(ws, k)
    decreases |vs| - k
  {
    if k < |vs| {
      FillSkips(vs, ws, k + 1);
    }
  }

  /** Taking what its reserve lacks leaves a volume nothing unmet. */
  lemma FillAmount(vs: seq<Volume>, k: nat, n: nat)
    requires k < |vs| && n == Max(0, vs[k].reserve - vs[k].drawn)
    ensures var ws := vs[k := vs[k].(drawn := vs[k].drawn + n)];
      && n <= TotalUnmet(vs) && TotalUnmet(ws) == TotalUnmet(vs) - n >= 0 && ws[k].drawn >= ws[k].reserve
  {
    var w := vs[k].(drawn := vs[k].drawn + n);
    UnmetIsLeast(vs[k], n);
    UnmetIsLeast(w, 0);
    UnmetNonnegative(vs);
    UnmetNonnegative(vs[k := w]);
    UnmetAfter(vs, k, w);
  }

  /** Volume k's take of what its reserve lacks is within free space and quota and meets that reserve. */
  lemma FillStep(p: Pool, k: nat, n: nat)
    requires k < |p.volumes| && TotalUnmet(p.volumes) <= p.free && ReservesFitQuotas(p.volumes) && n == Max(0, p.volumes[k].reserve - p.volumes[k].drawn)
    ensures var q := Allocate(p, k, n);
      && HasRoom(p, k, n) && q.volumes[k].drawn >= q.volumes[k].reserve
      && TotalUnmet(q.volumes) <= q.free && ReservesFitQuotas(q.volumes) && Fill(q.volumes, k + 1) == Fill(p.volumes, k + 1)
  {
    FillAmount(p.volumes, k, n);
    FillSkips(Allocate(p, k, n).volumes, p.volumes, k + 1);
  }

  lemma {:induction false} FillMeets(p: Pool, k: nat)
    requires k <= |p.volumes| && TotalUnmet(p.volumes) <= p.free && ReservesFitQuotas(p.volumes)
    requires forall i :: 0 <= i < k ==> p.volumes[i].drawn >= p.volumes[i].reserve
    ensures Takes(p, Fill(p.volumes, k)) && AllMet(After(p, Fill(p.volumes, k)))
    decreases |p.volumes| - k
  {
    if k < |p.volumes| {
      var n := Max(0, p.volumes[k].reserve - p.volumes[k].drawn);
      FillStep(p, k, n);
      FillMeets(Allocate(p, k, n), k + 1);
      assert Fill(p.volumes, k)[1..] == Fill(p.volumes, k + 1);
    }
  }

  /** Every reserve can be met at once if and only if free space covers what is unmet. */
  lemma CoverIsAttainable(p: Pool)
    requires p.free >= 0 && ReservesFitQuotas(p.volumes)
    ensures TotalUnmet(p.volumes) <= p.free <==> Attainable(p)
  {
    UnmetNonnegative(p.volumes);
    if TotalUnmet(p.volumes) <= p.free {
      FillMeets(p, 0);
    }
    if steps :| Takes(p, steps) && AllMet(After(p, steps)) {
      TooLittle(p, steps);
    }
  }

  // ---- Accepted reports ----

  /** What an accepted report says of the pool, field by field. */
  lemma AcceptedPool(p: Projection, storeBytes: nat, ids: set<string>)
    requires Accepted(p, storeBytes, ids)
    ensures var q := PoolOf(p);
      && q.free == p.free.blocks && q.free + q.used == q.total == p.total.blocks
      && |q.volumes| == |p.volumes| && ReservesFitQuotas(q.volumes)
      && (forall i :: 0 <= i < |p.volumes| ==>
           && q.volumes[i].drawn == p.volumes[i].drawn.blocks <= q.used
           && q.volumes[i].reserve == (if p.volumes[i].reserve.Some? then p.volumes[i].reserve.value.blocks else 0) <= q.total
           && q.volumes[i].quota.Some? == p.volumes[i].quota.Some?
           && (q.volumes[i].quota.Some? ==> q.volumes[i].quota.value == p.volumes[i].quota.value.blocks))
  {
    forall i | 0 <= i < |p.volumes| ensures VolumeValid(p, p.volumes[i]) && PoolOf(p).volumes[i] == VolumeOf(p.volumes[i]) {
    }
  }

  /** A number of blocks with its bytes. */
  ghost predicate Measured(a: Amount, unit: nat) {
    a.bytes == a.blocks * unit
  }

  /** The amounts it states: bytes for blocks, in an allocation unit of the format, within the store, and no zero reserve or quota. */
  lemma AcceptedAmounts(p: Projection, storeBytes: nat, ids: set<string>)
    requires Accepted(p, storeBytes, ids)
    ensures p.unit in {4096, 8192, 16384, 32768, 65536}
    ensures Measured(p.total, p.unit) && Measured(p.free, p.unit) && Measured(p.used, p.unit)
    ensures 0 < p.total.blocks && p.total.bytes <= storeBytes
    ensures forall i :: 0 <= i < |p.volumes| ==> var v := p.volumes[i];
      && Measured(v.drawn, p.unit) && Measured(v.available, p.unit) && Measured(v.siblingReserve, p.unit)
      && (v.reserve.Some? ==> Measured(v.reserve.value, p.unit) && 0 < v.reserve.value.blocks <= p.total.blocks)
      && (v.quota.Some? ==> Measured(v.quota.value, p.unit) && 0 < v.quota.value.blocks)
    ensures (set i | 0 <= i < |p.volumes| :: p.volumes[i].id) == ids
    ensures forall i, j :: 0 <= i < j < |p.volumes| ==> p.volumes[i].id != p.volumes[j].id
  {
    forall i | 0 <= i < |p.volumes| ensures VolumeValid(p, p.volumes[i]) {
    }
  }

  /** Its reserves can all be met at once; a report whose reserves cannot be is never accepted. */
  lemma AcceptedIsAttainable(p: Projection, storeBytes: nat, ids: set<string>)
    requires Accepted(p, storeBytes, ids)
    ensures Attainable(PoolOf(p))
  {
    AcceptedPool(p, storeBytes, ids);
    CoverIsAttainable(PoolOf(p));
  }

  /** The guarantee holds over runs: after any schedule the report allows, every reserve can still be met at once. */
  lemma GuaranteeOverRuns(p: Projection, storeBytes: nat, ids: set<string>, steps: seq<Step>)
    requires Accepted(p, storeBytes, ids) && Schedule(PoolOf(p), steps)
    ensures Attainable(Run(PoolOf(p), steps))
  {
    AcceptedPool(p, storeBytes, ids);
    SchedulesKeepCovered(PoolOf(p), steps);
    UnmetNonnegative(Run(PoolOf(p), steps).volumes);
    CoverIsAttainable(Run(PoolOf(p), steps));
  }

  /** Volume i may take n blocks within free space and its quota, and all reserves can be met afterwards. */
  ghost predicate MayTake(p: Pool, i: nat, n: nat)
    requires i < |p.volumes|
  {
    HasRoom(p, i, n) && Attainable(Allocate(p, i, n))
  }

  lemma AvailableIsGreatest(p: Pool, i: nat, n: nat)
    requires Covered(p) && ReservesFitQuotas(p.volumes) && i < |p.volumes|
    ensures n <= Available(p, i) <==> MayTake(p, i, n)
  {
    AvailableIsExact(p, i, n);
    UnmetNonnegative(Allocate(p, i, n).volumes);
    if n <= p.free {
      CoverIsAttainable(Allocate(p, i, n));
    }
  }

  /** The reported availability is the greatest number of blocks that leaves every reserve attainable and the quota whole. */
  lemma AvailabilityIsGreatest(p: Projection, storeBytes: nat, ids: set<string>, i: nat, n: nat)
    requires Accepted(p, storeBytes, ids) && i < |p.volumes|
    ensures n <= p.volumes[i].available.blocks <==> MayTake(PoolOf(p), i, n)
  {
    AcceptedPool(p, storeBytes, ids);
    assert DerivedValid(p, i);
    AvailableIsGreatest(PoolOf(p), i, n);
  }

  /** The same in every pool that a schedule of available takes and of releases leads to: more than is available is too much. */
  lemma AvailableIsGreatestOverRuns(p: Projection, storeBytes: nat, ids: set<string>, steps: seq<Step>, i: nat, n: nat)
    requires Accepted(p, storeBytes, ids) && Schedule(PoolOf(p), steps) && i < |Run(PoolOf(p), steps).volumes|
    ensures n <= Available(Run(PoolOf(p), steps), i) <==> MayTake(Run(PoolOf(p), steps), i, n)
  {
    AcceptedPool(p, storeBytes, ids);
    SchedulesKeepCovered(PoolOf(p), steps);
    AvailableIsGreatest(Run(PoolOf(p), steps), i, n);
  }

  /** The pool with f free blocks in which volume i asks for nothing. */
  ghost function WithoutReserve(p: Pool, i: nat, f: nat): Pool
    requires i < |p.volumes|
  {
    p.(free := f, volumes := p.volumes[i := p.volumes[i].(reserve := 0)])
  }

  /** The reported sibling reserve is the least free space from which all other volumes' reserves can be met. */
  lemma SiblingReserveIsLeast(p: Projection, storeBytes: nat, ids: set<string>, i: nat, f: nat)
    requires Accepted(p, storeBytes, ids) && i < |p.volumes|
    ensures f >= p.volumes[i].siblingReserve.blocks <==> Attainable(WithoutReserve(PoolOf(p), i, f))
  {
    var q := PoolOf(p);
    AcceptedPool(p, storeBytes, ids);
    assert DerivedValid(p, i);
    CoverIsAttainable(WithoutReserve(q, i, f));
    var v := q.volumes[i].(reserve := 0);
    UnmetIsLeast(v, 0);
    UnmetNonnegative([v]);
    UnmetAfter(q.volumes, i, v);
  }
}
