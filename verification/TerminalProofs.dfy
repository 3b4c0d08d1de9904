/** Retained unmount proofs: identities wait for their owner's proof, and completed proofs sit in a bounded queue. */
module TerminalProofs {
  import opened Prelude

  const MAX_COMPLETED: nat := 256

  /** One mounted volume under one incarnation of its host; text parts are already folded to one case. */
  datatype Identity = Identity(
    mountPoint: string, deviceId: Option<string>, volumeId: string, recoveryIdentity: Option<string>,
    processId: int, creationTime: int, containerUuid: Option<string>, volumeObjectId: Option<nat>, volumeUuid: Option<string>)

  datatype StopResult = StopResult(
    cleanupProven: bool, ownershipReleased: bool, durabilityCleared: bool,
    processExited: bool, forcedKill: bool, exitCode: Option<int>, mountAbsent: bool)

  datatype Retained = Retained(trackingKey: string, proof: Option<StopResult>)

  /** The host that owns a mounted row, as the backend sees it. */
  datatype Owner = Owner(trackingKey: string, processId: int, creationTime: Option<int>, completed: Option<StopResult>)

  datatype Row = Row(identity: Identity, owner: Option<Owner>)

  datatype Cache = Cache(owners: map<Identity, Retained>, queue: seq<Identity>)

  const EMPTY := Cache(map[], [])

  // ---- What each locked body does ----

  predicate RowMatchesOwner(row: Row) {
    && row.owner.Some? && row.owner.value.processId > 0
    && row.owner.value.creationTime.Some? && row.owner.value.creationTime.value > 0
    && row.identity.processId == row.owner.value.processId
    && (row.identity.creationTime == 0 || row.identity.creationTime == row.owner.value.creationTime.value)
  }

  function OriginalIdentity(row: Row): Identity
    requires RowMatchesOwner(row)
  {
    row.identity.(creationTime := row.owner.value.creationTime.value)
  }

  /** Drops the oldest completed identities until the bound holds. */
  function Evict(c: Cache): Cache
    decreases |c.queue|
  {
    if |c.queue| <= MAX_COMPLETED then c
    else Evict(Cache(c.owners - {c.queue[0]}, c.queue[1..]))
  }

  function Enqueue(c: Cache, id: Identity): Cache {
    Evict(c.(queue := c.queue + [id]))
  }

  function RetainRow(c: Cache, row: Row): Cache {
    if !RowMatchesOwner(row) || OriginalIdentity(row) in c.owners then c
    else
      var id, o := OriginalIdentity(row), row.owner.value;
      var added := c.(owners := c.owners[id := Retained(o.trackingKey, o.completed)]);
      if o.completed.Some? then Enqueue(added, id) else added
  }

  function RetainRows(c: Cache, rows: seq<Row>): Cache {
    if rows == [] then c else RetainRow(RetainRows(c, rows[..|rows| - 1]), rows[|rows| - 1])
  }

  predicate IsPending(c: Cache, key: string, id: Identity) {
    id in c.owners && c.owners[id].proof.None? && c.owners[id].trackingKey == key
  }

  function PublishOne(c: Cache, key: string, proof: StopResult, id: Identity): Cache {
    Enqueue(c.(owners := c.owners[id := Retained(key, Some(proof))]), id)
  }

  function PublishAll(c: Cache, key: string, proof: StopResult, pending: seq<Identity>): Cache {
    if pending == [] then c
    else PublishOne(PublishAll(c, key, proof, pending[..|pending| - 1]), key, proof, pending[|pending| - 1])
  }

  /** An enumeration of the identities still waiting for an owner; the dictionary decides their order. */
  ghost predicate Enumerates(pending: seq<Identity>, c: Cache, key: string) {
    && (forall id :: id in pending <==> IsPending(c, key, id))
    && (forall i, j :: 0 <= i < j < |pending| ==> pending[i] != pending[j])
  }

  datatype Lookup = Unknown | Pending | Completed(result: StopResult)

  function Find(c: Cache, id: Identity): Lookup {
    if id.processId <= 0 || id.creationTime <= 0 || id !in c.owners then Unknown
    else if c.owners[id].proof.Some? then Completed(c.owners[id].proof.value)
    else Pending
  }

  // ---- The class ----

  class TerminalOwners {
    var owners: map<Identity, Retained>
    var completed: seq<Identity>

    ghost function State(): Cache
      reads this
    {
      Cache(owners, completed)
    }

    constructor ()
      ensures State() == EMPTY
    {
      owners, completed := map[], [];
    }

    method BoundCompleted(identity: Identity)
      modifies this
      ensures State() == Enqueue(old(State()), identity)
    {
      completed := completed + [identity];
      ghost var full := State();
      while |completed| > MAX_COMPLETED
        invariant Evict(State()) == Evict(full)
        decreases |completed|
      {
        owners := owners - {completed[0]};
        completed := completed[1..];
      }
    }

    method Retain(rows: seq<Row>)
      modifies this
      ensures State() == RetainRows(old(State()), rows)
    {
      for i := 0 to |rows|
        invariant State() == RetainRows(old(State()), rows[..i])
      {
        var row := rows[i];
        assert rows[..i + 1][..i] == rows[..i];
        if !RowMatchesOwner(row) { continue; }
        var original, owner := OriginalIdentity(row), row.owner.value;
        if original !in owners {
          owners := owners[original := Retained(owner.trackingKey, owner.completed)];
          if owner.completed.Some? { BoundCompleted(original); }
        }
      }
      assert rows[..|rows|] == rows;
    }

    method Publish(owner: Owner, pending: seq<Identity>)
      requires Enumerates(pending, State(), owner.trackingKey)
      modifies this
      ensures owner.completed.None? ==> State() == old(State())
      ensures owner.completed.Some? ==> State() == PublishAll(old(State()), owner.trackingKey, owner.completed.value, pending)
    {
      if owner.completed.None? { return; }
      for i := 0 to |pending|
        invariant State() == PublishAll(old(State()), owner.trackingKey, owner.completed.value, pending[..i])
      {
        assert pending[..i + 1][..i] == pending[..i];
        owners := owners[pending[i] := Retained(owner.trackingKey, owner.completed)];
        BoundCompleted(pending[i]);
      }
      assert pending[..|pending|] == pending;
    }

    method GetUnmountTerminalState(selected: Identity) returns (r: Lookup)
      ensures r == Find(State(), selected)
    {
      if selected.processId <= 0 || selected.creationTime <= 0 || selected !in owners { return Unknown; }
      match owners[selected].proof
      case Some(completed) => r := Completed(completed);
      case None => r := Pending;
    }
  }

  // ---- Invariants over runs ----

  /** The cache together with the results the hosts have recorded, each once and for good. */
  datatype System = System(cache: Cache, done: map<string, StopResult>)

  /** Each row is retained under its own lock; publishing an owner's proof is one locked body. */
  datatype Event = Record(key: string, result: StopResult) | RetainOne(row: Row) | PublishOwner(key: string, pending: seq<Identity>)

  function CompletedOf(done: map<string, StopResult>, key: string): Option<StopResult> {
    if key in done then Some(done[key]) else None
  }

  ghost predicate Allowed(s: System, e: Event) {
    match e
    case Record(key, _) => key !in s.done
    case RetainOne(row) => row.owner.Some? ==> row.owner.value.completed == CompletedOf(s.done, row.owner.value.trackingKey)
    case PublishOwner(key, pending) => Enumerates(pending, s.cache, key)
  }

  function Next(s: System, e: Event): System {
    match e
    case Record(key, result) => s.(done := s.done[key := result])
    case RetainOne(row) => s.(cache := RetainRow(s.cache, row))
    case PublishOwner(key, pending) =>
      if key in s.done then s.(cache := PublishAll(s.cache, key, s.done[key], pending)) else s
  }

  ghost predicate AllowedRun(s: System, es: seq<Event>)
    decreases |es|
  {
    es == [] || (Allowed(s, es[0]) && AllowedRun(Next(s, es[0]), es[1..]))
  }

  function Run(s: System, es: seq<Event>): System
    decreases |es|
  {
    if es == [] then s else Run(Next(s, es[0]), es[1..])
  }

  ghost predicate Resolved(c: Cache, id: Identity) {
    id in c.owners && c.owners[id].proof.Some?
  }

  /** The queue lists exactly the resolved identities, each once. */
  ghost predicate QueueExact(c: Cache) {
    && (forall i, j :: 0 <= i < j < |c.queue| ==> c.queue[i] != c.queue[j])
    && (forall id :: id in c.queue <==> Resolved(c, id))
  }

  /** Every proof is the result its own owner recorded. */
  ghost predicate ProofsOwned(c: Cache, done: map<string, StopResult>) {
    forall id :: id in c.owners && c.owners[id].proof.Some? ==>
      c.owners[id].trackingKey in done && c.owners[id].proof.value == done[c.owners[id].trackingKey]
  }

  ghost predicate Sound(s: System) {
    QueueExact(s.cache) && |s.cache.queue| <= MAX_COMPLETED && ProofsOwned(s.cache, s.done)
  }

  /** What a later cache keeps: its entries come from before or were not there, proofs stay, keys stay, only resolved ones leave. */
  ghost predicate Kept(c: Cache, d: Cache) {
    && (forall id :: id in c.owners && id in d.owners ==> d.owners[id].trackingKey == c.owners[id].trackingKey)
    && (forall id :: id in c.owners && id in d.owners && c.owners[id].proof.Some? ==> d.owners[id] == c.owners[id])
    && (forall id :: id in c.owners && id !in d.owners ==> id in c.queue)
  }

  lemma {:induction false} EvictKeeps(c: Cache)
    requires QueueExact(c)
    ensures QueueExact(Evict(c)) && |Evict(c).queue| <= MAX_COMPLETED
    ensures Evict(c).queue == if |c.queue| <= MAX_COMPLETED then c.queue else c.queue[|c.queue| - MAX_COMPLETED..]
    ensures forall id :: id in Evict(c).owners ==> id in c.owners && Evict(c).owners[id] == c.owners[id]
    ensures Kept(c, Evict(c))
    decreases |c.queue|
  {
    if |c.queue| > MAX_COMPLETED {
      var d := Cache(c.owners - {c.queue[0]}, c.queue[1..]);
      DequeueKeeps(c);
      EvictKeeps(d);
    }
  }

  lemma DequeueKeeps(c: Cache)
    requires QueueExact(c) && c.queue != []
    ensures QueueExact(Cache(c.owners - {c.queue[0]}, c.queue[1..]))
  {
    var d := Cache(c.owners - {c.queue[0]}, c.queue[1..]);
    forall id ensures id in d.queue <==> Resolved(d, id) {
      if id in c.queue {
        var i :| 0 <= i < |c.queue| && c.queue[i] == id;
        assert i > 0 ==> d.queue[i - 1] == id;
      }
    }
  }

  /** Resolving one identity that was absent or unresolved keeps the queue exact. */
  lemma EnqueueKeeps(c: Cache, id: Identity, key: string, proof: StopResult)
    requires QueueExact(c) && |c.queue| <= MAX_COMPLETED && !Resolved(c, id)
    requires id in c.owners ==> c.owners[id].trackingKey == key
    ensures var d := Enqueue(c.(owners := c.owners[id := Retained(key, Some(proof))]), id);
      && QueueExact(d) && |d.queue| <= MAX_COMPLETED && Resolved(d, id) && id in d.queue
      && d.owners[id] == Retained(key, Some(proof)) && d.queue == Newest(c.queue + [id])
      && (forall x :: x in d.owners && x != id ==> x in c.owners && d.owners[x] == c.owners[x])
      && Kept(c, d)
  {
    var full := c.(owners := c.owners[id := Retained(key, Some(proof))], queue := c.queue + [id]);
    FullIsExact(c, id, key, proof);
    EvictKeeps(full);
    Evicted(c, full, Evict(full), id, key, proof);
  }

  /** What eviction from the extended cache leaves. */
  lemma Evicted(c: Cache, full: Cache, d: Cache, id: Identity, key: string, proof: StopResult)
    requires QueueExact(c) && |c.queue| <= MAX_COMPLETED && !Resolved(c, id)
    requires id in c.owners ==> c.owners[id].trackingKey == key
    requires full == Cache(c.owners[id := Retained(key, Some(proof))], c.queue + [id])
    requires QueueExact(d) && d.queue == Newest(full.queue) && Kept(full, d)
    requires forall x :: x in d.owners ==> x in full.owners && d.owners[x] == full.owners[x]
    ensures Resolved(d, id) && id in d.queue && d.owners[id] == Retained(key, Some(proof))
    ensures forall x :: x in d.owners && x != id ==> x in c.owners && d.owners[x] == c.owners[x]
    ensures Kept(c, d)
  {
    LastIsNewest(d.queue, c.queue, id);
    KeptThrough(c, full, d, id);
  }

  lemma FullIsExact(c: Cache, id: Identity, key: string, proof: StopResult)
    requires QueueExact(c) && !Resolved(c, id)
    ensures QueueExact(Cache(c.owners[id := Retained(key, Some(proof))], c.queue + [id]))
  {
    var full := Cache(c.owners[id := Retained(key, Some(proof))], c.queue + [id]);
    assert id !in c.queue;
    forall x ensures x in full.queue <==> Resolved(full, x) {
      assert x != id ==> (Resolved(full, x) <==> Resolved(c, x));
    }
  }

  lemma LastIsNewest(queue: seq<Identity>, before: seq<Identity>, id: Identity)
    requires queue == Newest(before + [id])
    ensures id in queue
  {
    assert queue[|queue| - 1] == id;
  }

  lemma KeptThrough(c: Cache, full: Cache, d: Cache, id: Identity)
    requires QueueExact(c) && !Resolved(c, id) && full.queue == c.queue + [id] && Kept(full, d) && id in d.owners
    requires id in full.owners && (id in c.owners ==> full.owners[id].trackingKey == c.owners[id].trackingKey)
    requires forall x :: x != id ==> (x in full.owners <==> x in c.owners) && (x in c.owners ==> full.owners[x] == c.owners[x])
    ensures Kept(c, d)
  {
  }

  /** The newest completed identities, oldest first. */
  function Newest(queue: seq<Identity>): seq<Identity> {
    if |queue| <= MAX_COMPLETED then queue else queue[|queue| - MAX_COMPLETED..]
  }

  lemma RetainRowKeeps(s: System, row: Row)
    requires Sound(s)
    requires row.owner.Some? ==> row.owner.value.completed == CompletedOf(s.done, row.owner.value.trackingKey)
    ensures var t := s.(cache := RetainRow(s.cache, row)); Sound(t) && Kept(s.cache, t.cache)
  {
    if RowMatchesOwner(row) && OriginalIdentity(row) !in s.cache.owners && row.owner.value.completed.Some? {
      EnqueueKeeps(s.cache, OriginalIdentity(row), row.owner.value.trackingKey, row.owner.value.completed.value);
    }
  }

  /** After k identities of an owner: all sound, the queue the newest of old and published ones, nothing else touched. */
  ghost predicate PublishedUpTo(c: Cache, d: Cache, key: string, proof: StopResult, pending: seq<Identity>, k: nat)
    requires k <= |pending|
  {
    && QueueExact(d) && d.queue == Newest(c.queue + pending[..k])
    && (forall id :: id in d.owners ==> id in c.owners)
    && (forall id :: id in d.owners ==> d.owners[id] == if id in pending[..k] then Retained(key, Some(proof)) else c.owners[id])
    && (forall id :: id in c.owners && id !in d.owners ==> id in c.queue || id in pending[..k])
  }

  lemma PublishQueue(c: Cache, d: Cache, key: string, proof: StopResult, pending: seq<Identity>, k: nat)
    requires QueueExact(d) && |d.queue| <= MAX_COMPLETED && k < |pending| && !Resolved(d, pending[k])
    requires pending[k] in d.owners && d.owners[pending[k]].trackingKey == key
    requires d.queue == Newest(c.queue + pending[..k])
    ensures PublishOne(d, key, proof, pending[k]).queue == Newest(c.queue + pending[..k + 1])
  {
    EnqueueKeeps(d, pending[k], key, proof);
    assert c.queue + pending[..k + 1] == (c.queue + pending[..k]) + [pending[k]];
    NewestAgain(c.queue + pending[..k], pending[k]);
  }

  /** The next pending identity is still there, untouched. */
  lemma NextStillPending(c: Cache, d: Cache, key: string, proof: StopResult, pending: seq<Identity>, k: nat)
    requires QueueExact(c) && Enumerates(pending, c, key) && k < |pending|
    requires PublishedUpTo(c, d, key, proof, pending, k)
    ensures pending[k] in d.owners && d.owners[pending[k]] == c.owners[pending[k]]
    ensures c.owners[pending[k]] == Retained(key, None)
  {
    assert pending[k] in pending && IsPending(c, key, pending[k]);
    assert pending[k] !in pending[..k] && pending[k] !in c.queue;
  }

  lemma PublishOneMore(c: Cache, d: Cache, key: string, proof: StopResult, pending: seq<Identity>, k: nat)
    requires QueueExact(c) && |c.queue| <= MAX_COMPLETED && Enumerates(pending, c, key) && k < |pending|
    requires PublishedUpTo(c, d, key, proof, pending, k)
    ensures PublishedUpTo(c, PublishOne(d, key, proof, pending[k]), key, proof, pending, k + 1)
  {
    var id := pending[k];
    NextStillPending(c, d, key, proof, pending, k);
    PublishQueue(c, d, key, proof, pending, k);
    EnqueueKeeps(d, id, key, proof);
    var e := PublishOne(d, key, proof, id);
    assert pending[..k + 1] == pending[..k] + [id];
    NewestPart(c.queue + pending[..k]);
    StillListed(c, d, e, key, proof, pending, k);
  }

  /** What PublishOne did to the entries, seen from the first cache. */
  lemma StillListed(c: Cache, d: Cache, e: Cache, key: string, proof: StopResult, pending: seq<Identity>, k: nat)
    requires k < |pending| && PublishedUpTo(c, d, key, proof, pending, k)
    requires pending[k] in c.owners && pending[k] in e.owners && e.owners[pending[k]] == Retained(key, Some(proof))
    requires forall x :: x in e.owners && x != pending[k] ==> x in d.owners && e.owners[x] == d.owners[x]
    requires Kept(d, e) && pending[..k + 1] == pending[..k] + [pending[k]]
    requires forall x :: x in Newest(c.queue + pending[..k]) ==> x in c.queue + pending[..k]
    requires QueueExact(e) && e.queue == Newest(c.queue + pending[..k + 1])
    ensures PublishedUpTo(c, e, key, proof, pending, k + 1)
  {
    forall x | x in c.owners && x !in e.owners ensures x in c.queue || x in pending[..k + 1] {
      assert x in d.owners ==> x in d.queue;
    }
  }

  lemma NewestAgain(queue: seq<Identity>, id: Identity)
    ensures Newest(Newest(queue) + [id]) == Newest(queue + [id])
  {
  }

  lemma NewestPart(queue: seq<Identity>)
    ensures forall id :: id in Newest(queue) ==> id in queue
  {
  }

  lemma {:induction false} PublishKeeps(c: Cache, key: string, proof: StopResult, pending: seq<Identity>, k: nat)
    requires QueueExact(c) && |c.queue| <= MAX_COMPLETED && Enumerates(pending, c, key) && k <= |pending|
    ensures PublishedUpTo(c, PublishAll(c, key, proof, pending[..k]), key, proof, pending, k)
  {
    if k == 0 {
      assert c.queue + pending[..0] == c.queue;
    } else {
      assert pending[..k][..k - 1] == pending[..k - 1];
      PublishKeeps(c, key, proof, pending, k - 1);
      PublishOneMore(c, PublishAll(c, key, proof, pending[..k - 1]), key, proof, pending, k - 1);
    }
  }

  /** Publishing keeps the cache sound and leaves exactly the newest completed identities in the queue. */
  lemma PublishSound(s: System, key: string, pending: seq<Identity>)
    requires Sound(s) && key in s.done && Enumerates(pending, s.cache, key)
    ensures var t := s.(cache := PublishAll(s.cache, key, s.done[key], pending));
      Sound(t) && t.cache.queue == Newest(s.cache.queue + pending)
  {
    PublishKeeps(s.cache, key, s.done[key], pending, |pending|);
    assert pending[..|pending|] == pending;
  }

  lemma StepSound(s: System, e: Event)
    requires Sound(s) && Allowed(s, e)
    ensures Sound(Next(s, e))
  {
    match e
    case Record(key, result) =>
    case RetainOne(row) => RetainRowKeeps(s, row);
    case PublishOwner(key, pending) => if key in s.done { PublishSound(s, key, pending); }
  }

  /** In every reachable state the queue is exact and bounded, and every proof is its own owner's. */
  lemma {:induction false} SoundOverRuns(s: System, es: seq<Event>)
    requires Sound(s) && AllowedRun(s, es)
    ensures Sound(Run(s, es))
    decreases |es|
  {
    if es != [] {
      StepSound(s, es[0]);
      SoundOverRuns(Next(s, es[0]), es[1..]);
    }
  }

  lemma StepKeepsProof(s: System, e: Event, id: Identity)
    requires Sound(s) && Allowed(s, e) && Resolved(s.cache, id) && id in Next(s, e).cache.owners
    ensures Next(s, e).cache.owners[id] == s.cache.owners[id]
  {
    match e
    case Record(key, result) =>
    case RetainOne(row) => RetainRowKeeps(s, row);
    case PublishOwner(key, pending) =>
      if key in s.done {
        PublishKeeps(s.cache, key, s.done[key], pending, |pending|);
        assert pending[..|pending|] == pending;
      }
  }

  /** An identity is in the cache at every point of a run. */
  ghost predicate StaysRetained(s: System, es: seq<Event>, id: Identity)
    decreases |es|
  {
    id in s.cache.owners && (es == [] || StaysRetained(Next(s, es[0]), es[1..], id))
  }

  /** While an identity stays retained no run changes its proof. */
  lemma {:induction false} RetainedProofNeverChanges(s: System, es: seq<Event>, id: Identity)
    requires Sound(s) && AllowedRun(s, es) && Resolved(s.cache, id) && StaysRetained(s, es, id)
    ensures id in Run(s, es).cache.owners && Run(s, es).cache.owners[id] == s.cache.owners[id]
    decreases |es|
  {
    if es != [] {
      assert StaysRetained(Next(s, es[0]), es[1..], id);
      StepKeepsProof(s, es[0], id);
      StepSound(s, es[0]);
      RetainedProofNeverChanges(Next(s, es[0]), es[1..], id);
    }
  }

  /** Unresolved before the step, gone after it: its proof was never there to be looked up. */
  ghost predicate Lost(s: System, e: Event, id: Identity) {
    id in s.cache.owners && s.cache.owners[id].proof.None? && id !in Next(s, e).cache.owners
  }

  /** An unresolved identity leaves in a step only if that step resolves it, among more of its owner's than the queue holds. */
  lemma UnresolvedNotEvicted(s: System, e: Event, id: Identity)
    requires Sound(s) && Allowed(s, e) && Lost(s, e, id)
    ensures e.PublishOwner? && e.key == s.cache.owners[id].trackingKey && e.key in s.done && |e.pending| > 256
  {
    assert id !in s.cache.queue;
    match e
    case Record(key, result) =>
    case RetainOne(row) => RetainRowKeeps(s, row);
    case PublishOwner(key, pending) =>
      PublishKeeps(s.cache, key, s.done[key], pending, |pending|);
      assert pending[..|pending|] == pending;
      assert id in pending;
      if |pending| <= MAX_COMPLETED {
        NewestHoldsTail(s.cache.queue, pending, id);
      }
  }

  lemma PublishDropsFirst(c: Cache, key: string, proof: StopResult, pending: seq<Identity>)
    requires QueueExact(c) && |c.queue| <= MAX_COMPLETED && Enumerates(pending, c, key) && |pending| > MAX_COMPLETED
    ensures pending[0] !in PublishAll(c, key, proof, pending).owners
  {
    PublishKeeps(c, key, proof, pending, |pending|);
    assert pending[..|pending|] == pending;
    FirstNotNewest(c.queue, pending);
    var d := PublishAll(c, key, proof, pending);
    assert pending[0] in d.owners ==> Resolved(d, pending[0]);
  }

  /** With more pending identities than the queue holds, the first of them is gone after the step. */
  lemma FirstIsLost(s: System, key: string, pending: seq<Identity>)
    requires Sound(s) && key in s.done && Enumerates(pending, s.cache, key) && |pending| > MAX_COMPLETED
    ensures Lost(s, PublishOwner(key, pending), pending[0])
  {
    assert pending[0] in pending && IsPending(s.cache, key, pending[0]);
    PublishDropsFirst(s.cache, key, s.done[key], pending);
  }

  lemma FirstNotNewest(queue: seq<Identity>, pending: seq<Identity>)
    requires |pending| > MAX_COMPLETED && forall i, j :: 0 <= i < j < |pending| ==> pending[i] != pending[j]
    ensures pending[0] !in Newest(queue + pending)
  {
    var all := queue + pending;
    forall i | |all| - MAX_COMPLETED <= i < |all| ensures all[i] != pending[0] {
      assert all[i] == pending[i - |queue|];
    }
  }

  /** Exactly when: an unresolved identity is lost in a step if and only if it publishes a recorded result to more than 256 at once. */
  lemma LossIsExact(s: System, e: Event)
    requires Sound(s) && Allowed(s, e)
    ensures (exists id :: Lost(s, e, id)) <==> e.PublishOwner? && e.key in s.done && |e.pending| > 256
  {
    if e.PublishOwner? && e.key in s.done && |e.pending| > MAX_COMPLETED {
      FirstIsLost(s, e.key, e.pending);
    }
    forall id | Lost(s, e, id) ensures e.PublishOwner? && e.key in s.done && |e.pending| > MAX_COMPLETED {
      UnresolvedNotEvicted(s, e, id);
    }
  }

  // ---- A run in which it happens ----

  const OWNER: string := "owner"

  function Mounted(i: nat): Identity {
    Identity("mount", None, "volume", None, 1, 1, None, Some(i), None)
  }

  function MountedAll(n: nat): (ids: seq<Identity>)
    ensures |ids| == n && forall i :: 0 <= i < n ==> ids[i] == Mounted(i)
  {
    seq(n, i requires 0 <= i => Mounted(i))
  }

  function RetainStep(i: nat): Event {
    RetainOne(Row(Mounted(i), Some(Owner(OWNER, 1, Some(1), None))))
  }

  /** Mounting n volumes of one owner, none of them resolved. */
  function RetainSteps(n: nat): seq<Event> {
    if n == 0 then [] else RetainSteps(n - 1) + [RetainStep(n - 1)]
  }

  lemma {:induction false} RunAppend(s: System, es: seq<Event>, e: Event)
    ensures Run(s, es + [e]) == Next(Run(s, es), e)
    ensures AllowedRun(s, es + [e]) <==> AllowedRun(s, es) && Allowed(Run(s, es), e)
    decreases |es|
  {
    if es != [] {
      assert (es + [e])[1..] == es[1..] + [e];
      RunAppend(Next(s, es[0]), es[1..], e);
    } else {
      assert es + [e] == [e] && [e][1..] == [];
    }
  }

  ghost predicate AllWaiting(c: Cache, n: nat) {
    && c.queue == []
    && (forall id :: id in c.owners <==> id in MountedAll(n))
    && (forall id :: id in c.owners ==> c.owners[id] == Retained(OWNER, None))
  }

  lemma {:induction false} AfterRetaining(n: nat)
    ensures AllowedRun(System(EMPTY, map[]), RetainSteps(n))
    ensures var s := Run(System(EMPTY, map[]), RetainSteps(n)); s.done == map[] && AllWaiting(s.cache, n)
  {
    if n != 0 {
      AfterRetaining(n - 1);
      var s := Run(System(EMPTY, map[]), RetainSteps(n - 1));
      RunAppend(System(EMPTY, map[]), RetainSteps(n - 1), RetainStep(n - 1));
      OneMoreWaiting(s.cache, n - 1);
    }
  }

  lemma OneMoreWaiting(c: Cache, n: nat)
    requires AllWaiting(c, n)
    ensures AllWaiting(RetainRow(c, RetainStep(n).row), n + 1)
  {
    var d := RetainRow(c, RetainStep(n).row);
    assert MountedAll(n + 1) == MountedAll(n) + [Mounted(n)];
    assert Mounted(n) !in MountedAll(n);
    assert RowMatchesOwner(RetainStep(n).row) && OriginalIdentity(RetainStep(n).row) == Mounted(n);
  }

  /** From the empty cache: 257 mounts of one owner, its result, its publication; then the first mount's proof is nowhere. */
  lemma LossIsReachable() returns (es: seq<Event>, e: Event, id: Identity)
    ensures AllowedRun(System(EMPTY, map[]), es) && Allowed(Run(System(EMPTY, map[]), es), e)
    ensures Lost(Run(System(EMPTY, map[]), es), e, id)
  {
    var n := MAX_COMPLETED + 1;
    var result := StopResult(true, true, true, true, false, Some(0), true);
    AfterRetaining(n);
    RunAppend(System(EMPTY, map[]), RetainSteps(n), Record(OWNER, result));
    es := RetainSteps(n) + [Record(OWNER, result)];
    SoundOverRuns(System(EMPTY, map[]), es);
    e, id := PublishOwner(OWNER, MountedAll(n)), Mounted(0);
    var s := Run(System(EMPTY, map[]), es);
    assert Enumerates(MountedAll(n), s.cache, OWNER);
    FirstIsLost(s, OWNER, MountedAll(n));
  }

  lemma NewestHoldsTail(queue: seq<Identity>, tail: seq<Identity>, id: Identity)
    requires |tail| <= MAX_COMPLETED && id in tail
    ensures id in Newest(queue + tail)
  {
    var all := queue + tail;
    var i :| 0 <= i < |tail| && tail[i] == id;
    assert all[|queue| + i] == id;
    if |all| > MAX_COMPLETED {
      assert Newest(all)[|queue| + i - (|all| - MAX_COMPLETED)] == id;
    }
  }

  /** A completed lookup returns the result recorded by the owner whose key that identity was retained under. */
  lemma LookupReturnsOwnProof(es: seq<Event>, id: Identity)
    requires AllowedRun(System(EMPTY, map[]), es)
    requires Find(Run(System(EMPTY, map[]), es).cache, id).Completed?
    ensures var s := Run(System(EMPTY, map[]), es);
      && id in s.cache.queue && |s.cache.queue| <= MAX_COMPLETED
      && s.cache.owners[id].trackingKey in s.done
      && Find(s.cache, id) == Completed(s.done[s.cache.owners[id].trackingKey])
  {
    SoundOverRuns(System(EMPTY, map[]), es);
  }

  /** After an owner's proof is published nothing of that owner waits any more. */
  lemma PublishingLeavesNothingPending(s: System, key: string, pending: seq<Identity>, id: Identity)
    requires Sound(s) && key in s.done && Allowed(s, PublishOwner(key, pending))
    ensures !IsPending(Next(s, PublishOwner(key, pending)).cache, key, id)
  {
    PublishKeeps(s.cache, key, s.done[key], pending, |pending|);
    assert pending[..|pending|] == pending;
  }

  // ---- What retention and lookup say, in their own terms ----

  /** A row is retained when a running owner with a known creation time mounted it, under that owner's creation time. */
  ghost predicate Retains(row: Row, id: Identity) {
    && row.owner.Some? && row.owner.value.processId > 0 && row.identity.processId == row.owner.value.processId
    && row.owner.value.creationTime == Some(id.creationTime) && id.creationTime > 0
    && (row.identity.creationTime == id.creationTime || row.identity.creationTime == 0)
    && id == row.identity.(creationTime := id.creationTime)
  }

  /** Retaining is exact: the row's identity enters with its owner's key and result, once; no other row changes anything. */
  lemma RetainIsExact(s: System, row: Row, id: Identity)
    requires Sound(s) && Allowed(s, RetainOne(row))
    ensures var t := Next(s, RetainOne(row)).cache;
      && (Retains(row, id) && id in s.cache.owners ==> t == s.cache)
      && (Retains(row, id) && id !in s.cache.owners ==>
           id in t.owners && t.owners[id] == Retained(row.owner.value.trackingKey, row.owner.value.completed))
      && (id in t.owners && id !in s.cache.owners ==> Retains(row, id))
      && ((forall x :: !Retains(row, x)) ==> t == s.cache)
  {
    if RowMatchesOwner(row) {
      assert Retains(row, OriginalIdentity(row));
      if OriginalIdentity(row) !in s.cache.owners && row.owner.value.completed.Some? {
        EnqueueKeeps(s.cache, OriginalIdentity(row), row.owner.value.trackingKey, row.owner.value.completed.value);
      }
    }
  }

  /** Only named incarnations are ever retained. */
  ghost predicate Named(c: Cache) {
    forall id :: id in c.owners ==> id.processId > 0 && id.creationTime > 0
  }

  lemma StepNamed(s: System, e: Event)
    requires Sound(s) && Allowed(s, e) && Named(s.cache)
    ensures Named(Next(s, e).cache)
  {
    match e
    case Record(_, _) =>
    case RetainOne(row) =>
      forall id | id in Next(s, e).cache.owners ensures id.processId > 0 && id.creationTime > 0 {
        RetainIsExact(s, row, id);
      }
    case PublishOwner(key, pending) =>
      if key in s.done {
        PublishKeeps(s.cache, key, s.done[key], pending, |pending|);
        assert pending[..|pending|] == pending;
      }
  }

  lemma {:induction false} NamedOverRuns(s: System, es: seq<Event>)
    requires Sound(s) && Named(s.cache) && AllowedRun(s, es)
    ensures Named(Run(s, es).cache)
    decreases |es|
  {
    if es != [] {
      StepNamed(s, es[0]);
      StepSound(s, es[0]);
      NamedOverRuns(Next(s, es[0]), es[1..]);
    }
  }

  /**
   * In every reachable state a lookup is exact: unknown just when the identity is not retained, pending just
   * when it waits for its owner's result, and else completed with the result that owner recorded.
   */
  lemma LookupIsExact(es: seq<Event>, id: Identity)
    requires AllowedRun(System(EMPTY, map[]), es)
    ensures var s := Run(System(EMPTY, map[]), es);
      && (Find(s.cache, id) == Unknown <==> id !in s.cache.owners)
      && (Find(s.cache, id) == Pending <==> id in s.cache.owners && s.cache.owners[id].proof == None)
      && (id in s.cache.owners && s.cache.owners[id].proof.Some? ==>
           && s.cache.owners[id].trackingKey in s.done
           && Find(s.cache, id) == Completed(s.done[s.cache.owners[id].trackingKey]))
  {
    SoundOverRuns(System(EMPTY, map[]), es);
    NamedOverRuns(System(EMPTY, map[]), es);
  }

  /** In any cache, reachable or not, an identity without a process id or a creation time is unknown. */
  lemma UnnamedIsUnknown(c: Cache, id: Identity)
    requires id.processId <= 0 || id.creationTime <= 0
    ensures Find(c, id) == Unknown
  {
  }

  /** Once its owner's result is published a waiting identity is answered with it, unless more than 256 waited with it. */
  lemma PublishedIsAnswered(es: seq<Event>, key: string, pending: seq<Identity>, id: Identity)
    requires AllowedRun(System(EMPTY, map[]), es + [PublishOwner(key, pending)])
    requires var s := Run(System(EMPTY, map[]), es); key in s.done && id in pending && |pending| <= 256
    ensures var s := Run(System(EMPTY, map[]), es);
      Find(s.cache, id) == Pending && Find(Next(s, PublishOwner(key, pending)).cache, id) == Completed(s.done[key])
  {
    var s, e := Run(System(EMPTY, map[]), es), PublishOwner(key, pending);
    RunAppend(System(EMPTY, map[]), es, e);
    SoundOverRuns(System(EMPTY, map[]), es);
    NamedOverRuns(System(EMPTY, map[]), es);
    assert IsPending(s.cache, key, id);
    PublishSound(s, key, pending);
    PublishKeeps(s.cache, key, s.done[key], pending, |pending|);
    assert pending[..|pending|] == pending;
    NewestHoldsTail(s.cache.queue, pending, id);
  }
}
