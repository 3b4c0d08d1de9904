/** Snapshot space attribution: the numeric checks made when only counts are reported, and what sets they allow. */
module SnapshotAttribution {
  import opened Prelude
  import opened BlockRanges
  import opened SnapshotFamilies
  import Utf8

  /** One row's seven reported block counts. */
  datatype Measures = Measures(
    referenced: nat, sharedWithLive: nat, absentFromLive: nat, sharedWithOthers: nat,
    unique: nat, protectedBlocks: nat, candidate: nat)

  /** A snapshot row: its metadata and its payload counts. */
  datatype SnapshotRow = SnapshotRow(metadata: Measures, payload: Measures)

  /** What a row says beside its counts. */
  datatype Header = Header(xid: nat, name: string, purgeable: nat)

  /** The three running totals kept per kind. */
  datatype Totals = Totals(referenced: nat, uniqueOther: nat, shared: nat)

  /** The counts of a snapshot's blocks against the live view, the other snapshots and protected blocks. */
  ghost function MeasuresOf(refs: set<int>, live: set<int>, others: set<int>, kept: set<int>): Measures {
    Measures(|refs|, |refs * live|, |refs - live|, |refs * others|,
             |refs - (live + others)|, |refs * kept|, |refs - (live + others) - kept|)
  }

  /** The per-row test on reported counts. */
  predicate RowAccepted(m: Measures, union: nat, capacity: nat) {
    && m.referenced <= capacity && m.sharedWithLive <= capacity && m.absentFromLive <= capacity
    && m.sharedWithOthers <= capacity && m.unique <= capacity && m.protectedBlocks <= capacity && m.candidate <= capacity
    && m.referenced <= union && m.sharedWithLive <= m.referenced
    && m.absentFromLive == m.referenced - m.sharedWithLive && m.sharedWithOthers <= m.referenced
    && m.unique <= m.referenced - m.sharedWithLive && m.unique <= m.referenced - m.sharedWithOthers
    && m.unique >= (if m.referenced - m.sharedWithLive > m.sharedWithOthers
                    then m.referenced - m.sharedWithLive - m.sharedWithOthers else 0)
    && m.protectedBlocks <= m.referenced
    && m.candidate <= m.unique && m.candidate <= m.referenced - m.protectedBlocks
    && m.candidate >= (if m.unique > m.protectedBlocks then m.unique - m.protectedBlocks else 0)
  }

  ghost function Referenced(rows: seq<Measures>): seq<int> {
    seq(|rows|, i requires 0 <= i < |rows| => rows[i].referenced)
  }

  ghost function Shared(rows: seq<Measures>): seq<int> {
    seq(|rows|, i requires 0 <= i < |rows| => rows[i].sharedWithOthers)
  }

  ghost function Exclusive(rows: seq<Measures>): seq<int> {
    seq(|rows|, i requires 0 <= i < |rows| => rows[i].referenced - rows[i].sharedWithOthers)
  }

  /** The whole-inventory test for one kind, over exact sums. */
  ghost predicate KindAccepted(rows: seq<Measures>, union: nat, capacity: nat) {
    && (forall i :: 0 <= i < |rows| ==> RowAccepted(rows[i], union, capacity))
    && Sum(Exclusive(rows)) <= union
    && union <= Sum(Referenced(rows))
    && Sum(Shared(rows)) >= 2 * (union - Sum(Exclusive(rows)))
    && (forall i :: 0 <= i < |rows| ==> rows[i].sharedWithOthers <= union - Sum(Exclusive(rows)))
  }

  function Kind(rows: seq<SnapshotRow>, metadata: bool): seq<Measures> {
    seq(|rows|, i requires 0 <= i < |rows| => if metadata then rows[i].metadata else rows[i].payload)
  }

  ghost predicate InventoryAccepted(rows: seq<SnapshotRow>, metadata: nat, payload: nat, catalog: nat, capacity: nat) {
    && 0 < catalog <= capacity && metadata <= catalog && payload <= capacity - catalog
    && (forall i :: 0 <= i < |rows| ==> rows[i].metadata.referenced > 0)
    && KindAccepted(Kind(rows, true), metadata, capacity)
    && KindAccepted(Kind(rows, false), payload, capacity)
  }

  // ---- The accumulating validator ----

  /** What the saturating totals hold after the first i rows of one kind. */
  ghost predicate Accumulated(t: Totals, rows: seq<Measures>, i: nat, union: nat, capacity: nat)
    requires i <= |rows|
  {
    && (forall k :: 0 <= k < i ==> RowAccepted(rows[k], union, capacity))
    && t.referenced == Min(capacity, Sum(Referenced(rows)[..i]))
    && t.uniqueOther == Sum(Exclusive(rows)[..i]) <= union
    && t.shared == Min(2 * capacity, Sum(Shared(rows)[..i]))
  }

  lemma TakeNext(s: seq<int>, i: nat)
    requires i < |s|
    ensures Sum(s[..i + 1]) == Sum(s[..i]) + s[i]
  {
    assert s[..i + 1] == s[..i] + [s[i]];
    SumInit(s[..i], s[i]);
  }

  /** Adds one row to the saturating totals of its kind, or refuses it. */
  method AddRow(t: Totals, ghost rows: seq<Measures>, ghost i: nat, m: Measures, union: nat, capacity: nat)
    returns (ok: bool, next: Totals)
    requires union <= capacity && i < |rows| && m == rows[i] && Accumulated(t, rows, i, union, capacity)
    ensures ok <==> RowAccepted(m, union, capacity) && Sum(Exclusive(rows)[..i + 1]) <= union
    ensures ok ==> Accumulated(next, rows, i + 1, union, capacity)
  {
    next := t;
    TakeNext(Referenced(rows), i);
    TakeNext(Exclusive(rows), i);
    TakeNext(Shared(rows), i);
    if !RowAccepted(m, union, capacity) {
      return false, t;
    }
    next := next.(referenced := next.referenced + Min(capacity - next.referenced, m.referenced));
    var unique := m.referenced - m.sharedWithOthers;
    if unique > union - next.uniqueOther {
      return false, t;
    }
    next := next.(uniqueOther := next.uniqueOther + unique,
                  shared := next.shared + Min(2 * capacity - next.shared, m.sharedWithOthers));
    ok := true;
  }

  /** What a whole accepted kind says about its row i. */
  lemma KindSaysOfRow(rows: seq<Measures>, i: nat, union: nat, capacity: nat)
    requires i < |rows| && KindAccepted(rows, union, capacity)
    ensures RowAccepted(rows[i], union, capacity) && Sum(Exclusive(rows)[..i + 1]) <= union
  {
    ExclusiveNonnegative(rows, i + 1, union, capacity);
  }

  /** Adds a row of one kind; when that fails the kind as a whole is not acceptable. */
  method AddOrRefuse(t: Totals, ghost rows: seq<Measures>, ghost i: nat, m: Measures, union: nat, capacity: nat)
    returns (ok: bool, next: Totals)
    requires union <= capacity && i < |rows| && m == rows[i] && Accumulated(t, rows, i, union, capacity)
    ensures ok ==> Accumulated(next, rows, i + 1, union, capacity)
    ensures !ok ==> !KindAccepted(rows, union, capacity)
  {
    if KindAccepted(rows, union, capacity) {
      KindSaysOfRow(rows, i, union, capacity);
    }
    ok, next := AddRow(t, rows, i, m, union, capacity);
  }

  lemma ExclusiveNonnegative(rows: seq<Measures>, i: nat, union: nat, capacity: nat)
    requires i <= |rows| && KindAccepted(rows, union, capacity)
    ensures Sum(Exclusive(rows)[..i]) <= union
  {
    SumPrefix(Exclusive(rows), i);
  }

  /** The second pass: the totals against the union, then every row's shared count. */
  method CloseKind(t: Totals, rows: seq<Measures>, union: nat, capacity: nat) returns (ok: bool)
    requires union <= capacity && Accumulated(t, rows, |rows|, union, capacity)
    ensures ok <==> KindAccepted(rows, union, capacity)
  {
    assert Referenced(rows)[..|rows|] == Referenced(rows);
    assert Exclusive(rows)[..|rows|] == Exclusive(rows);
    assert Shared(rows)[..|rows|] == Shared(rows);
    if !(union <= t.referenced && t.shared >= 2 * (union - t.uniqueOther)) {
      return false;
    }
    for i := 0 to |rows|
      invariant forall k :: 0 <= k < i ==> rows[k].sharedWithOthers <= union - t.uniqueOther
    {
      if rows[i].sharedWithOthers > union - t.uniqueOther {
        return false;
      }
    }
    ok := true;
  }

  // ---- The rows' ids and names ----

  const MAX_NAME: nat := 65535

  predicate NameValid(name: string) {
    name != "" && '\0' !in name && Utf8.Length(name) <= MAX_NAME
  }

  /** Rising transaction ids up to the checkpoint, distinct usable names, and nothing called purgeable. */
  ghost predicate HeadersValid(headers: seq<Header>, checkpoint: nat) {
    && (forall i :: 0 <= i < |headers| ==>
         0 < headers[i].xid <= checkpoint && NameValid(headers[i].name) && headers[i].purgeable == 0)
    && forall i, j :: 0 <= i < j < |headers| ==> headers[i].xid < headers[j].xid && headers[i].name != headers[j].name
  }

  ghost function Names(headers: seq<Header>): set<string> {
    set i | 0 <= i < |headers| :: headers[i].name
  }

  predicate HeaderFollows(h: Header, previous: nat, names: set<string>, checkpoint: nat) {
    previous < h.xid <= checkpoint && NameValid(h.name) && h.name !in names && h.purgeable == 0
  }

  ghost function LastXid(headers: seq<Header>): nat {
    if headers == [] then 0 else headers[|headers| - 1].xid
  }

  lemma NextHeader(headers: seq<Header>, i: nat, checkpoint: nat)
    requires i < |headers| && HeadersValid(headers[..i], checkpoint)
    ensures HeadersValid(headers[..i + 1], checkpoint) <==>
      HeaderFollows(headers[i], LastXid(headers[..i]), Names(headers[..i]), checkpoint)
    ensures Names(headers[..i + 1]) == Names(headers[..i]) + {headers[i].name}
    ensures HeadersValid(headers, checkpoint) ==> HeadersValid(headers[..i + 1], checkpoint)
  {
    var done, next := headers[..i], headers[..i + 1];
    assert forall k :: 0 <= k < i ==> next[k] == done[k];
    assert next[i] == headers[i];
    if HeadersValid(next, checkpoint) {
      forall k | 0 <= k < i ensures done[k].name != headers[i].name {
        assert next[k].name != next[i].name;
      }
      assert i > 0 ==> next[i - 1].xid < next[i].xid;
    }
    if HeaderFollows(headers[i], LastXid(done), Names(done), checkpoint) {
      forall k | 0 <= k < i ensures done[k].name != headers[i].name && done[k].xid < headers[i].xid {
        assert done[k].name in Names(done);
        assert k < i - 1 ==> done[k].xid < done[i - 1].xid;
      }
    }
  }

  /** The totals of both kinds after the first i rows, none of which had empty metadata. */
  ghost predicate BothAdded(m: Totals, p: Totals, rows: seq<SnapshotRow>, i: nat, metadata: nat, payload: nat, capacity: nat)
    requires i <= |rows|
  {
    && Accumulated(m, Kind(rows, true), i, metadata, capacity) && Accumulated(p, Kind(rows, false), i, payload, capacity)
    && forall k :: 0 <= k < i ==> rows[k].metadata.referenced > 0
  }

  ghost predicate Unacceptable(rows: seq<SnapshotRow>, metadata: nat, payload: nat, capacity: nat) {
    forall catalog :: !InventoryAccepted(rows, metadata, payload, catalog, capacity)
  }

  lemma NothingAdded(rows: seq<SnapshotRow>, metadata: nat, payload: nat, capacity: nat)
    ensures BothAdded(Totals(0, 0, 0), Totals(0, 0, 0), rows, 0, metadata, payload, capacity)
  {
  }

  /** A row's two kinds into the totals; when that fails no accepted inventory has these rows. */
  method AddBoth(m: Totals, p: Totals, rows: seq<SnapshotRow>, i: nat, metadata: nat, payload: nat, capacity: nat)
    returns (ok: bool, nextM: Totals, nextP: Totals)
    requires metadata <= capacity && payload <= capacity && i < |rows|
    requires BothAdded(m, p, rows, i, metadata, payload, capacity)
    ensures ok ==> BothAdded(nextM, nextP, rows, i + 1, metadata, payload, capacity)
    ensures !ok ==> Unacceptable(rows, metadata, payload, capacity)
  {
    nextP := p;
    ok, nextM := AddOrRefuse(m, Kind(rows, true), i, rows[i].metadata, metadata, capacity);
    if !ok { return; }
    if rows[i].metadata.referenced == 0 { return false, nextM, nextP; }
    ok, nextP := AddOrRefuse(p, Kind(rows, false), i, rows[i].payload, payload, capacity);
  }

  /** What the loop remembers of the first i headers. */
  ghost predicate HeadersRead(headers: seq<Header>, i: nat, previous: nat, names: set<string>, checkpoint: nat)
    requires i <= |headers|
  {
    HeadersValid(headers[..i], checkpoint) && previous == LastXid(headers[..i]) && names == Names(headers[..i])
  }

  method AddHeader(headers: seq<Header>, i: nat, previous: nat, names: set<string>, checkpoint: nat)
    returns (ok: bool, nextPrevious: nat, nextNames: set<string>)
    requires i < |headers| && HeadersRead(headers, i, previous, names, checkpoint)
    ensures ok ==> HeadersRead(headers, i + 1, nextPrevious, nextNames, checkpoint)
    ensures !ok ==> !HeadersValid(headers, checkpoint)
  {
    NextHeader(headers, i, checkpoint);
    ok := HeaderFollows(headers[i], previous, names, checkpoint);
    nextPrevious, nextNames := headers[i].xid, names + {headers[i].name};
  }

  /** The row loop: headers in order, both kinds accumulated. */
  method AddRows(headers: seq<Header>, rows: seq<SnapshotRow>, checkpoint: nat, metadata: nat, payload: nat, capacity: nat)
    returns (ok: bool, m: Totals, p: Totals)
    requires |headers| == |rows| && metadata <= capacity && payload <= capacity
    ensures ok ==> HeadersValid(headers, checkpoint) && BothAdded(m, p, rows, |rows|, metadata, payload, capacity)
    ensures !ok ==> !HeadersValid(headers, checkpoint) || Unacceptable(rows, metadata, payload, capacity)
  {
    var names: set<string>, previous := {}, 0;
    m, p := Totals(0, 0, 0), Totals(0, 0, 0);
    NothingAdded(rows, metadata, payload, capacity);
    for i := 0 to |rows|
      invariant HeadersRead(headers, i, previous, names, checkpoint) && BothAdded(m, p, rows, i, metadata, payload, capacity)
    {
      ok, previous, names := AddHeader(headers, i, previous, names, checkpoint);
      if !ok { return; }
      ok, m, p := AddBoth(m, p, rows, i, metadata, payload, capacity);
      if !ok { return; }
    }
    assert headers[..|rows|] == headers;
    ok := true;
  }

  /**
   * The whole validation, in saturating arithmetic, accepts exactly the reports whose ids and names are in
   * order and whose exact sums pass.
   */
  method ValidateInventory(headers: seq<Header>, rows: seq<SnapshotRow>, checkpoint: nat,
                           metadata: nat, payload: nat, catalog: nat, capacity: nat) returns (ok: bool)
    requires |headers| == |rows|
    ensures ok <==> HeadersValid(headers, checkpoint) && InventoryAccepted(rows, metadata, payload, catalog, capacity)
  {
    if metadata > capacity || payload > capacity || catalog > capacity ||
       !(catalog > 0 && metadata <= catalog && payload <= capacity - catalog) {
      return false;
    }
    var m, p;
    ok, m, p := AddRows(headers, rows, checkpoint, metadata, payload, capacity);
    if !ok { return; }
    ok := CloseKind(m, Kind(rows, true), metadata, capacity);
    if !ok { return; }
    ok := CloseKind(p, Kind(rows, false), payload, capacity);
  }
}
