/** What accepted histories and accountings say of the ranges and totals they report, field by field. */
module HistoryMeaning {
  import opened BlockRanges
  import opened SnapshotFamilies
  import opened RetainedHistory
  import Exact = AttributionExactness

  /** Some range of the list covers the block. */
  ghost predicate Covered(ranges: seq<RawRange>, b: int) {
    exists i :: 0 <= i < |ranges| && ranges[i].first <= b < ranges[i].first + ranges[i].count
  }

  /** The blocks of a list are those its ranges cover. */
  lemma SpansCover(ranges: seq<RawRange>)
    ensures forall b :: b in Blocks(Spans(ranges)) <==> Covered(ranges, b)
  {
    forall b ensures b in Blocks(Spans(ranges)) <==> Covered(ranges, b) {
      InBlocks(Spans(ranges), b);
      if i :| 0 <= i < |Spans(ranges)| && Spans(ranges)[i].start <= b < Spans(ranges)[i].end {
        assert ranges[i].first <= b < ranges[i].first + ranges[i].count;
      }
      if i :| 0 <= i < |ranges| && ranges[i].first <= b < ranges[i].first + ranges[i].count {
        assert Spans(ranges)[i].start <= b < Spans(ranges)[i].end;
      }
    }
  }

  /** Nonempty ranges in order, with at least one block between two of them. */
  ghost predicate Apart(ranges: seq<RawRange>) {
    && (forall i :: 0 <= i < |ranges| ==> ranges[i].count > 0)
    && (forall i, j :: 0 <= i < j < |ranges| ==> ranges[i].first + ranges[i].count < ranges[j].first)
  }

  lemma CanonicalIsApart(ranges: seq<RawRange>)
    ensures Canonical(Spans(ranges)) <==> Apart(ranges)
  {
    var s := Spans(ranges);
    if Canonical(s) {
      forall i | 0 <= i < |ranges| ensures ranges[i].count > 0 {
        assert s[i].start < s[i].end;
      }
      forall i, j | 0 <= i < j < |ranges| ensures ranges[i].first + ranges[i].count < ranges[j].first {
        assert s[i].end < s[j].start;
      }
    }
  }

  // ---- The accounting ----

  /** In an accepted accounting the ranges of either kind are apart, inside the store, and of one kind only. */
  lemma AcceptedRanges(a: Accounting, s: Selection)
    requires AccountingValid(a, s)
    ensures Apart(a.metadata) && Apart(a.payload)
    ensures forall b :: Covered(a.metadata, b) || Covered(a.payload, b) ==> 0 <= b < s.capacity
    ensures forall b :: !(Covered(a.metadata, b) && Covered(a.payload, b))
    ensures Covered(a.metadata, 0) && forall i :: 0 <= i < |s.blocks| ==> Covered(a.metadata, s.blocks[i])
  {
    CanonicalIsApart(a.metadata);
    CanonicalIsApart(a.payload);
    SpansCover(a.metadata);
    SpansCover(a.payload);
  }

  /**
   * Conservation: what the main pool has allocated is the covered blocks, each once, with what is reserved and
   * deferred; the internal pool is a part of it; nothing is unattributed; and the current view fits both kinds.
   */
  lemma AcceptedTotals(a: Accounting, s: Selection) returns (metadata: set<int>, payload: set<int>)
    requires AccountingValid(a, s)
    ensures forall b :: (b in metadata <==> Covered(a.metadata, b)) && (b in payload <==> Covered(a.payload, b))
    ensures a.ownedMain == |metadata + payload| == |metadata| + |payload|
    ensures a.allocatedMain == |metadata + payload| + a.reservedMain + a.deferredMain <= s.capacity
    ensures a.allocatedInternal == a.ownedInternal + a.deferredInternal <= a.allocatedMain && a.ownedInternal <= |metadata|
    ensures 0 < s.currentMetadata <= |metadata| && s.currentPayload <= |payload|
    ensures s.unattributedMain == 0 && s.unattributedInternal == 0
  {
    metadata, payload := Blocks(Spans(a.metadata)), Blocks(Spans(a.payload));
    SpansCover(a.metadata);
    SpansCover(a.payload);
    Exact.DisjointSize(metadata, payload);
  }

  /** The ids rise to the selected checkpoint; the volumes rise, the selected one among them, and reference no more than the payload. */
  lemma AcceptedUsage(a: Accounting, s: Selection)
    requires AccountingValid(a, s)
    ensures 0 < |a.xids| <= s.limit && a.xids[0] > 0 && a.xids[|a.xids| - 1] == s.checkpoint
    ensures forall i, j :: 0 <= i < j < |a.xids| ==> a.xids[i] < a.xids[j]
    ensures |a.metadata| + |a.payload| + |a.xids| <= s.limit && 0 < |a.usage| <= s.limit
    ensures exists i :: 0 <= i < |a.usage| && a.usage[i].oid == s.volume
    ensures forall i, j :: 0 <= i < j < |a.usage| ==> a.usage[i].oid < a.usage[j].oid
    ensures forall i :: 0 <= i < |a.usage| ==> var v := a.usage[i];
      && v.oid > 0 && v.exclusive <= v.referenced
      && v.referencedBytes == v.referenced * s.blockSize && v.exclusiveBytes == v.exclusive * s.blockSize
    ensures Sum(seq(|a.usage|, i requires 0 <= i < |a.usage| => a.usage[i].referenced)) <= |Blocks(Spans(a.payload))|
  {
    var usage := a.usage;
    assert ReferencedBlocks(usage)[..|usage|] == ReferencedBlocks(usage);
    assert ReferencedBlocks(usage) == seq(|a.usage|, i requires 0 <= i < |a.usage| => a.usage[i].referenced);
    forall i | 0 <= i < |usage| ensures VolumeValid(usage[i], s.blockSize) {
    }
  }

  // ---- The history ----

  /** An accepted history leads from one id to the other, a checkpoint with metadata for each id, within a million ranges in all. */
  lemma AcceptedHistory(s: Space, chain: seq<nat>, cps: seq<Checkpoint>, capacity: nat, from: nat, to: nat)
    requires HistoryValid(s, chain, cps, capacity, from, to)
    ensures 2 <= |chain| <= 1000000 && |cps| == |chain| && chain[0] == from > 0 && chain[|chain| - 1] == to
    ensures forall i, j :: 0 <= i < j < |cps| ==> cps[i].xid < cps[j].xid
    ensures forall i :: 0 <= i < |cps| ==> cps[i].xid == chain[i] && |cps[i].metadata| > 0
    ensures Sum(seq(|cps|, i requires 0 <= i < |cps| => |cps[i].metadata| + |cps[i].payload|)) <= 1000000
  {
    assert RangeCounts(cps) == seq(|cps|, i requires 0 <= i < |cps| => |cps[i].metadata| + |cps[i].payload|);
    forall i | 0 <= i < |cps| ensures cps[i].xid == chain[i] && |cps[i].metadata| > 0 {
      assert EntryValid(s, chain, cps, capacity, i);
    }
  }

  /** Each of its ranges lies wholly in the main store or, with Fusion, wholly in the second tier. */
  ghost predicate OneMember(s: Space, r: RawRange) {
    && r.count > 0
    && (r.first + r.count <= s.main || (s.fusion && s.tierBase <= r.first && r.first + r.count <= s.tierBase + s.tier))
  }

  lemma AddressedInOne(s: Space, r: RawRange)
    requires s.main <= s.tierBase
    ensures Address(s, r.first, r.count) <==> OneMember(s, r)
  {
  }

  /** The ranges of either kind of a checkpoint are apart and in one member each, and both kinds together fit the container. */
  lemma AcceptedEntry(s: Space, chain: seq<nat>, cps: seq<Checkpoint>, capacity: nat, from: nat, to: nat, i: nat)
    requires HistoryValid(s, chain, cps, capacity, from, to) && i < |cps| && s.main <= s.tierBase
    ensures Apart(cps[i].metadata) && Apart(cps[i].payload)
    ensures forall k :: 0 <= k < |cps[i].metadata| ==> OneMember(s, cps[i].metadata[k])
    ensures forall k :: 0 <= k < |cps[i].payload| ==> OneMember(s, cps[i].payload[k])
    ensures |Blocks(Spans(cps[i].metadata))| + |Blocks(Spans(cps[i].payload))| <= capacity
  {
    assert EntryValid(s, chain, cps, capacity, i);
    CanonicalIsApart(cps[i].metadata);
    CanonicalIsApart(cps[i].payload);
    LengthIsSize(Spans(cps[i].metadata));
    LengthIsSize(Spans(cps[i].payload));
    forall k | 0 <= k < |cps[i].metadata| ensures OneMember(s, cps[i].metadata[k]) {
      AddressedInOne(s, cps[i].metadata[k]);
    }
    forall k | 0 <= k < |cps[i].payload| ensures OneMember(s, cps[i].payload[k]) {
      AddressedInOne(s, cps[i].payload[k]);
    }
  }
}
