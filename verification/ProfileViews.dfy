/** The views of one checkpoint of a visible-snapshot report: their order, and what their blocks must be. */
module ProfileViews {
  import opened Prelude
  import opened BlockRanges
  import opened SnapshotFamilies
  import opened SnapshotMeasures
  import A = SnapshotAttribution
  import V = VisibleSnapshots
  import O = MarkedOwners
  import M = ProfileSetMath

  datatype Descriptor = Descriptor(oid: nat, xid: nat, block: nat)

  /** A snapshot of a volume, or its current view. */
  datatype ProfileView = ProfileView(
    volume: nat, xid: nat, current: bool, name: string, descriptor: Descriptor, declared: nat, records: nat,
    metadata: seq<Span>, payload: seq<Span>)

  datatype Checkpoint = Checkpoint(xid: nat, metadata: seq<Span>, payload: seq<Span>, views: seq<ProfileView>)

  // ---- The order of views ----

  /** What the loop remembers of the views before. */
  datatype Seen = Seen(volume: nat, last: nat, hadCurrent: bool, names: set<string>)

  const START := Seen(0, 0, false, {})

  function Turned(s: Seen, volume: nat): Seen {
    if volume == s.volume then s else Seen(volume, 0, false, {})
  }

  predicate DescriptorValid(v: ProfileView, xid: nat) {
    && v.descriptor.oid > 0 && 0 < v.descriptor.xid <= xid && v.descriptor.block > 0
    && if v.current then v.descriptor.oid == v.volume
       else v.descriptor.oid == v.descriptor.block && v.descriptor.xid >= v.xid
  }

  /** What one view says by itself; without Fusion only the selected volume is reported. */
  predicate ViewValid(v: ProfileView, xid: nat, only: Option<nat>) {
    && v.volume > 0 && (only.Some? ==> v.volume == only.value) && 0 < v.xid <= xid && 0 < v.records <= MAX_RANGES
    && (if v.current then v.xid == xid && v.name == "" else A.NameValid(v.name))
    && DescriptorValid(v, xid)
  }

  predicate ViewFollows(s: Seen, v: ProfileView) {
    && v.volume >= s.volume && (v.volume != s.volume ==> s.volume == 0 || s.hadCurrent)
    && !Turned(s, v.volume).hadCurrent
    && (!v.current ==> v.xid > Turned(s, v.volume).last && v.name !in Turned(s, v.volume).names)
  }

  function After(s: Seen, v: ProfileView): Seen {
    var t := Turned(s, v.volume);
    Seen(v.volume, v.xid, v.current, if v.current then t.names else t.names + {v.name})
  }

  /** A view and a later one: volumes rise; within a volume snapshots rise with distinct names, and the current view is last. */
  predicate PairValid(v: ProfileView, w: ProfileView) {
    && v.volume <= w.volume
    && (v.volume == w.volume ==> !v.current && (!w.current ==> v.xid < w.xid && v.name != w.name))
  }

  /** The first n views are in order, and every volume among them that is followed by another ends with its current view. */
  ghost predicate InOrder(views: seq<ProfileView>, n: nat, xid: nat, only: Option<nat>)
    requires n <= |views|
  {
    && (forall i :: 0 <= i < n ==> ViewValid(views[i], xid, only))
    && (forall i, j :: 0 <= i < j < n ==> PairValid(views[i], views[j]))
    && (forall i :: 0 < i < n && views[i - 1].volume != views[i].volume ==> views[i - 1].current)
  }

  ghost predicate OrderValid(views: seq<ProfileView>, xid: nat, only: Option<nat>) {
    views != [] && InOrder(views, |views|, xid, only) && views[|views| - 1].current
  }

  ghost function NamesBefore(views: seq<ProfileView>, n: nat, volume: nat): set<string>
    requires n <= |views|
  {
    set i | 0 <= i < n && views[i].volume == volume && !views[i].current :: views[i].name
  }

  ghost function SeenBefore(views: seq<ProfileView>, n: nat): Seen
    requires n <= |views|
  {
    if n == 0 then START
    else Seen(views[n - 1].volume, views[n - 1].xid, views[n - 1].current, NamesBefore(views, n, views[n - 1].volume))
  }

  lemma NoNamesOfLater(views: seq<ProfileView>, n: nat, xid: nat, only: Option<nat>, volume: nat)
    requires n <= |views| && InOrder(views, n, xid, only) && (n > 0 ==> views[n - 1].volume < volume)
    ensures NamesBefore(views, n, volume) == {}
  {
    forall i | 0 <= i < n ensures views[i].volume < volume {
      assert i < n - 1 ==> PairValid(views[i], views[n - 1]);
    }
  }

  lemma SeenNext(views: seq<ProfileView>, n: nat, xid: nat, only: Option<nat>)
    requires n < |views| && InOrder(views, n, xid, only) && views[n].volume >= SeenBefore(views, n).volume && views[n].volume > 0
    ensures After(SeenBefore(views, n), views[n]) == SeenBefore(views, n + 1)
  {
    var v := views[n];
    if n == 0 || views[n - 1].volume != v.volume {
      NoNamesOfLater(views, n, xid, only, v.volume);
    }
    var before := NamesBefore(views, n, v.volume);
    assert NamesBefore(views, n + 1, v.volume) == if v.current then before else before + {v.name};
  }

  lemma FollowsIsInOrder(views: seq<ProfileView>, n: nat, xid: nat, only: Option<nat>)
    requires n < |views| && InOrder(views, n, xid, only) && ViewValid(views[n], xid, only)
    requires ViewFollows(SeenBefore(views, n), views[n])
    ensures InOrder(views, n + 1, xid, only)
  {
    var w := views[n];
    forall i | 0 <= i < n ensures PairValid(views[i], w) {
      var v := views[i];
      assert i < n - 1 ==> PairValid(v, views[n - 1]);
      if v.volume == w.volume && !v.current {
        assert v.name in NamesBefore(views, n, v.volume);
      }
    }
  }

  lemma InOrderFollows(views: seq<ProfileView>, n: nat, xid: nat, only: Option<nat>)
    requires n < |views| && InOrder(views, n + 1, xid, only)
    ensures InOrder(views, n, xid, only) && ViewFollows(SeenBefore(views, n), views[n])
  {
    var s, w := SeenBefore(views, n), views[n];
    if n > 0 {
      assert PairValid(views[n - 1], w);
    }
    if !w.current {
      forall i | 0 <= i < n && views[i].volume == w.volume ensures views[i].name != w.name {
        assert PairValid(views[i], w);
      }
    }
  }

  // ---- The blocks of views ----

  ghost predicate ViewUsable(v: ProfileView) {
    Usable(v.metadata) && Usable(v.payload) && v.descriptor.block < ADDRESS_LIMIT
  }

  ghost predicate Readable(cp: Checkpoint) {
    Usable(cp.metadata) && Usable(cp.payload) && forall i :: 0 <= i < |cp.views| ==> ViewUsable(cp.views[i])
  }

  /** The view lies in the checkpoint, kind by kind, with its descriptor in its own metadata. */
  ghost predicate Inside(cp: Checkpoint, v: ProfileView) {
    && v.metadata != [] && Blocks(v.metadata) <= Blocks(cp.metadata) && Blocks(v.payload) <= Blocks(cp.payload)
    && v.descriptor.block in Blocks(v.metadata)
  }

  /** The payload of the first n views of volumes that satisfy a comparison with this one. */
  ghost function HeldBy(views: seq<ProfileView>, n: nat, volume: nat): set<int>
    requires n <= |views|
  {
    set i, b | 0 <= i < n && views[i].volume == volume && b in Blocks(views[i].payload) :: b
  }

  ghost function HeldBelow(views: seq<ProfileView>, n: nat, volume: nat): set<int>
    requires n <= |views|
  {
    set i, b | 0 <= i < n && views[i].volume < volume && b in Blocks(views[i].payload) :: b
  }

  /** Views of different volumes hold no payload block in common. */
  ghost predicate PeersApart(views: seq<ProfileView>, n: nat)
    requires n <= |views|
  {
    forall i, j :: 0 <= i < j < n && views[i].volume != views[j].volume ==> Blocks(views[i].payload) !! Blocks(views[j].payload)
  }

  function Payloads(views: seq<ProfileView>): seq<seq<Span>> {
    seq(|views|, i requires 0 <= i < |views| => views[i].payload)
  }

  function Metadatas(views: seq<ProfileView>): seq<seq<Span>> {
    seq(|views|, i requires 0 <= i < |views| => views[i].metadata)
  }

  ghost predicate BlocksValid(cp: Checkpoint) {
    && (forall i :: 0 <= i < |cp.views| ==> Inside(cp, cp.views[i]))
    && PeersApart(cp.views, |cp.views|)
    && Blocks(cp.payload) <= UnionOf(V.BlockSets(Payloads(cp.views)))
  }

  ghost predicate CheckpointValid(cp: Checkpoint, only: Option<nat>, capacity: nat) {
    && cp.metadata != [] && |Blocks(cp.metadata)| + |Blocks(cp.payload)| <= capacity
    && OrderValid(cp.views, cp.xid, only) && BlocksValid(cp)
  }

  /** The peers' unions as the loop holds them: of all volumes before the last one, and of that one. */
  ghost predicate PeersSeen(views: seq<ProfileView>, n: nat, previous: seq<Span>, peers: seq<Span>)
    requires n <= |views|
  {
    && Usable(previous) && Usable(peers)
    && Blocks(previous) == HeldBelow(views, n, SeenBefore(views, n).volume)
    && Blocks(peers) == HeldBy(views, n, SeenBefore(views, n).volume)
  }

  lemma VolumesUpTo(views: seq<ProfileView>, n: nat, xid: nat, only: Option<nat>)
    requires n <= |views| && InOrder(views, n, xid, only)
    ensures forall i :: 0 <= i < n ==> views[i].volume <= SeenBefore(views, n).volume
  {
    forall i | 0 <= i < n ensures views[i].volume <= SeenBefore(views, n).volume {
      assert i < n - 1 ==> PairValid(views[i], views[n - 1]);
    }
  }

  /** A new volume turns all earlier ones into peers. */
  lemma AllBelow(views: seq<ProfileView>, n: nat, xid: nat, only: Option<nat>, volume: nat)
    requires n <= |views| && InOrder(views, n, xid, only) && SeenBefore(views, n).volume < volume
    ensures var past := SeenBefore(views, n).volume;
      HeldBelow(views, n, volume) == HeldBelow(views, n, past) + HeldBy(views, n, past) && HeldBy(views, n, volume) == {}
  {
    VolumesUpTo(views, n, xid, only);
  }

  lemma PeersOfOneMore(views: seq<ProfileView>, n: nat, xid: nat, only: Option<nat>)
    requires n < |views| && InOrder(views, n + 1, xid, only) && PeersApart(views, n)
    ensures PeersApart(views, n + 1) <==> HeldBelow(views, n, views[n].volume) !! Blocks(views[n].payload)
  {
    var mine := Blocks(views[n].payload);
    forall i | 0 <= i < n ensures PairValid(views[i], views[n]) {}
    if PeersApart(views, n + 1) {
      forall b | b in HeldBelow(views, n, views[n].volume) ensures b !in mine {
        var i :| 0 <= i < n && views[i].volume < views[n].volume && b in Blocks(views[i].payload);
        assert Blocks(views[i].payload) !! mine;
      }
    }
    if HeldBelow(views, n, views[n].volume) !! mine {
      forall i | 0 <= i < n && views[i].volume != views[n].volume ensures Blocks(views[i].payload) !! mine {
        forall b | b in Blocks(views[i].payload) ensures b !in mine {
          assert b in HeldBelow(views, n, views[n].volume);
        }
      }
    }
  }

  lemma HeldOneMore(views: seq<ProfileView>, n: nat)
    requires n < |views|
    ensures var v := views[n];
      && HeldBelow(views, n + 1, v.volume) == HeldBelow(views, n, v.volume)
      && HeldBy(views, n + 1, v.volume) == HeldBy(views, n, v.volume) + Blocks(v.payload)
  {
    var v := views[n];
    forall b ensures b in HeldBy(views, n + 1, v.volume) <==> b in HeldBy(views, n, v.volume) || b in Blocks(v.payload) {
      if b in HeldBy(views, n + 1, v.volume) {
        var i :| 0 <= i < n + 1 && views[i].volume == v.volume && b in Blocks(views[i].payload);
        assert i < n ==> b in HeldBy(views, n, v.volume);
      }
    }
  }

  lemma UsableJoin(a: seq<Span>, b: seq<Span>)
    requires Usable(a) && Usable(b)
    ensures NonEmpty(a + b) && Blocks(a + b) == Blocks(a) + Blocks(b)
  {
    BlocksConcat(a, b);
  }

  method Merge(math: M.ProfileSetMath, a: seq<Span>, b: seq<Span>) returns (ok: bool, u: seq<Span>)
    requires 0 <= math.work <= M.BUDGET && Usable(a) && Usable(b)
    modifies math
    ensures math.work >= old(math.work)
    ensures !ok ==> math.work > M.BUDGET
    ensures ok ==> math.work <= M.BUDGET && Usable(u) && Blocks(u) == Blocks(a) + Blocks(b)
  {
    UsableJoin(a, b);
    ok, u := math.Union(a + b);
  }

  /** A block lies in the ranges when nothing of it is left outside them. */
  method Holds(math: M.ProfileSetMath, block: nat, ranges: seq<Span>) returns (verdict: M.Verdict)
    requires 0 <= math.work <= M.BUDGET && block < ADDRESS_LIMIT && Usable(ranges)
    modifies math
    ensures math.work >= old(math.work)
    ensures verdict == M.OverBudget <==> math.work > M.BUDGET
    ensures verdict != M.OverBudget ==> (verdict == M.Accepted <==> block in Blocks(ranges))
  {
    OneBlock(block);
    verdict := O.Inside(math, [Span(block, block + 1)], ranges);
  }

  lemma OneBlock(block: nat)
    requires block < ADDRESS_LIMIT
    ensures Usable([Span(block, block + 1)]) && Blocks([Span(block, block + 1)]) == {block}
  {
    BlocksAppend([], Span(block, block + 1));
    assert [] + [Span(block, block + 1)] == [Span(block, block + 1)];
    assert Interval(block, block + 1) == {block};
  }

  method ViewInside(math: M.ProfileSetMath, cp: Checkpoint, v: ProfileView) returns (verdict: M.Verdict)
    requires 0 <= math.work <= M.BUDGET && Usable(cp.metadata) && Usable(cp.payload) && ViewUsable(v)
    modifies math
    ensures math.work >= old(math.work)
    ensures verdict == M.OverBudget <==> math.work > M.BUDGET
    ensures verdict != M.OverBudget ==> (verdict == M.Accepted <==> Inside(cp, v))
  {
    if v.metadata == [] { return M.Refused; }
    verdict := O.Inside(math, v.metadata, cp.metadata);
    if verdict != M.Accepted { return; }
    verdict := O.Inside(math, v.payload, cp.payload);
    if verdict != M.Accepted { return; }
    verdict := Holds(math, v.descriptor.block, v.metadata);
  }

  /** What the loop has established after n views. */
  ghost predicate Progress(cp: Checkpoint, n: nat, only: Option<nat>, s: Seen, previous: seq<Span>, peers: seq<Span>)
    requires n <= |cp.views|
  {
    && InOrder(cp.views, n, cp.xid, only) && s == SeenBefore(cp.views, n)
    && (forall i :: 0 <= i < n ==> Inside(cp, cp.views[i]))
    && PeersApart(cp.views, n) && PeersSeen(cp.views, n, previous, peers)
  }

  /** A view that comes next in order: its peers, its blocks, and the peers it leaves. */
  method ReadView(math: M.ProfileSetMath, cp: Checkpoint, n: nat, only: Option<nat>, s: Seen, previous: seq<Span>, peers: seq<Span>)
    returns (verdict: M.Verdict, nextPrevious: seq<Span>, nextPeers: seq<Span>)
    requires 0 <= math.work <= M.BUDGET && Readable(cp) && n < |cp.views| && Progress(cp, n, only, s, previous, peers)
    requires ViewValid(cp.views[n], cp.xid, only) && ViewFollows(s, cp.views[n])
    modifies math
    ensures math.work >= old(math.work)
    ensures verdict == M.OverBudget <==> math.work > M.BUDGET
    ensures verdict == M.Accepted ==> Progress(cp, n + 1, only, After(s, cp.views[n]), nextPrevious, nextPeers)
    ensures verdict == M.Refused ==> !Inside(cp, cp.views[n]) || !PeersApart(cp.views, n + 1)
  {
    var v, ok := cp.views[n], true;
    assert ViewUsable(v);
    nextPrevious, nextPeers := previous, peers;
    FollowsIsInOrder(cp.views, n, cp.xid, only);
    SeenNext(cp.views, n, cp.xid, only);
    if v.volume != s.volume {
      ok, nextPrevious := Merge(math, previous, peers);
      if !ok { return M.OverBudget, nextPrevious, nextPeers; }
      V.UsableEmpty();
      nextPeers := [];
      AllBelow(cp.views, n, cp.xid, only, v.volume);
    }
    PeersOfOneMore(cp.views, n, cp.xid, only);
    HeldOneMore(cp.views, n);
    verdict := ViewInside(math, cp, v);
    if verdict != M.Accepted { return; }
    verdict := O.Apart(math, nextPrevious, v.payload);
    if verdict != M.Accepted { return; }
    ok, nextPeers := Merge(math, nextPeers, v.payload);
    if !ok { verdict := M.OverBudget; }
  }

  /** The view at n, if it comes next in order. */
  method ReadNext(math: M.ProfileSetMath, cp: Checkpoint, n: nat, only: Option<nat>, s: Seen, previous: seq<Span>, peers: seq<Span>)
    returns (verdict: M.Verdict, nextPrevious: seq<Span>, nextPeers: seq<Span>)
    requires 0 <= math.work <= M.BUDGET && Readable(cp) && n < |cp.views| && Progress(cp, n, only, s, previous, peers)
    modifies math
    ensures math.work >= old(math.work)
    ensures verdict == M.OverBudget <==> math.work > M.BUDGET
    ensures verdict == M.Accepted ==> Progress(cp, n + 1, only, After(s, cp.views[n]), nextPrevious, nextPeers)
    ensures verdict == M.Refused ==> !(OrderValid(cp.views, cp.xid, only) && BlocksValid(cp))
  {
    nextPrevious, nextPeers := previous, peers;
    if OrderValid(cp.views, cp.xid, only) { OrderedPrefix(cp.views, n, cp.xid, only); }
    var ok := math.Tick();
    if !ok { return M.OverBudget, previous, peers; }
    if !ViewValid(cp.views[n], cp.xid, only) || !ViewFollows(s, cp.views[n]) { return M.Refused, previous, peers; }
    verdict, nextPrevious, nextPeers := ReadView(math, cp, n, only, s, previous, peers);
  }

  /** All views of a checkpoint. */
  method ReadViews(math: M.ProfileSetMath, cp: Checkpoint, only: Option<nat>) returns (verdict: M.Verdict)
    requires 0 <= math.work <= M.BUDGET && Readable(cp)
    modifies math
    ensures math.work >= old(math.work)
    ensures verdict == M.OverBudget <==> math.work > M.BUDGET
    ensures verdict == M.Accepted ==> OrderValid(cp.views, cp.xid, only) && BlocksValid(cp)
    ensures verdict == M.Refused ==> !(OrderValid(cp.views, cp.xid, only) && BlocksValid(cp))
  {
    var s, previous, peers: seq<Span> := START, [], [];
    V.UsableEmpty();
    for n := 0 to |cp.views|
      invariant old(math.work) <= math.work <= M.BUDGET
      invariant Progress(cp, n, only, s, previous, peers)
    {
      verdict, previous, peers := ReadNext(math, cp, n, only, s, previous, peers);
      if verdict != M.Accepted { return; }
      s := After(s, cp.views[n]);
    }
    if !s.hadCurrent { return M.Refused; }
    verdict := CoversPayload(math, cp);
  }

  lemma OrderedPrefix(views: seq<ProfileView>, n: nat, xid: nat, only: Option<nat>)
    requires n < |views| && OrderValid(views, xid, only)
    ensures ViewValid(views[n], xid, only) && ViewFollows(SeenBefore(views, n), views[n])
  {
    InOrderFollows(views, n, xid, only);
  }

  method CoversPayload(math: M.ProfileSetMath, cp: Checkpoint) returns (verdict: M.Verdict)
    requires 0 <= math.work <= M.BUDGET && Readable(cp)
    modifies math
    ensures math.work >= old(math.work)
    ensures verdict == M.OverBudget <==> math.work > M.BUDGET
    ensures verdict != M.OverBudget ==> (verdict == M.Accepted <==> Blocks(cp.payload) <= UnionOf(V.BlockSets(Payloads(cp.views))))
  {
    forall i | 0 <= i < |cp.views| ensures Usable(Payloads(cp.views)[i]) {
      assert ViewUsable(cp.views[i]);
    }
    var ok, all := O.UnionAll(math, Payloads(cp.views));
    if !ok { return M.OverBudget; }
    verdict := O.Inside(math, cp.payload, all);
  }

  /** One checkpoint: its kinds fit the container, and its views are in order and hold what they may. */
  method ReadCheckpoint(math: M.ProfileSetMath, cp: Checkpoint, only: Option<nat>, capacity: nat) returns (verdict: M.Verdict)
    requires 0 <= math.work <= M.BUDGET && Readable(cp)
    modifies math
    ensures math.work >= old(math.work)
    ensures verdict == M.OverBudget <==> math.work > M.BUDGET
    ensures verdict != M.OverBudget ==> (verdict == M.Accepted <==> CheckpointValid(cp, only, capacity))
  {
    var m, p: nat := 0, 0;
    if cp.metadata == [] { return M.Refused; }
    var ok;
    ok, m := CountOf(math, cp.metadata);
    if !ok { return M.OverBudget; }
    ok, p := CountOf(math, cp.payload);
    if !ok { return M.OverBudget; }
    if m + p > capacity { return M.Refused; }
    verdict := ReadViews(math, cp, only);
  }

  // ---- What an accepted checkpoint says ----

  /** Every payload block of a checkpoint is held by the views of exactly one volume. */
  lemma PayloadHasOneOwner(cp: Checkpoint, only: Option<nat>, capacity: nat, b: int)
    requires CheckpointValid(cp, only, capacity)
    ensures b in Blocks(cp.payload) <==> exists i :: 0 <= i < |cp.views| && b in Blocks(cp.views[i].payload)
    ensures forall i, j :: 0 <= i < j < |cp.views| ==>
      b in Blocks(cp.views[i].payload) && b in Blocks(cp.views[j].payload) ==> cp.views[i].volume == cp.views[j].volume
  {
    if b in Blocks(cp.payload) {
      var i :| 0 <= i < |cp.views| && b in V.BlockSets(Payloads(cp.views))[i];
      assert b in Blocks(cp.views[i].payload);
    }
    forall i | 0 <= i < |cp.views| && b in Blocks(cp.views[i].payload) ensures b in Blocks(cp.payload) {
      assert Inside(cp, cp.views[i]);
    }
  }

  /** Every volume of a checkpoint has exactly one current view, and it is its last. */
  lemma OneCurrentView(views: seq<ProfileView>, xid: nat, only: Option<nat>, i: nat) returns (last: nat)
    requires OrderValid(views, xid, only) && i < |views|
    ensures i <= last < |views| && views[last].volume == views[i].volume && views[last].current
    ensures forall j :: 0 <= j < |views| && views[j].volume == views[i].volume ==> j <= last && (views[j].current ==> j == last)
    decreases |views| - i
  {
    if i + 1 < |views| && views[i + 1].volume == views[i].volume {
      last := OneCurrentView(views, xid, only, i + 1);
    } else {
      last := i;
      forall j | i < j < |views| ensures views[i].volume < views[j].volume {
        assert PairValid(views[i], views[i + 1]);
        assert i + 1 < j ==> PairValid(views[i + 1], views[j]);
      }
      forall j | 0 <= j < i && views[j].volume == views[i].volume ensures !views[j].current {
        assert PairValid(views[j], views[i]);
      }
    }
  }
}
