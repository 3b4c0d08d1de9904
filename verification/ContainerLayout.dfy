/** Where a container's blocks go, which of them its bitmap marks, and where partitions are placed. */
module ContainerLayout {
  import opened Prelude
  import opened Bytes
  import BTreeLeaf

  const FIRST_VOLUME: nat := 4
  const PER_VOLUME: nat := 6
  const DESCRIPTORS: nat := 4
  const DATA: nat := 4
  const FIXED: nat := 15
  const MAX_VOLUMES: nat := 100
  const MAX_PARTITIONS: nat := 512
  const SECTOR: nat := 512
  const BLOCK: nat := 4096

  function TotalBlocks(n: nat): nat {
    FIXED + n * (1 + PER_VOLUME)
  }

  // ---- Bitmaps ----

  function Mask(k: nat): bv8
    requires k < 8
  {
    (1 as bv8) << k
  }

  predicate BitOf(b: bv8, k: nat)
    requires k < 8
  {
    b & Mask(k) != 0
  }

  lemma Masks(k: nat)
    requires k < 8
    ensures Mask(k) == if k == 0 then 1 else if k == 1 then 2 else if k == 2 then 4 else if k == 3 then 8 else if k == 4 then 16
                       else if k == 5 then 32 else if k == 6 then 64 else 128
  {
    if k == 0 {} else if k == 1 {} else if k == 2 {} else if k == 3 {} else if k == 4 {} else if k == 5 {} else if k == 6 {} else {}
  }

  lemma SetOneBit(b: bv8, j: nat, k: nat)
    requires j < 8 && k < 8
    ensures BitOf(b | Mask(j), k) <==> j == k || BitOf(b, k)
  {
    Masks(j);
    Masks(k);
    assert j == k ==> Mask(j) & Mask(k) != 0;
    assert j != k ==> Mask(j) & Mask(k) == 0;
  }

  predicate Marked(bitmap: seq<bv8>, bit: nat) {
    bit / 8 < |bitmap| && BitOf(bitmap[bit / 8], bit % 8)
  }

  /** Block b is the bit that is left in front when byte b / 8 is shifted right by b % 8. */
  lemma MarkedIsBit(bitmap: seq<bv8>, bit: nat)
    ensures Marked(bitmap, bit) <==> bit / 8 < |bitmap| && (bitmap[bit / 8] >> (bit % 8)) & 1 == 1
  {
    if bit / 8 < |bitmap| {
      var b, k := bitmap[bit / 8], bit % 8;
      Masks(k);
      if k == 0 {} else if k == 1 {} else if k == 2 {} else if k == 3 {} else if k == 4 {} else if k == 5 {} else if k == 6 {} else {}
    }
  }

  method SetBitmapBit(bitmap: array<bv8>, bit: nat)
    requires bit / 8 < bitmap.Length
    modifies bitmap
    ensures forall k: nat {:trigger Marked(bitmap[..], k)} :: Marked(bitmap[..], k) <==> k == bit || old(Marked(bitmap[..], k))
  {
    ghost var was := bitmap[..];
    bitmap[bit / 8] := bitmap[bit / 8] | Mask(bit % 8);
    forall k: nat {:trigger Marked(bitmap[..], k)} ensures Marked(bitmap[..], k) <==> k == bit || Marked(was, k) {
      if k / 8 == bit / 8 {
        SetOneBit(was[bit / 8], bit % 8, k % 8);
      }
    }
  }

  /** How many of the blocks below k the predicate holds of. */
  ghost function CountMarked(bitmap: seq<bv8>, k: nat): nat {
    if k == 0 then 0 else CountMarked(bitmap, k - 1) + if Marked(bitmap, k - 1) then 1 else 0
  }

  method CountSetBits(bitmap: array<bv8>, bitCount: nat) returns (count: nat)
    requires bitCount <= 8 * bitmap.Length
    ensures count == CountMarked(bitmap[..], bitCount)
  {
    count := 0;
    for bit := 0 to bitCount
      invariant count == CountMarked(bitmap[..], bit)
    {
      if bitmap[bit / 8] & Mask(bit % 8) != 0 {
        count := count + 1;
      }
    }
  }

  // ---- The layout ----

  ghost predicate OfVolume(n: nat, b: int) {
    FIRST_VOLUME <= b < FIRST_VOLUME + n || (FIRST_VOLUME + n <= b < FIRST_VOLUME + n + PER_VOLUME * n && (b - FIRST_VOLUME - n) % PER_VOLUME < 5)
  }

  /** The blocks the bitmap is to mark. */
  ghost predicate Used(n: nat, b: int) {
    || b == 0 || b == 2 || b == 3 || OfVolume(n, b)
    || FIRST_VOLUME + n + PER_VOLUME * n <= b < TotalBlocks(n)
  }

  /** Checkpoint slots marked as used though nothing is written to them. */
  ghost predicate SpareSlot(n: nat, b: int) {
    var descriptors := FIRST_VOLUME + n + PER_VOLUME * n;
    b == descriptors + 2 || b == descriptors + 3 || b == descriptors + 7
  }

  /** The blocks used once the first i of n volumes are marked. */
  ghost predicate UsedUpTo(n: nat, i: nat, b: int) {
    || b == 0 || b == 2 || b == 3 || FIRST_VOLUME <= b < FIRST_VOLUME + i
    || (FIRST_VOLUME + n <= b < FIRST_VOLUME + n + PER_VOLUME * i && (b - FIRST_VOLUME - n) % PER_VOLUME < 5)
  }

  lemma Remainder(d: int, i: nat)
    requires PER_VOLUME * i <= d < PER_VOLUME * i + PER_VOLUME
    ensures d % PER_VOLUME == d - PER_VOLUME * i
  {
  }

  method MarkVolume(bitmap: array<bv8>, n: nat, i: nat)
    requires bitmap.Length == BLOCK && i < n <= MAX_VOLUMES
    modifies bitmap
    ensures forall k: nat {:trigger Marked(bitmap[..], k)} :: Marked(bitmap[..], k) <==>
        old(Marked(bitmap[..], k)) || k == FIRST_VOLUME + i
        || FIRST_VOLUME + n + PER_VOLUME * i <= k < FIRST_VOLUME + n + PER_VOLUME * i + 5
  {
    ghost var was := bitmap[..];
    SetBitmapBit(bitmap, FIRST_VOLUME + i);
    var layout := FIRST_VOLUME + n + i * PER_VOLUME;
    for offset := 0 to 5
      invariant forall k: nat {:trigger Marked(bitmap[..], k)} :: Marked(bitmap[..], k) <==>
          Marked(was, k) || k == FIRST_VOLUME + i || layout <= k < layout + offset
    {
      SetBitmapBit(bitmap, layout + offset);
    }
  }

  method MarkRun(bitmap: array<bv8>, first: nat, count: nat)
    requires bitmap.Length == BLOCK && first + count <= 8 * BLOCK
    modifies bitmap
    ensures forall k: nat {:trigger Marked(bitmap[..], k)} :: Marked(bitmap[..], k) <==>
        old(Marked(bitmap[..], k)) || first <= k < first + count
  {
    ghost var was := bitmap[..];
    for offset := 0 to count
      invariant forall k: nat {:trigger Marked(bitmap[..], k)} :: Marked(bitmap[..], k) <==>
          Marked(was, k) || first <= k < first + offset
    {
      SetBitmapBit(bitmap, first + offset);
    }
  }

  method BuildCatalogAllocationBitmap(n: nat, descriptorBase: nat, dataBase: nat, poolBitmap: nat, poolBase: nat)
    returns (bitmap: array<bv8>)
    requires n <= MAX_VOLUMES && descriptorBase == FIRST_VOLUME + n + PER_VOLUME * n && dataBase == descriptorBase + DESCRIPTORS
    requires poolBitmap == dataBase + DATA && poolBase == poolBitmap + 1
    ensures fresh(bitmap) && bitmap.Length == BLOCK
    ensures forall k: nat {:trigger Marked(bitmap[..], k)} :: Marked(bitmap[..], k) <==> Used(n, k)
  {
    bitmap := new bv8[BLOCK](_ => 0);
    SetBitmapBit(bitmap, 0);
    SetBitmapBit(bitmap, 2);
    SetBitmapBit(bitmap, 3);
    for i := 0 to n
      invariant forall k: nat {:trigger Marked(bitmap[..], k)} :: Marked(bitmap[..], k) <==> UsedUpTo(n, i, k)
    {
      MarkVolume(bitmap, n, i);
      forall k: nat {:trigger Marked(bitmap[..], k)} ensures Marked(bitmap[..], k) <==> UsedUpTo(n, i + 1, k) {
      }
    }
    MarkRun(bitmap, descriptorBase, DESCRIPTORS);
    MarkRun(bitmap, dataBase, DATA);
    SetBitmapBit(bitmap, poolBitmap);
    SetBitmapBit(bitmap, poolBase);
    SetBitmapBit(bitmap, poolBase + 1);
  }

  // ---- Counting ----

  ghost function CountUsed(n: nat, k: nat): nat {
    if k == 0 then 0 else CountUsed(n, k - 1) + if Used(n, k - 1) then 1 else 0
  }

  lemma {:induction false} CountsAgree(bitmap: seq<bv8>, n: nat, k: nat)
    requires forall b: nat {:trigger Marked(bitmap, b)} :: Marked(bitmap, b) <==> Used(n, b)
    ensures CountMarked(bitmap, k) == CountUsed(n, k)
  {
    if k != 0 {
      CountsAgree(bitmap, n, k - 1);
    }
  }

  lemma {:induction false} CountThrough(n: nat, lo: nat, hi: nat)
    requires lo <= hi && forall b :: lo <= b < hi ==> Used(n, b)
    ensures CountUsed(n, hi) == CountUsed(n, lo) + hi - lo
    decreases hi
  {
    if lo < hi {
      CountThrough(n, lo, hi - 1);
    }
  }

  lemma CountHead(n: nat)
    ensures CountUsed(n, FIRST_VOLUME) == 3
  {
    assert Used(n, 0) && !Used(n, 1) && Used(n, 2) && Used(n, 3);
    CountThrough(n, 0, 1);
    assert CountUsed(n, 2) == CountUsed(n, 1);
    CountThrough(n, 2, 4);
  }

  lemma {:induction false} CountLayouts(n: nat, j: nat)
    requires j <= n
    ensures CountUsed(n, FIRST_VOLUME + n + PER_VOLUME * j) == 3 + n + 5 * j
  {
    var base := FIRST_VOLUME + n + PER_VOLUME * j;
    if j == 0 {
      CountHead(n);
      CountThrough(n, FIRST_VOLUME, FIRST_VOLUME + n);
    } else {
      CountLayouts(n, j - 1);
      forall b | base - PER_VOLUME <= b < base ensures Used(n, b) <==> b < base - 1 {
        Remainder(b - FIRST_VOLUME - n, j - 1);
      }
      CountThrough(n, base - PER_VOLUME, base - 1);
    }
  }

  /** Of 15 + 7n blocks 14 + 6n are used; the unused ones are block 1 and the sixth block of every volume. */
  lemma UsedCount(n: nat)
    ensures CountUsed(n, TotalBlocks(n)) == 14 + 6 * n
    ensures TotalBlocks(n) - CountUsed(n, TotalBlocks(n)) == n + 1
    ensures forall b :: 0 <= b < TotalBlocks(n) ==> (!Used(n, b) <==>
      b == 1 || (FIRST_VOLUME + n <= b < FIRST_VOLUME + n + PER_VOLUME * n && (b - FIRST_VOLUME - n) % PER_VOLUME == 5))
  {
    CountLayouts(n, n);
    CountThrough(n, FIRST_VOLUME + n + PER_VOLUME * n, TotalBlocks(n));
  }

  /** The bitmap, and the free count that is recorded from it. */
  method MarkAndCount(n: nat, descriptorBase: nat, dataBase: nat, poolBitmap: nat, poolBase: nat)
    returns (bitmap: array<bv8>, free: int)
    requires n <= MAX_VOLUMES && descriptorBase == FIRST_VOLUME + n + PER_VOLUME * n && dataBase == descriptorBase + DESCRIPTORS
    requires poolBitmap == dataBase + DATA && poolBase == poolBitmap + 1
    ensures fresh(bitmap) && free == n + 1
    ensures forall k: nat {:trigger Marked(bitmap[..], k)} :: Marked(bitmap[..], k) <==> Used(n, k)
  {
    bitmap := BuildCatalogAllocationBitmap(n, descriptorBase, dataBase, poolBitmap, poolBase);
    var marked := CountSetBits(bitmap, TotalBlocks(n));
    free := TotalBlocks(n) - marked;
    CountsAgree(bitmap[..], n, TotalBlocks(n));
    UsedCount(n);
  }

  // ---- The blocks a container writes ----

  lemma DistinctJoin(s: seq<int>, t: seq<int>)
    requires Distinct(s) && Distinct(t) && forall b :: b in s ==> b !in t
    ensures Distinct(s + t)
  {
    forall i, j | 0 <= i < j < |s + t| ensures (s + t)[i] != (s + t)[j] {
      if i < |s| <= j {
        assert s[i] in s && t[j - |s|] in t;
      }
    }
  }

  ghost function VolumeWrites(n: nat, i: nat): seq<int> {
    var layout := FIRST_VOLUME + n + PER_VOLUME * i;
    [FIRST_VOLUME + i, layout, layout + 1, layout + 2, layout + 3, layout + 4]
  }

  ghost function VolumesWrites(n: nat, i: nat): seq<int> {
    if i == 0 then [] else VolumesWrites(n, i - 1) + VolumeWrites(n, i - 1)
  }

  ghost function TailWrites(n: nat): seq<int> {
    var d := FIRST_VOLUME + n + PER_VOLUME * n;
    [d, d + 1, d + 4, d + 5, d + 6, d + 9, d + 8, d + 10]
  }

  /** The blocks of a container with n volumes, in the order they are written. */
  ghost function WriteOrder(n: nat): seq<int> {
    [0, 2, 3] + VolumesWrites(n, n) + TailWrites(n)
  }

  ghost predicate VolumeBlock(n: nat, i: nat, b: int) {
    FIRST_VOLUME <= b < FIRST_VOLUME + i || (FIRST_VOLUME + n <= b < FIRST_VOLUME + n + PER_VOLUME * i && (b - FIRST_VOLUME - n) % PER_VOLUME < 5)
  }

  lemma OneVolume(n: nat, i: nat)
    requires i < n
    ensures Distinct(VolumeWrites(n, i))
    ensures forall b :: b in VolumeWrites(n, i) ==> !VolumeBlock(n, i, b)
    ensures forall b :: VolumeBlock(n, i + 1, b) <==> VolumeBlock(n, i, b) || b in VolumeWrites(n, i)
  {
    forall b ensures VolumeBlock(n, i + 1, b) <==> VolumeBlock(n, i, b) || b in VolumeWrites(n, i) {
    }
  }

  lemma {:induction false} VolumesOnce(n: nat, i: nat)
    requires i <= n
    ensures Distinct(VolumesWrites(n, i))
    ensures forall b :: b in VolumesWrites(n, i) <==> VolumeBlock(n, i, b)
  {
    if i != 0 {
      VolumesOnce(n, i - 1);
      OneVolume(n, i - 1);
      DistinctJoin(VolumesWrites(n, i - 1), VolumeWrites(n, i - 1));
    }
  }

  lemma TailOnce(n: nat)
    ensures Distinct(TailWrites(n))
    ensures forall b :: b in TailWrites(n) <==>
      FIRST_VOLUME + n + PER_VOLUME * n <= b < TotalBlocks(n) && !SpareSlot(n, b)
  {
    var d := FIRST_VOLUME + n + PER_VOLUME * n;
    forall b ensures b in TailWrites(n) <==> d <= b < d + 11 && !SpareSlot(n, b) {
    }
  }

  lemma FrontOnce(n: nat)
    ensures Distinct([0, 2, 3] + VolumesWrites(n, n))
    ensures forall b :: b in [0, 2, 3] + VolumesWrites(n, n) <==> b == 0 || b == 2 || b == 3 || OfVolume(n, b)
  {
    VolumesOnce(n, n);
    forall b ensures b in VolumesWrites(n, n) <==> OfVolume(n, b) {
      assert VolumeBlock(n, n, b) <==> OfVolume(n, b);
    }
    DistinctJoin([0, 2, 3], VolumesWrites(n, n));
  }

  /**
   * No block of a container is written twice, every one is inside it, and the written blocks are
   * exactly those the bitmap marks but for the three checkpoint slots left empty.
   */
  lemma WrittenBlocks(n: nat)
    ensures Distinct(WriteOrder(n))
    ensures forall b :: b in WriteOrder(n) <==> Used(n, b) && !SpareSlot(n, b)
    ensures forall b :: b in WriteOrder(n) ==> 0 <= b < TotalBlocks(n)
  {
    FrontOnce(n);
    TailOnce(n);
    var front, tail := [0, 2, 3] + VolumesWrites(n, n), TailWrites(n);
    DistinctJoin(front, tail);
    forall b ensures b in WriteOrder(n) <==> Used(n, b) && !SpareSlot(n, b) {
      assert b in WriteOrder(n) <==> b in front || b in tail;
      assert OfVolume(n, b) ==> !SpareSlot(n, b);
    }
  }

  // ---- The whole image ----

  datatype Extent = Extent(at: int, length: int)

  ghost predicate Clear(a: Extent, b: Extent) {
    a.at + a.length <= b.at || b.at + b.length <= a.at
  }

  /** No two of the extents share a byte. */
  ghost predicate NoOverlap(w: seq<Extent>) {
    forall i, j :: 0 <= i < j < |w| ==> Clear(w[i], w[j])
  }

  ghost predicate Inside(w: seq<Extent>, lo: int, hi: int) {
    forall i :: 0 <= i < |w| ==> lo <= w[i].at && w[i].at + w[i].length <= hi
  }

  ghost function Extents(startByte: int, blocks: seq<int>): (w: seq<Extent>)
    ensures |w| == |blocks|
  {
    seq(|blocks|, i requires 0 <= i < |blocks| => Extent(startByte + BLOCK * blocks[i], BLOCK))
  }

  function AlignUp(value: int, alignment: int): int {
    if alignment <= 0 then value else (value + alignment - 1) / alignment * alignment
  }

  function FirstUsable(partitions: nat): nat {
    AlignUp(2 + (128 * partitions + SECTOR - 1) / SECTOR, 8)
  }

  function SectorsOf(n: nat): nat {
    TotalBlocks(n) * (BLOCK / SECTOR)
  }

  /** The first sector of partition i, or the end of the last one. */
  ghost function Start(first: nat, vs: seq<nat>, i: nat): nat
    requires i <= |vs|
  {
    if i == 0 then first else Start(first, vs, i - 1) + SectorsOf(vs[i - 1])
  }

  ghost function PartitionWrites(first: nat, vs: seq<nat>, i: nat): seq<Extent>
    requires i <= |vs|
  {
    if i == 0 then [] else PartitionWrites(first, vs, i - 1) + Extents(Start(first, vs, i - 1) * SECTOR, WriteOrder(vs[i - 1]))
  }

  ghost function FixtureWrites(vs: seq<nat>): seq<Extent> {
    [Extent(SECTOR, SECTOR), Extent(2 * SECTOR, 128 * |vs|)] + PartitionWrites(FirstUsable(|vs|), vs, |vs|)
  }

  /** The sector behind the last partition. */
  ghost function EndSector(vs: seq<nat>): nat {
    Start(FirstUsable(|vs|), vs, |vs|)
  }

  lemma FirstUsableBounds(partitions: nat)
    ensures FirstUsable(partitions) % 8 == 0
    ensures FirstUsable(partitions) * SECTOR >= 2 * SECTOR + 128 * partitions
  {
    EightAligned(2 + (128 * partitions + SECTOR - 1) / SECTOR);
  }

  /** Partitions start at the first eight-sector boundary behind two sectors and 128 bytes for each entry. */
  lemma FirstUsableIsLeast(partitions: nat, sector: nat)
    requires sector % 8 == 0 && sector * 512 >= 2 * 512 + 128 * partitions
    ensures FirstUsable(partitions) % 8 == 0 && 2 * 512 + 128 * partitions <= FirstUsable(partitions) * 512 <= sector * 512
  {
    FirstUsableBounds(partitions);
    var entries := (128 * partitions + SECTOR - 1) / SECTOR;
    assert 2 + entries <= sector;
    EightAligned(2 + entries);
    EightAligned(sector);
  }

  /** A partition of n volumes takes 15 + 7n blocks of eight sectors. */
  lemma SectorsAre(n: nat)
    ensures SectorsOf(n) == 8 * (15 + 7 * n)
  {
  }

  /** A request for no partition is one for a single partition of one volume; any other is taken as it is. */
  lemma PlannedIs(requested: seq<nat>)
    ensures |requested| == 0 ==> |Planned(requested)| == 1 && Planned(requested)[0] == 1
    ensures |requested| > 0 ==> Planned(requested) == requested
  {
  }

  lemma EightAligned(v: int)
    ensures AlignUp(v, 8) % 8 == 0 && v <= AlignUp(v, 8) < v + 8
    ensures v % 8 == 0 ==> AlignUp(v, 8) == v
  {
  }

  lemma {:induction false} StartAligned(first: nat, vs: seq<nat>, i: nat)
    requires i <= |vs| && first % 8 == 0
    ensures Start(first, vs, i) % 8 == 0 && Start(first, vs, i) >= first
  {
    if i != 0 {
      StartAligned(first, vs, i - 1);
    }
  }

  lemma {:induction false} StartsGrow(first: nat, vs: seq<nat>, i: nat, j: nat)
    requires i <= j <= |vs|
    ensures Start(first, vs, i) <= Start(first, vs, j)
    decreases j
  {
    if i < j {
      StartsGrow(first, vs, i, j - 1);
    }
  }

  lemma PlacedInOrder(first: nat, vs: seq<nat>, starts: seq<int>, ends: seq<int>, i: nat)
    requires Placement(first, vs, starts, ends) && i < |vs| && first % 8 == 0
    ensures starts[i] % 8 == 0 && first <= starts[i] && ends[i] < Start(first, vs, |vs|)
    ensures forall j :: i < j < |vs| ==> ends[i] < starts[j]
  {
    StartAligned(first, vs, i);
    StartsGrow(first, vs, i + 1, |vs|);
    forall j | i < j < |vs| ensures ends[i] < starts[j] {
      StartsGrow(first, vs, i + 1, j);
    }
  }

  /** Partitions lie one behind the other on eight-sector boundaries, behind the header and the entries and inside the image. */
  lemma PartitionsInOrder(sizeMiB: int, vs: seq<nat>, starts: seq<int>, ends: seq<int>, i: nat)
    requires FixtureAccepted(sizeMiB, vs) && Placement(FirstUsable(|vs|), vs, starts, ends) && i < |vs|
    ensures starts[i] % 8 == 0 && ends[i] - starts[i] + 1 == SectorsOf(vs[i])
    ensures starts[i] * SECTOR >= 2 * SECTOR + 128 * |vs| && ends[i] < sizeMiB * 2048
    ensures forall j :: i < j < |vs| ==> ends[i] < starts[j]
  {
    FirstUsableBounds(|vs|);
    PlacedInOrder(FirstUsable(|vs|), vs, starts, ends, i);
  }

  lemma ContainerExtents(startByte: int, n: nat)
    ensures NoOverlap(Extents(startByte, WriteOrder(n)))
    ensures Inside(Extents(startByte, WriteOrder(n)), startByte, startByte + TotalBlocks(n) * BLOCK)
  {
    WrittenBlocks(n);
    var blocks := WriteOrder(n);
    var w := Extents(startByte, blocks);
    forall i | 0 <= i < |w| ensures startByte <= w[i].at && w[i].at + w[i].length <= startByte + TotalBlocks(n) * BLOCK {
      assert blocks[i] in blocks;
    }
  }

  lemma JoinExtents(a: seq<Extent>, b: seq<Extent>, lo: int, mid: int, hi: int)
    requires NoOverlap(a) && NoOverlap(b) && Inside(a, lo, mid) && Inside(b, mid, hi) && lo <= mid <= hi
    ensures NoOverlap(a + b) && Inside(a + b, lo, hi)
  {
  }

  lemma {:induction false} PartitionExtents(first: nat, vs: seq<nat>, i: nat)
    requires i <= |vs|
    ensures NoOverlap(PartitionWrites(first, vs, i))
    ensures Inside(PartitionWrites(first, vs, i), Start(first, vs, 0) * SECTOR, Start(first, vs, i) * SECTOR)
    ensures Start(first, vs, 0) <= Start(first, vs, i)
  {
    if i != 0 {
      PartitionExtents(first, vs, i - 1);
      ContainerExtents(Start(first, vs, i - 1) * SECTOR, vs[i - 1]);
      JoinExtents(PartitionWrites(first, vs, i - 1), Extents(Start(first, vs, i - 1) * SECTOR, WriteOrder(vs[i - 1])),
                  Start(first, vs, 0) * SECTOR, Start(first, vs, i - 1) * SECTOR, Start(first, vs, i) * SECTOR);
    }
  }

  /** No byte of the image is written twice, and nothing is written outside it. */
  lemma WritesNeverOverlap(sizeMiB: int, vs: seq<nat>)
    requires FixtureAccepted(sizeMiB, vs)
    ensures NoOverlap(FixtureWrites(vs)) && Inside(FixtureWrites(vs), SECTOR, sizeMiB * 1024 * 1024)
  {
    var first := FirstUsable(|vs|);
    FirstUsableBounds(|vs|);
    PartitionExtents(first, vs, |vs|);
    HeadExtents(|vs|, first);
    JoinExtents([Extent(SECTOR, SECTOR), Extent(2 * SECTOR, 128 * |vs|)], PartitionWrites(first, vs, |vs|),
                SECTOR, first * SECTOR, sizeMiB * 1024 * 1024);
  }

  lemma HeadExtents(k: nat, first: nat)
    requires 2 * SECTOR + 128 * k <= first * SECTOR
    ensures NoOverlap([Extent(SECTOR, SECTOR), Extent(2 * SECTOR, 128 * k)])
    ensures Inside([Extent(SECTOR, SECTOR), Extent(2 * SECTOR, 128 * k)], SECTOR, first * SECTOR)
  {
  }

  /** The file an image is written to, as the extents written so far. */
  class ImageStream {
    var written: seq<Extent>

    constructor ()
      ensures written == []
    {
      written := [];
    }

    method WriteCatalogBlock(startByte: int, block: int)
      modifies this
      ensures written == old(written) + [Extent(startByte + BLOCK * block, BLOCK)]
    {
      written := written + [Extent(startByte + block * BLOCK, BLOCK)];
    }

    method WriteCatalogVolume(startByte: int, n: nat, index: nat, layoutBlock: nat)
      requires layoutBlock == FIRST_VOLUME + n + PER_VOLUME * index
      modifies this
      ensures written == old(written) + Extents(startByte, VolumeWrites(n, index))
    {
      WriteCatalogBlock(startByte, FIRST_VOLUME + index);
      WriteCatalogBlock(startByte, layoutBlock);
      WriteCatalogBlock(startByte, layoutBlock + 1);
      WriteCatalogBlock(startByte, layoutBlock + 2);
      WriteCatalogBlock(startByte, layoutBlock + 3);
      WriteCatalogBlock(startByte, layoutBlock + 4);
    }

    /** Writes one container; `free` is the free block count recorded in its space manager and chunk info. */
    method WriteCatalogContainer(startByte: int, n: nat) returns (bitmap: array<bv8>, free: int)
      requires n <= MAX_VOLUMES
      modifies this
      ensures written == old(written) + Extents(startByte, WriteOrder(n))
      ensures fresh(bitmap) && forall k: nat {:trigger Marked(bitmap[..], k)} :: Marked(bitmap[..], k) <==> Used(n, k)
      ensures free == n + 1
    {
      ghost var was := written;
      var volumeLayoutBase := FIRST_VOLUME + n;
      var descriptorBase := volumeLayoutBase + n * PER_VOLUME;
      var dataBase := descriptorBase + DESCRIPTORS;
      var poolBitmap := dataBase + DATA;
      var poolBase := poolBitmap + 1;
      WriteCatalogBlock(startByte, 0);
      WriteCatalogBlock(startByte, 2);
      WriteCatalogBlock(startByte, 3);
      assert written == was + Extents(startByte, [0, 2, 3] + VolumesWrites(n, 0));
      for i := 0 to n
        invariant written == was + Extents(startByte, [0, 2, 3] + VolumesWrites(n, i))
      {
        WriteCatalogVolume(startByte, n, i, volumeLayoutBase + i * PER_VOLUME);
        ExtentsJoin(startByte, [0, 2, 3] + VolumesWrites(n, i), VolumeWrites(n, i));
        assert [0, 2, 3] + VolumesWrites(n, i) + VolumeWrites(n, i) == [0, 2, 3] + VolumesWrites(n, i + 1);
      }
      bitmap, free := MarkAndCount(n, descriptorBase, dataBase, poolBitmap, poolBase);
      WriteTail(startByte, n, descriptorBase, dataBase, poolBitmap, poolBase);
      ExtentsJoin(startByte, [0, 2, 3] + VolumesWrites(n, n), TailWrites(n));
    }

    method WriteTail(startByte: int, n: nat, descriptorBase: nat, dataBase: nat, poolBitmap: nat, poolBase: nat)
      requires descriptorBase == FIRST_VOLUME + n + PER_VOLUME * n && dataBase == descriptorBase + DESCRIPTORS
      requires poolBitmap == dataBase + DATA && poolBase == poolBitmap + 1
      modifies this
      ensures written == old(written) + Extents(startByte, TailWrites(n))
    {
      WriteCatalogBlock(startByte, descriptorBase);
      WriteCatalogBlock(startByte, descriptorBase + 1);
      WriteCatalogBlock(startByte, dataBase);
      WriteCatalogBlock(startByte, dataBase + 1);
      WriteCatalogBlock(startByte, dataBase + 2);
      WriteCatalogBlock(startByte, poolBase);
      WriteCatalogBlock(startByte, poolBitmap);
      WriteCatalogBlock(startByte, poolBase + 1);
    }

    /** A whole image: refused before anything is written, or laid out as FixtureWrites says. */
    method CreateCatalogFixture(sizeMiB: int, requested: seq<nat>) returns (ok: bool, starts: seq<int>, ends: seq<int>)
      requires written == []
      modifies this
      ensures ok <==> FixtureAccepted(sizeMiB, Planned(requested))
      ensures ok ==> Placement(FirstUsable(|Planned(requested)|), Planned(requested), starts, ends)
      ensures written == if ok then FixtureWrites(Planned(requested)) else []
    {
      var vs := Planned(requested);
      starts, ends := [], [];
      if sizeMiB < 4 || sizeMiB > 1024 || |vs| > MAX_PARTITIONS {
        return false, starts, ends;
      }
      for i := 0 to |vs|
        invariant forall k :: 0 <= k < i ==> vs[k] <= MAX_VOLUMES
      {
        if vs[i] > MAX_VOLUMES {
          return false, starts, ends;
        }
      }
      var totalSectors := sizeMiB * 1024 * 1024 / SECTOR;
      assert totalSectors == sizeMiB * 2048;
      var nextLba;
      var entriesLbas := (128 * |vs| + SECTOR - 1) / SECTOR;
      var first := AlignUp(2 + entriesLbas, 8);
      assert first == FirstUsable(|vs|);
      FirstUsableBounds(|vs|);
      starts, ends, nextLba := PlacePartitions(first, vs);
      if nextLba - 1 > totalSectors - 1 {
        return false, starts, ends;
      }
      WriteCatalogImage(first, vs, starts, ends);
      ok := true;
    }

    method WriteCatalogImage(first: nat, vs: seq<nat>, starts: seq<int>, ends: seq<int>)
      requires written == [] && Placement(first, vs, starts, ends) && forall i :: 0 <= i < |vs| ==> vs[i] <= MAX_VOLUMES
      modifies this
      ensures written == [Extent(SECTOR, SECTOR), Extent(2 * SECTOR, 128 * |vs|)] + PartitionWrites(first, vs, |vs|)
    {
      written := [Extent(SECTOR, SECTOR), Extent(2 * SECTOR, 128 * |vs|)];
      ghost var was := written;
      for i := 0 to |vs|
        invariant written == was + PartitionWrites(first, vs, i)
      {
        var bitmap, free := WriteCatalogContainer(starts[i] * SECTOR, vs[i]);
      }
    }
  }

  lemma ExtentsJoin(startByte: int, a: seq<int>, b: seq<int>)
    ensures Extents(startByte, a + b) == Extents(startByte, a) + Extents(startByte, b)
  {
  }

  function Planned(requested: seq<nat>): seq<nat> {
    if requested == [] then [1] else requested
  }

  ghost predicate FixtureAccepted(sizeMiB: int, vs: seq<nat>) {
    && 4 <= sizeMiB <= 1024 && |vs| <= MAX_PARTITIONS && (forall i :: 0 <= i < |vs| ==> vs[i] <= MAX_VOLUMES)
    && EndSector(vs) <= sizeMiB * 2048
  }

  ghost predicate Placement(first: nat, vs: seq<nat>, starts: seq<int>, ends: seq<int>) {
    && |starts| == |ends| == |vs|
    && (forall i {:trigger starts[i]} {:trigger ends[i]} :: 0 <= i < |vs| ==> starts[i] == Start(first, vs, i) && ends[i] == starts[i] + SectorsOf(vs[i]) - 1)
  }

  lemma NextStart(first: nat, vs: seq<nat>, i: nat)
    requires i <= |vs| && first % 8 == 0
    ensures AlignUp(Start(first, vs, i), 8) == Start(first, vs, i)
  {
    StartAligned(first, vs, i);
    EightAligned(Start(first, vs, i));
  }

  /** The placement loop; rounding up the next start never moves it. */
  method PlacePartitions(first: nat, vs: seq<nat>) returns (starts: seq<int>, ends: seq<int>, nextLba: int)
    requires first % 8 == 0
    ensures Placement(first, vs, starts, ends) && nextLba == Start(first, vs, |vs|)
  {
    nextLba := first;
    starts, ends := [], [];
    for i := 0 to |vs|
      invariant |starts| == |ends| == i && nextLba == Start(first, vs, i)
      invariant forall k {:trigger starts[k]} {:trigger ends[k]} :: 0 <= k < i ==> starts[k] == Start(first, vs, k) && ends[k] == starts[k] + SectorsOf(vs[k]) - 1
    {
      var end := nextLba + SectorsOf(vs[i]) - 1;
      starts, ends := starts + [nextLba], ends + [end];
      NextStart(first, vs, i + 1);
      nextLba := AlignUp(end + 1, 8);
    }
  }

  ghost predicate Holds(first: nat, vs: seq<nat>, i: nat, sector: int)
    requires i < |vs|
  {
    Start(first, vs, i) <= sector < Start(first, vs, i + 1)
  }

  /**
   * The header names the image's last sector as the place of its backup. That sector stays outside
   * every partition exactly when the partitions leave the image a sector to spare.
   */
  lemma BackupSectorIsClear(sizeMiB: int, vs: seq<nat>, first: nat, last: int)
    requires FixtureAccepted(sizeMiB, vs) && |vs| > 0 && first == FirstUsable(|vs|) && last == sizeMiB * 2048 - 1
    ensures (forall i :: 0 <= i < |vs| ==> !Holds(first, vs, i, last)) <==> EndSector(vs) <= last
  {
    if EndSector(vs) == last + 1 {
      assert Holds(first, vs, |vs| - 1, last);
    } else {
      forall i | 0 <= i < |vs| ensures !Holds(first, vs, i, last) {
        StartsGrow(first, vs, i + 1, |vs|);
      }
    }
  }

  /** Eight partitions with 129 volumes between them fill a 4 MiB image to its last sector. */
  lemma BackupSectorCanBeCovered()
    ensures FixtureAccepted(4, [100, 29, 0, 0, 0, 0, 0, 0]) && EndSector([100, 29, 0, 0, 0, 0, 0, 0]) == 4 * 2048
  {
    var vs := [100, 29, 0, 0, 0, 0, 0, 0];
    var first := FirstUsable(8);
    assert first == 8;
    assert Start(first, vs, 0) == first;
    assert Start(first, vs, 1) == first + 5720;
    assert Start(first, vs, 2) == first + 5720 + 1744;
    assert Start(first, vs, 4) == Start(first, vs, 2) + 240;
    assert Start(first, vs, 6) == Start(first, vs, 4) + 240;
    assert Start(first, vs, 8) == Start(first, vs, 6) + 240;
  }

  lemma {:induction false} SixteenByteRecords(rs: seq<BTreeLeaf.Record>)
    requires forall i :: 0 <= i < |rs| ==> |rs[i].key| == 16 && |rs[i].value| == 16
    ensures BTreeLeaf.Weight(rs) == 32 * |rs|
  {
    if rs != [] {
      SixteenByteRecords(rs[..|rs| - 1]);
    }
  }

  /** The volume limit is the object map's: one leaf holds a hundred mappings with no byte free, and not one more. */
  lemma VolumeLimitIsTheLeafLimit(rs: seq<BTreeLeaf.Record>)
    requires forall i :: 0 <= i < |rs| ==> |rs[i].key| == 16 && |rs[i].value| == 16
    ensures BTreeLeaf.Fits(rs) <==> |rs| <= MAX_VOLUMES
    ensures |rs| == MAX_VOLUMES ==> BTreeLeaf.FreeStart(rs) == BTreeLeaf.ValuesStart(rs)
  {
    SixteenByteRecords(rs);
    BTreeLeaf.WeightIsRoom(rs);
  }
}
