/** One-node B-trees: the leaf writer and the reader its table of contents promises. */
module BTreeLeaf {
  import opened Bytes
  import opened Prelude
  import Fletcher

  const BLOCK: nat := 4096
  const TABLE: nat := 0x38
  const INFO: nat := 4056

  type u32 = x: int | 0 <= x < 0x1_0000_0000
  type u64 = x: int | 0 <= x < 0x1_0000_0000_0000_0000

  datatype Record = Record(key: seq<byte>, value: seq<byte>)

  datatype Node = Node(oid: u64, xid: u64, kind: u32, subkind: u32, fixedSize: bool)

  // ---- The regions of a leaf ----

  /** The keys one after another. */
  ghost function KeyBytes(rs: seq<Record>): seq<byte> {
    if rs == [] then [] else KeyBytes(rs[..|rs| - 1]) + rs[|rs| - 1].key
  }

  /** The values one before another: the first value ends the region. */
  ghost function ValueBytes(rs: seq<Record>): seq<byte> {
    if rs == [] then [] else rs[|rs| - 1].value + ValueBytes(rs[..|rs| - 1])
  }

  /** Where a record's key starts, and how far before the info block its value starts. */
  function Entry(keyOffset: nat, keyLength: nat, valueOffset: nat, valueLength: nat): (e: seq<byte>)
    ensures |e| == 8
  {
    ToLe(keyOffset, 2) + ToLe(keyLength, 2) + ToLe(valueOffset, 2) + ToLe(valueLength, 2)
  }

  ghost function EntryOf(rs: seq<Record>, i: nat): (e: seq<byte>)
    requires i < |rs|
    ensures |e| == 8
  {
    Entry(|KeyBytes(rs[..i])|, |rs[i].key|, |ValueBytes(rs[..i + 1])|, |rs[i].value|)
  }

  ghost function Table(rs: seq<Record>): (t: seq<byte>)
    ensures |t| == 8 * |rs|
  {
    if rs == [] then [] else Table(rs[..|rs| - 1]) + EntryOf(rs, |rs| - 1)
  }

  ghost function KeyArea(rs: seq<Record>): nat {
    TABLE + 8 * |rs|
  }

  ghost function FreeStart(rs: seq<Record>): nat {
    KeyArea(rs) + |KeyBytes(rs)|
  }

  ghost function ValuesStart(rs: seq<Record>): int {
    INFO - |ValueBytes(rs)|
  }

  /** The table, the keys and the values find room between the header and the info block. */
  ghost predicate Fits(rs: seq<Record>) {
    FreeStart(rs) <= ValuesStart(rs)
  }

  function MaxKey(rs: seq<Record>): nat {
    if rs == [] then 0 else
      var m := MaxKey(rs[..|rs| - 1]);
      if m < |rs[|rs| - 1].key| then |rs[|rs| - 1].key| else m
  }

  function MaxValue(rs: seq<Record>): nat {
    if rs == [] then 0 else
      var m := MaxValue(rs[..|rs| - 1]);
      if m < |rs[|rs| - 1].value| then |rs[|rs| - 1].value| else m
  }

  function NodeFlags(node: Node): nat {
    if node.fixedSize then 7 else 3
  }

  /** Bits 30 and 31 of the object type say how the tree is stored. */
  function TreeFlags(node: Node): nat {
    if node.fixedSize then 0x0F
    else if node.kind / 0x4000_0000 == 1 then 0x50
    else if node.kind / 0x4000_0000 == 2 then 0x48
    else 0x40
  }

  /** The header fields known before the records are placed. */
  ghost predicate HeaderWritten(s: seq<byte>, node: Node, count: nat) {
    && Has(s, 0x08, ToLe(node.oid, 8)) && Has(s, 0x10, ToLe(node.xid, 8))
    && Has(s, 0x18, ToLe(node.kind, 4)) && Has(s, 0x1C, ToLe(node.subkind, 4))
    && Has(s, 0x20, ToLe(NodeFlags(node), 2)) && Has(s, 0x22, Zeros(2))
    && Has(s, 0x24, ToLe(count, 4)) && Has(s, 0x28, Zeros(2)) && Has(s, 0x2A, ToLe(8 * count, 2))
    && Has(s, 0x30, Zeros(8))
  }

  ghost predicate SizesWritten(s: seq<byte>, node: Node, rs: seq<Record>) {
    && Has(s, INFO + 8, ToLe(if node.fixedSize then 16 else 0, 4))
    && Has(s, INFO + 12, ToLe(if node.fixedSize then 8 else 0, 4))
    && Has(s, INFO + 16, ToLe(if node.fixedSize then 16 else MaxKey(rs), 4))
    && Has(s, INFO + 20, ToLe(if node.fixedSize then 8 else MaxValue(rs), 4))
  }

  ghost predicate InfoWritten(s: seq<byte>, node: Node, rs: seq<Record>) {
    && Has(s, INFO, ToLe(TreeFlags(node), 4)) && Has(s, INFO + 4, ToLe(BLOCK, 4))
    && SizesWritten(s, node, rs)
    && Has(s, INFO + 24, ToLe(|rs|, 8)) && Has(s, INFO + 32, ToLe(1, 8))
  }

  /** Table, keys, free bytes and values, each at its place. */
  ghost predicate Regions(s: seq<byte>, table: seq<byte>, keyArea: int, keys: seq<byte>, freeStart: int, free: seq<byte>,
                          valuesStart: int, values: seq<byte>) {
    Has(s, TABLE, table) && Has(s, keyArea, keys) && Has(s, freeStart, free) && Has(s, valuesStart, values)
  }

  ghost function FreeBytes(rs: seq<Record>): seq<byte>
    requires Fits(rs)
  {
    Zeros(ValuesStart(rs) - FreeStart(rs))
  }

  /** The leaf with t table entries, k keys and v values in place. */
  ghost predicate Placed(s: seq<byte>, node: Node, rs: seq<Record>, t: nat, k: nat, v: nat)
    requires t <= |rs| && k <= |rs| && v <= |rs| && Fits(rs)
  {
    && |s| == BLOCK && HeaderWritten(s, node, |rs|)
    && Regions(s, Table(rs[..t]), KeyArea(rs), KeyBytes(rs[..k]), FreeStart(rs), FreeBytes(rs), ValuesStart(rs[..v]), ValueBytes(rs[..v]))
    && Has(s, INFO + 8, Zeros(8))
  }

  /** Every byte of a finished leaf but its seal. */
  ghost predicate LeafImage(s: seq<byte>, node: Node, rs: seq<Record>)
    requires Fits(rs)
  {
    && |s| == BLOCK && HeaderWritten(s, node, |rs|)
    && Has(s, 0x2C, ToLe(|KeyBytes(rs)|, 2)) && Has(s, 0x2E, ToLe(ValuesStart(rs) - FreeStart(rs), 2))
    && Regions(s, Table(rs), KeyArea(rs), KeyBytes(rs), FreeStart(rs), FreeBytes(rs), ValuesStart(rs), ValueBytes(rs))
    && InfoWritten(s, node, rs)
  }

  lemma TakeRecord(rs: seq<Record>, i: nat)
    requires i < |rs|
    ensures KeyBytes(rs[..i + 1]) == KeyBytes(rs[..i]) + rs[i].key
    ensures ValueBytes(rs[..i + 1]) == rs[i].value + ValueBytes(rs[..i])
    ensures Table(rs[..i + 1]) == Table(rs[..i]) + EntryOf(rs, i)
  {
    assert rs[..i + 1][..i] == rs[..i];
    assert rs[..i + 1][..i + 1] == rs[..i + 1];
  }

  lemma {:induction false} PrefixBounds(rs: seq<Record>, i: nat)
    requires i <= |rs|
    ensures |KeyBytes(rs[..i])| <= |KeyBytes(rs)| && |ValueBytes(rs[..i])| <= |ValueBytes(rs)|
    decreases |rs| - i
  {
    if i == |rs| {
      assert rs[..i] == rs;
    } else {
      TakeRecord(rs, i);
      PrefixBounds(rs, i + 1);
    }
  }

  lemma ZerosWithin(n: nat, x: nat, k: nat)
    requires x + k <= n
    ensures Has(Zeros(n), x, Zeros(k))
  {
  }

  // ---- Writing ----

  lemma HeaderKept(s: seq<byte>, t: seq<byte>, lo: int, hi: int, node: Node, count: nat)
    requires HeaderWritten(s, node, count) && Framed(s, t, lo, hi)
    requires TABLE <= lo || hi <= 8 || 0x2C <= lo <= hi <= 0x30
    ensures HeaderWritten(t, node, count)
  {
    FramedAll(s, t, lo, hi);
  }

  method WriteHeader(a: array<byte>, node: Node, count: nat) returns (ok: bool)
    requires a.Length == BLOCK && a[..] == Zeros(BLOCK)
    modifies a
    ensures ok <==> 8 * count < 0x1_0000
    ensures ok ==> HeaderWritten(a[..], node, count) && Framed(Zeros(BLOCK), a[..], 0, TABLE)
  {
    ghost var s := a[..];
    ZerosWithin(BLOCK, 0x22, 2);
    ZerosWithin(BLOCK, 0x28, 2);
    ZerosWithin(BLOCK, 0x30, 8);
    ok := Put(a, 0x08, ToLe(node.oid, 8));
    FramedAll(s, a[..], 0x08, 0x10);
    ghost var t := a[..];
    ok := Put(a, 0x10, ToLe(node.xid, 8));
    FramedAll(t, a[..], 0x10, 0x18);
    FramedTwice(s, t, a[..], 0x08, 0x10, 0x10, 0x18, 0, TABLE);
    t := a[..];
    ok := Put(a, 0x18, ToLe(node.kind, 4));
    FramedAll(t, a[..], 0x18, 0x1C);
    FramedTwice(s, t, a[..], 0, TABLE, 0x18, 0x1C, 0, TABLE);
    t := a[..];
    ok := Put(a, 0x1C, ToLe(node.subkind, 4));
    FramedAll(t, a[..], 0x1C, 0x20);
    FramedTwice(s, t, a[..], 0, TABLE, 0x1C, 0x20, 0, TABLE);
    ok := WriteCounts(a, node, count);
  }

  method WriteCounts(a: array<byte>, node: Node, count: nat) returns (ok: bool)
    requires a.Length == BLOCK && Framed(Zeros(BLOCK), a[..], 0, TABLE)
    requires Has(a[..], 0x08, ToLe(node.oid, 8)) && Has(a[..], 0x10, ToLe(node.xid, 8))
    requires Has(a[..], 0x18, ToLe(node.kind, 4)) && Has(a[..], 0x1C, ToLe(node.subkind, 4))
    requires Has(a[..], 0x22, Zeros(2)) && Has(a[..], 0x28, Zeros(2)) && Has(a[..], 0x30, Zeros(8))
    modifies a
    ensures ok <==> 8 * count < 0x1_0000
    ensures ok ==> HeaderWritten(a[..], node, count) && Framed(Zeros(BLOCK), a[..], 0, TABLE)
  {
    ghost var s := Zeros(BLOCK);
    ghost var t := a[..];
    ok := Put(a, 0x20, ToLe(NodeFlags(node), 2));
    FramedAll(t, a[..], 0x20, 0x22);
    FramedTwice(s, t, a[..], 0, TABLE, 0x20, 0x22, 0, TABLE);
    if 8 * count >= 0x1_0000 {
      return false;
    }
    t := a[..];
    ok := Put(a, 0x24, ToLe(count, 4));
    FramedAll(t, a[..], 0x24, 0x28);
    FramedTwice(s, t, a[..], 0, TABLE, 0x24, 0x28, 0, TABLE);
    t := a[..];
    ok := Put(a, 0x2A, ToLe(8 * count, 2));
    FramedAll(t, a[..], 0x2A, 0x2C);
    FramedTwice(s, t, a[..], 0, TABLE, 0x2A, 0x2C, 0, TABLE);
  }

  lemma StartPlaced(s: seq<byte>, node: Node, rs: seq<Record>)
    requires |s| == BLOCK && HeaderWritten(s, node, |rs|) && Fits(rs) && Framed(Zeros(BLOCK), s, 0, TABLE)
    ensures Placed(s, node, rs, 0, 0, 0)
  {
    ZerosWithin(BLOCK, FreeStart(rs), ValuesStart(rs) - FreeStart(rs));
    ZerosWithin(BLOCK, INFO + 8, 8);
    FramedHas(Zeros(BLOCK), s, 0, TABLE, FreeStart(rs), FreeBytes(rs));
    FramedHas(Zeros(BLOCK), s, 0, TABLE, INFO + 8, Zeros(8));
    HasBytes(s, TABLE, []);
    HasBytes(s, KeyArea(rs), []);
    HasBytes(s, INFO, []);
  }

  /** Adding d to the table, the keys or the values moves nothing else. */
  lemma TableGrows(s: seq<byte>, t: seq<byte>, table: seq<byte>, d: seq<byte>, keyArea: int, keys: seq<byte>,
                   freeStart: int, free: seq<byte>, valuesStart: int, values: seq<byte>)
    requires Regions(s, table, keyArea, keys, freeStart, free, valuesStart, values)
    requires Framed(s, t, TABLE + |table|, TABLE + |table| + |d|) && Has(t, TABLE + |table|, d)
    requires TABLE + |table| + |d| <= keyArea && keyArea <= freeStart && keyArea <= valuesStart
    ensures Regions(t, table + d, keyArea, keys, freeStart, free, valuesStart, values)
  {
    FramedAll(s, t, TABLE + |table|, TABLE + |table| + |d|);
    HasConcat(t, TABLE, table, d);
  }

  lemma KeysGrow(s: seq<byte>, t: seq<byte>, table: seq<byte>, keyArea: int, keys: seq<byte>, d: seq<byte>,
                 freeStart: int, free: seq<byte>, valuesStart: int, values: seq<byte>)
    requires Regions(s, table, keyArea, keys, freeStart, free, valuesStart, values)
    requires Framed(s, t, keyArea + |keys|, keyArea + |keys| + |d|) && Has(t, keyArea + |keys|, d)
    requires TABLE + |table| <= keyArea && keyArea + |keys| + |d| <= freeStart && keyArea + |keys| + |d| <= valuesStart
    ensures Regions(t, table, keyArea, keys + d, freeStart, free, valuesStart, values)
  {
    FramedAll(s, t, keyArea + |keys|, keyArea + |keys| + |d|);
    HasConcat(t, keyArea, keys, d);
  }

  lemma ValuesGrow(s: seq<byte>, t: seq<byte>, table: seq<byte>, keyArea: int, keys: seq<byte>,
                   freeStart: int, free: seq<byte>, valuesStart: int, values: seq<byte>, d: seq<byte>)
    requires Regions(s, table, keyArea, keys, freeStart, free, valuesStart, values)
    requires Framed(s, t, valuesStart - |d|, valuesStart) && Has(t, valuesStart - |d|, d)
    requires TABLE + |table| <= keyArea && keyArea + |keys| <= freeStart && freeStart + |free| <= valuesStart - |d|
    ensures Regions(t, table, keyArea, keys, freeStart, free, valuesStart - |d|, d + values)
  {
    FramedAll(s, t, valuesStart - |d|, valuesStart);
    HasConcat(t, valuesStart - |d|, d, values);
  }

  lemma EntryPlaced(s: seq<byte>, t: seq<byte>, node: Node, rs: seq<Record>, i: nat)
    requires i < |rs| && Fits(rs) && Placed(s, node, rs, i, 0, 0)
    requires Framed(s, t, TABLE + 8 * i, TABLE + 8 * i + 8) && Has(t, TABLE + 8 * i, EntryOf(rs, i))
    ensures Placed(t, node, rs, i + 1, 0, 0)
  {
    TakeRecord(rs, i);
    OutsideKept(s, t, TABLE + 8 * i, TABLE + 8 * i + 8, node, |rs|);
    TableGrows(s, t, Table(rs[..i]), EntryOf(rs, i), KeyArea(rs), KeyBytes(rs[..0]), FreeStart(rs), FreeBytes(rs),
               ValuesStart(rs[..0]), ValueBytes(rs[..0]));
  }

  /** A write between the table and the info block leaves the header and the spare info bytes alone. */
  lemma OutsideKept(s: seq<byte>, t: seq<byte>, lo: int, hi: int, node: Node, count: nat)
    requires |s| == BLOCK && HeaderWritten(s, node, count) && Has(s, INFO + 8, Zeros(8))
    requires Framed(s, t, lo, hi) && TABLE <= lo <= hi <= INFO
    ensures |t| == BLOCK && HeaderWritten(t, node, count) && Has(t, INFO + 8, Zeros(8))
  {
    HeaderKept(s, t, lo, hi, node, count);
    FramedHas(s, t, lo, hi, INFO + 8, Zeros(8));
  }

  /** There is room for the next key. */
  lemma KeyRoom(rs: seq<Record>, i: nat)
    requires i < |rs| && Fits(rs)
    ensures KeyBytes(rs[..i + 1]) == KeyBytes(rs[..i]) + rs[i].key
    ensures KeyArea(rs) + |KeyBytes(rs[..i])| + |rs[i].key| <= FreeStart(rs) <= ValuesStart(rs[..0]) == INFO
  {
    TakeRecord(rs, i);
    PrefixBounds(rs, i + 1);
  }

  lemma KeyPlaced(s: seq<byte>, t: seq<byte>, node: Node, rs: seq<Record>, i: nat)
    requires i < |rs| && Fits(rs) && Placed(s, node, rs, |rs|, i, 0)
    requires Framed(s, t, KeyArea(rs) + |KeyBytes(rs[..i])|, KeyArea(rs) + |KeyBytes(rs[..i + 1])|)
    requires Has(t, KeyArea(rs) + |KeyBytes(rs[..i])|, rs[i].key)
    ensures Placed(t, node, rs, |rs|, i + 1, 0)
  {
    var lo := KeyArea(rs) + |KeyBytes(rs[..i])|;
    KeyRoom(rs, i);
    OutsideKept(s, t, lo, lo + |rs[i].key|, node, |rs|);
    KeysGrow(s, t, Table(rs[..|rs|]), KeyArea(rs), KeyBytes(rs[..i]), rs[i].key, FreeStart(rs), FreeBytes(rs),
             ValuesStart(rs[..0]), ValueBytes(rs[..0]));
  }

  /** There is room for the next value. */
  lemma ValueRoom(rs: seq<Record>, i: nat)
    requires i < |rs| && Fits(rs)
    ensures ValueBytes(rs[..i + 1]) == rs[i].value + ValueBytes(rs[..i])
    ensures FreeStart(rs) <= ValuesStart(rs) <= ValuesStart(rs[..i]) - |rs[i].value| && ValuesStart(rs[..i]) <= INFO
    ensures rs[..|rs|] == rs
  {
    TakeRecord(rs, i);
    PrefixBounds(rs, i + 1);
  }

  lemma ValuePlaced(s: seq<byte>, t: seq<byte>, node: Node, rs: seq<Record>, i: nat)
    requires i < |rs| && Fits(rs) && Placed(s, node, rs, |rs|, |rs|, i)
    requires Framed(s, t, ValuesStart(rs[..i + 1]), ValuesStart(rs[..i]))
    requires Has(t, ValuesStart(rs[..i + 1]), rs[i].value)
    ensures Placed(t, node, rs, |rs|, |rs|, i + 1)
  {
    var hi := ValuesStart(rs[..i]);
    ValueRoom(rs, i);
    OutsideKept(s, t, hi - |rs[i].value|, hi, node, |rs|);
    ValuesGrow(s, t, Table(rs[..|rs|]), KeyArea(rs), KeyBytes(rs[..|rs|]), FreeStart(rs), FreeBytes(rs),
               hi, ValueBytes(rs[..i]), rs[i].value);
  }

  method PutEntry(a: array<byte>, node: Node, rs: seq<Record>, i: nat, keyCursor: nat, valuePrefix: nat) returns (ok: bool)
    requires a.Length == BLOCK && i < |rs|
    requires keyCursor == |KeyBytes(rs[..i])| && valuePrefix == |ValueBytes(rs[..i + 1])|
    modifies a
    ensures Fits(rs) && old(Placed(a[..], node, rs, i, 0, 0)) ==> ok && Placed(a[..], node, rs, i + 1, 0, 0)
  {
    ghost var was := a[..];
    PrefixBounds(rs, i);
    PrefixBounds(rs, i + 1);
    TakeRecord(rs, i);
    if keyCursor > 0xFFFF || |rs[i].key| > 0xFFFF || valuePrefix > 0xFFFF || |rs[i].value| > 0xFFFF {
      return false;
    }
    ok := Put(a, TABLE + 8 * i, Entry(keyCursor, |rs[i].key|, valuePrefix, |rs[i].value|));
    if Fits(rs) && Placed(was, node, rs, i, 0, 0) {
      EntryPlaced(was, a[..], node, rs, i);
    }
  }

  method WriteTable(a: array<byte>, node: Node, rs: seq<Record>) returns (ok: bool)
    requires a.Length == BLOCK
    requires Fits(rs) ==> Placed(a[..], node, rs, 0, 0, 0)
    modifies a
    ensures Fits(rs) ==> ok && Placed(a[..], node, rs, |rs|, 0, 0)
  {
    var keyCursor, valuePrefix := 0, 0;
    for i := 0 to |rs|
      invariant keyCursor == |KeyBytes(rs[..i])| && valuePrefix == |ValueBytes(rs[..i])|
      invariant Fits(rs) ==> Placed(a[..], node, rs, i, 0, 0)
    {
      TakeRecord(rs, i);
      valuePrefix := valuePrefix + |rs[i].value|;
      ok := PutEntry(a, node, rs, i, keyCursor, valuePrefix);
      if !ok {
        return;
      }
      keyCursor := keyCursor + |rs[i].key|;
    }
    ok := true;
  }

  method PutKey(a: array<byte>, node: Node, rs: seq<Record>, i: nat, keyWrite: int) returns (ok: bool)
    requires a.Length == BLOCK && i < |rs| && keyWrite == KeyArea(rs) + |KeyBytes(rs[..i])|
    modifies a
    ensures Fits(rs) && old(Placed(a[..], node, rs, |rs|, i, 0)) ==> ok && Placed(a[..], node, rs, |rs|, i + 1, 0)
  {
    ghost var was := a[..];
    TakeRecord(rs, i);
    PrefixBounds(rs, i + 1);
    ok := Put(a, keyWrite, rs[i].key);
    if Fits(rs) && Placed(was, node, rs, |rs|, i, 0) {
      KeyPlaced(was, a[..], node, rs, i);
    }
  }

  method WriteKeys(a: array<byte>, node: Node, rs: seq<Record>) returns (ok: bool, keyWrite: int)
    requires a.Length == BLOCK
    requires Fits(rs) ==> Placed(a[..], node, rs, |rs|, 0, 0)
    modifies a
    ensures ok ==> keyWrite == FreeStart(rs)
    ensures Fits(rs) ==> ok && Placed(a[..], node, rs, |rs|, |rs|, 0)
  {
    keyWrite := TABLE + 8 * |rs|;
    for i := 0 to |rs|
      invariant keyWrite == KeyArea(rs) + |KeyBytes(rs[..i])|
      invariant Fits(rs) ==> Placed(a[..], node, rs, |rs|, i, 0)
    {
      TakeRecord(rs, i);
      ok := PutKey(a, node, rs, i, keyWrite);
      if !ok {
        return;
      }
      keyWrite := keyWrite + |rs[i].key|;
    }
    assert rs[..|rs|] == rs;
    ok := true;
  }

  method PutValue(a: array<byte>, node: Node, rs: seq<Record>, i: nat, prefix: int) returns (ok: bool)
    requires a.Length == BLOCK && i < |rs| && prefix == |ValueBytes(rs[..i + 1])|
    modifies a
    ensures Fits(rs) && old(Placed(a[..], node, rs, |rs|, |rs|, i)) ==> ok && Placed(a[..], node, rs, |rs|, |rs|, i + 1)
  {
    ghost var was := a[..];
    TakeRecord(rs, i);
    PrefixBounds(rs, i + 1);
    ok := Put(a, INFO - prefix, rs[i].value);
    if Fits(rs) && Placed(was, node, rs, |rs|, |rs|, i) {
      ValuePlaced(was, a[..], node, rs, i);
    }
  }

  method WriteValues(a: array<byte>, node: Node, rs: seq<Record>) returns (ok: bool, prefix: int)
    requires a.Length == BLOCK
    requires Fits(rs) ==> Placed(a[..], node, rs, |rs|, |rs|, 0)
    modifies a
    ensures ok ==> prefix == |ValueBytes(rs)|
    ensures Fits(rs) ==> ok && Placed(a[..], node, rs, |rs|, |rs|, |rs|)
  {
    prefix := 0;
    for i := 0 to |rs|
      invariant prefix == |ValueBytes(rs[..i])|
      invariant Fits(rs) ==> Placed(a[..], node, rs, |rs|, |rs|, i)
    {
      TakeRecord(rs, i);
      prefix := prefix + |rs[i].value|;
      ok := PutValue(a, node, rs, i, prefix);
      if !ok {
        return;
      }
    }
    assert rs[..|rs|] == rs;
    ok := true;
  }

  method LongestKey(rs: seq<Record>) returns (longest: nat)
    ensures longest == MaxKey(rs)
  {
    longest := 0;
    for i := 0 to |rs|
      invariant longest == MaxKey(rs[..i])
    {
      assert rs[..i + 1][..i] == rs[..i];
      if longest < |rs[i].key| {
        longest := |rs[i].key|;
      }
    }
    assert rs[..|rs|] == rs;
  }

  method LongestValue(rs: seq<Record>) returns (longest: nat)
    ensures longest == MaxValue(rs)
  {
    longest := 0;
    for i := 0 to |rs|
      invariant longest == MaxValue(rs[..i])
    {
      assert rs[..i + 1][..i] == rs[..i];
      if longest < |rs[i].value| {
        longest := |rs[i].value|;
      }
    }
    assert rs[..|rs|] == rs;
  }

  method WriteSizes(a: array<byte>, node: Node, rs: seq<Record>)
    requires a.Length == BLOCK && Has(a[..], INFO + 8, Zeros(8))
    modifies a
    ensures SizesWritten(a[..], node, rs)
    ensures Framed(old(a[..]), a[..], INFO + 8, INFO + 24)
  {
    ghost var s := a[..];
    var longestKey := LongestKey(rs);
    var longestValue := LongestValue(rs);
    HasConcat(a[..], INFO + 8, Zeros(4), Zeros(4));
    assert Zeros(8) == Zeros(4) + Zeros(4) && ToLe(0, 4) == Zeros(4);
    if node.fixedSize {
      var ok := PutPair(a, INFO + 8, ToLe(16, 4), ToLe(8, 4));
    }
    ghost var t := a[..];
    var first := ToLe(if node.fixedSize then 16 else longestKey, 4);
    var second := ToLe(if node.fixedSize then 8 else longestValue, 4);
    var ok := PutPair(a, INFO + 16, first, second);
    FramedAll(t, a[..], INFO + 16, INFO + 24);
    FramedTwice(s, t, a[..], INFO + 8, INFO + 16, INFO + 16, INFO + 24, INFO + 8, INFO + 24);
  }

  /** Two writes one behind the other. */
  method PutPair(a: array<byte>, at: int, d: seq<byte>, e: seq<byte>) returns (ok: bool)
    requires 0 <= at && at + |d| + |e| <= a.Length
    modifies a
    ensures Has(a[..], at, d) && Has(a[..], at + |d|, e)
    ensures Framed(old(a[..]), a[..], at, at + |d| + |e|)
  {
    ghost var s := a[..];
    ok := Put(a, at, d);
    ghost var t := a[..];
    ok := Put(a, at + |d|, e);
    FramedHas(t, a[..], at + |d|, at + |d| + |e|, at, d);
    FramedTwice(s, t, a[..], at, at + |d|, at + |d|, at + |d| + |e|, at, at + |d| + |e|);
  }

  method WriteInfo(a: array<byte>, node: Node, rs: seq<Record>)
    requires a.Length == BLOCK && Has(a[..], INFO + 8, Zeros(8))
    modifies a
    ensures InfoWritten(a[..], node, rs)
    ensures Framed(old(a[..]), a[..], INFO, BLOCK)
  {
    ghost var s := a[..];
    var ok := PutPair(a, INFO, ToLe(TreeFlags(node), 4), ToLe(BLOCK, 4));
    ghost var t := a[..];
    FramedHas(s, t, INFO, INFO + 8, INFO + 8, Zeros(8));
    WriteSizes(a, node, rs);
    ghost var u := a[..];
    FramedAll(t, u, INFO + 8, INFO + 24);
    FramedTwice(s, t, u, INFO, INFO + 8, INFO + 8, INFO + 24, INFO, BLOCK);
    ok := PutPair(a, INFO + 24, ToLe(|rs|, 8), ToLe(1, 8));
    FramedAll(u, a[..], INFO + 24, BLOCK);
    FramedTwice(s, u, a[..], INFO, BLOCK, INFO + 24, BLOCK, INFO, BLOCK);
  }

  lemma RegionsKept(s: seq<byte>, t: seq<byte>, lo: int, hi: int, table: seq<byte>, keyArea: int, keys: seq<byte>,
                    freeStart: int, free: seq<byte>, valuesStart: int, values: seq<byte>)
    requires Regions(s, table, keyArea, keys, freeStart, free, valuesStart, values) && Framed(s, t, lo, hi)
    requires TABLE <= keyArea && TABLE <= freeStart && TABLE <= valuesStart
    requires TABLE + |table| <= INFO && keyArea + |keys| <= INFO && freeStart + |free| <= INFO && valuesStart + |values| <= INFO
    requires hi <= TABLE || INFO <= lo
    ensures Regions(t, table, keyArea, keys, freeStart, free, valuesStart, values)
  {
    FramedAll(s, t, lo, hi);
  }

  lemma LeafRegionsKept(s: seq<byte>, t: seq<byte>, lo: int, hi: int, rs: seq<Record>)
    requires Fits(rs) && Framed(s, t, lo, hi) && (hi <= TABLE || INFO <= lo)
    requires Regions(s, Table(rs), KeyArea(rs), KeyBytes(rs), FreeStart(rs), FreeBytes(rs), ValuesStart(rs), ValueBytes(rs))
    ensures Regions(t, Table(rs), KeyArea(rs), KeyBytes(rs), FreeStart(rs), FreeBytes(rs), ValuesStart(rs), ValueBytes(rs))
  {
    RegionsKept(s, t, lo, hi, Table(rs), KeyArea(rs), KeyBytes(rs), FreeStart(rs), FreeBytes(rs), ValuesStart(rs), ValueBytes(rs));
  }

  method FinishLeaf(a: array<byte>, node: Node, rs: seq<Record>, keyBytes: nat, free: nat)
    requires a.Length == BLOCK && Fits(rs) && Placed(a[..], node, rs, |rs|, |rs|, |rs|)
    requires keyBytes == |KeyBytes(rs)| && free == ValuesStart(rs) - FreeStart(rs)
    modifies a
    ensures LeafImage(a[..], node, rs) && Fletcher.WellSealed(a[..])
  {
    assert rs[..|rs|] == rs;
    ghost var s := a[..];
    var ok := PutPair(a, 0x2C, ToLe(keyBytes, 2), ToLe(free, 2));
    ghost var t := a[..];
    HeaderKept(s, t, 0x2C, 0x30, node, |rs|);
    LeafRegionsKept(s, t, 0x2C, 0x30, rs);
    FramedHas(s, t, 0x2C, 0x30, INFO + 8, Zeros(8));
    WriteInfo(a, node, rs);
    ghost var u := a[..];
    HeaderKept(t, u, INFO, BLOCK, node, |rs|);
    LeafRegionsKept(t, u, INFO, BLOCK, rs);
    FramedHas(t, u, INFO, BLOCK, 0x2C, ToLe(keyBytes, 2));
    FramedHas(t, u, INFO, BLOCK, 0x2E, ToLe(free, 2));
    SealLeaf(a, node, rs);
  }

  method SealLeaf(a: array<byte>, node: Node, rs: seq<Record>)
    requires a.Length == BLOCK && Fits(rs) && LeafImage(a[..], node, rs)
    modifies a
    ensures LeafImage(a[..], node, rs) && Fletcher.WellSealed(a[..])
  {
    ghost var u := a[..];
    var ok := Fletcher.SealApfsBlock(a);
    assert u[..0] == a[..][..0] && u[8..] == a[..][8..];
    SealKeepsImage(u, a[..], node, rs);
  }

  lemma SealKeepsImage(s: seq<byte>, t: seq<byte>, node: Node, rs: seq<Record>)
    requires Fits(rs) && LeafImage(s, node, rs) && Framed(s, t, 0, 8)
    ensures LeafImage(t, node, rs)
  {
    HeaderKept(s, t, 0, 8, node, |rs|);
    LeafRegionsKept(s, t, 0, 8, rs);
    FramedAll(s, t, 0, 8);
  }

  /** The whole leaf writer: it succeeds exactly when the records fit, and then every byte is determined. */
  method WriteCatalogTypedLeaf(node: Node, rs: seq<Record>) returns (ok: bool, a: array<byte>)
    ensures ok <==> Fits(rs)
    ensures fresh(a) && a.Length == BLOCK
    ensures ok ==> LeafImage(a[..], node, rs) && Fletcher.WellSealed(a[..])
  {
    a := new byte[BLOCK](_ => 0);
    assert a[..] == Zeros(BLOCK);
    ok := WriteHeader(a, node, |rs|);
    if !ok {
      return;
    }
    if Fits(rs) {
      StartPlaced(a[..], node, rs);
    }
    ok := WriteTable(a, node, rs);
    if !ok {
      return;
    }
    var keyWrite, prefix;
    ok, keyWrite := WriteKeys(a, node, rs);
    if !ok {
      return;
    }
    ok, prefix := WriteValues(a, node, rs);
    if !ok {
      return;
    }
    var valuesStart := INFO - prefix;
    if keyWrite > valuesStart {
      return false, a;
    }
    FinishLeaf(a, node, rs, keyWrite - (TABLE + 8 * |rs|), valuesStart - keyWrite);
  }

  // ---- Reading ----

  function Field(s: seq<byte>, at: nat, width: nat): nat
    requires at + width <= |s|
  {
    FromLe(s[at..at + width])
  }

  /** Record i as the node's own header and table of contents locate it. */
  function ReadRecord(s: seq<byte>, i: nat): Option<Record>
    requires |s| == BLOCK
  {
    var table := TABLE + Field(s, 0x28, 2);
    var keyArea := table + Field(s, 0x2A, 2);
    if table + 8 * i + 8 > BLOCK then None else
      var at := table + 8 * i;
      var key := keyArea + Field(s, at, 2);
      var keyEnd := key + Field(s, at + 2, 2);
      var value := INFO - Field(s, at + 4, 2);
      var valueEnd := value + Field(s, at + 6, 2);
      if keyEnd > BLOCK || value < 0 || valueEnd > BLOCK then None
      else Some(Record(s[key..keyEnd], s[value..valueEnd]))
  }

  /** All records, or nothing when one of them could not be read. */
  function AllOf(read: seq<Option<Record>>): Option<seq<Record>> {
    if read == [] then Some([]) else
      var before, last := AllOf(read[..|read| - 1]), read[|read| - 1];
      if before.None? || last.None? then None else Some(before.value + [last.value])
  }

  function ReadLeaf(s: seq<byte>): Option<seq<Record>>
    requires |s| == BLOCK
  {
    AllOf(seq(Field(s, 0x24, 4), i requires 0 <= i => ReadRecord(s, i)))
  }

  lemma FieldIs(s: seq<byte>, at: nat, v: nat, width: nat)
    requires Has(s, at, ToLe(v, width)) && v < Pow256(width)
    ensures at + width <= |s| && Field(s, at, width) == v
  {
    HasBytes(s, at, ToLe(v, width));
    FromLeOfToLe(v, width);
  }

  lemma {:induction false} EntryInTable(rs: seq<Record>, i: nat)
    requires i < |rs|
    ensures Has(Table(rs), 8 * i, EntryOf(rs, i))
  {
    var n := |rs| - 1;
    HasConcat(Table(rs), 0, Table(rs[..n]), EntryOf(rs, n));
    HasBytes(Table(rs), 0, Table(rs));
    if i < n {
      EntryInTable(rs[..n], i);
      assert rs[..n][..i] == rs[..i] && rs[..n][..i + 1] == rs[..i + 1];
      HasWithin(Table(rs), 0, Table(rs[..n]), 8 * i, EntryOf(rs, i));
    }
  }

  lemma {:induction false} KeyInKeys(rs: seq<Record>, i: nat)
    requires i < |rs|
    ensures Has(KeyBytes(rs), |KeyBytes(rs[..i])|, rs[i].key)
  {
    var n := |rs| - 1;
    HasConcat(KeyBytes(rs), 0, KeyBytes(rs[..n]), rs[n].key);
    HasBytes(KeyBytes(rs), 0, KeyBytes(rs));
    if i < n {
      KeyInKeys(rs[..n], i);
      assert rs[..n][..i] == rs[..i];
      HasWithin(KeyBytes(rs), 0, KeyBytes(rs[..n]), |KeyBytes(rs[..i])|, rs[i].key);
    }
  }

  lemma {:induction false} ValueInValues(rs: seq<Record>, i: nat)
    requires i < |rs|
    ensures Has(ValueBytes(rs), |ValueBytes(rs)| - |ValueBytes(rs[..i + 1])|, rs[i].value)
  {
    var n := |rs| - 1;
    HasConcat(ValueBytes(rs), 0, rs[n].value, ValueBytes(rs[..n]));
    HasBytes(ValueBytes(rs), 0, ValueBytes(rs));
    if i < n {
      ValueInValues(rs[..n], i);
      assert rs[..n][..i + 1] == rs[..i + 1];
      HasWithin(ValueBytes(rs), |rs[n].value|, ValueBytes(rs[..n]), |ValueBytes(rs[..n])| - |ValueBytes(rs[..i + 1])|, rs[i].value);
    } else {
      assert rs[..i + 1] == rs;
    }
  }

  lemma EntryFields(s: seq<byte>, at: nat, a: nat, b: nat, c: nat, d: nat)
    requires Has(s, at, Entry(a, b, c, d)) && a < 0x1_0000 && b < 0x1_0000 && c < 0x1_0000 && d < 0x1_0000
    ensures at + 8 <= |s| && Field(s, at, 2) == a && Field(s, at + 2, 2) == b && Field(s, at + 4, 2) == c && Field(s, at + 6, 2) == d
  {
    Widths();
    HasConcat(s, at, ToLe(a, 2) + ToLe(b, 2) + ToLe(c, 2), ToLe(d, 2));
    HasConcat(s, at, ToLe(a, 2) + ToLe(b, 2), ToLe(c, 2));
    HasConcat(s, at, ToLe(a, 2), ToLe(b, 2));
    FieldIs(s, at, a, 2);
    FieldIs(s, at + 2, b, 2);
    FieldIs(s, at + 4, c, 2);
    FieldIs(s, at + 6, d, 2);
  }

  /** The header fields a reader steers by. */
  lemma HeaderFields(s: seq<byte>, node: Node, count: nat)
    requires |s| == BLOCK && HeaderWritten(s, node, count) && 8 * count < 0x1_0000
    ensures Field(s, 0x24, 4) == count && Field(s, 0x28, 2) == 0 && Field(s, 0x2A, 2) == 8 * count
  {
    Widths();
    FieldIs(s, 0x24, count, 4);
    FieldIs(s, 0x2A, 8 * count, 2);
    assert ToLe(0, 2) == Zeros(2);
    FieldIs(s, 0x28, 0, 2);
  }

  /** What the reader's table entry i says. */
  lemma EntryRead(s: seq<byte>, rs: seq<Record>, i: nat)
    requires Fits(rs) && i < |rs| && Has(s, TABLE, Table(rs))
    ensures TABLE + 8 * i + 8 <= |s|
    ensures Field(s, TABLE + 8 * i, 2) == |KeyBytes(rs[..i])| && Field(s, TABLE + 8 * i + 2, 2) == |rs[i].key|
    ensures Field(s, TABLE + 8 * i + 4, 2) == |ValueBytes(rs[..i + 1])| && Field(s, TABLE + 8 * i + 6, 2) == |rs[i].value|
  {
    EntryInTable(rs, i);
    HasWithin(s, TABLE, Table(rs), 8 * i, EntryOf(rs, i));
    TakeRecord(rs, i);
    PrefixBounds(rs, i);
    PrefixBounds(rs, i + 1);
    EntryFields(s, TABLE + 8 * i, |KeyBytes(rs[..i])|, |rs[i].key|, |ValueBytes(rs[..i + 1])|, |rs[i].value|);
  }

  lemma KeyAndValueThere(s: seq<byte>, rs: seq<Record>, i: nat)
    requires |s| == BLOCK && Fits(rs) && i < |rs|
    requires Has(s, KeyArea(rs), KeyBytes(rs)) && Has(s, ValuesStart(rs), ValueBytes(rs))
    ensures Has(s, KeyArea(rs) + |KeyBytes(rs[..i])|, rs[i].key)
    ensures Has(s, INFO - |ValueBytes(rs[..i + 1])|, rs[i].value)
  {
    KeyInKeys(rs, i);
    HasWithin(s, KeyArea(rs), KeyBytes(rs), |KeyBytes(rs[..i])|, rs[i].key);
    ValueInValues(rs, i);
    HasWithin(s, ValuesStart(rs), ValueBytes(rs), |ValueBytes(rs)| - |ValueBytes(rs[..i + 1])|, rs[i].value);
  }

  /** What ReadRecord returns, from the numbers it finds. */
  lemma RecordFrom(s: seq<byte>, i: nat, count: nat, keyOffset: nat, valueOffset: nat, r: Record)
    requires |s| == BLOCK && i < count && Field(s, 0x28, 2) == 0 && Field(s, 0x2A, 2) == 8 * count && TABLE + 8 * i + 8 <= BLOCK
    requires Field(s, TABLE + 8 * i, 2) == keyOffset && Field(s, TABLE + 8 * i + 2, 2) == |r.key|
    requires Field(s, TABLE + 8 * i + 4, 2) == valueOffset && Field(s, TABLE + 8 * i + 6, 2) == |r.value|
    requires Has(s, TABLE + 8 * count + keyOffset, r.key) && Has(s, INFO - valueOffset, r.value)
    ensures ReadRecord(s, i) == Some(r)
  {
    HasBytes(s, TABLE + 8 * count + keyOffset, r.key);
    HasBytes(s, INFO - valueOffset, r.value);
  }

  /** The offsets table entry i gives, and the record's bytes at them. */
  lemma Located(s: seq<byte>, node: Node, rs: seq<Record>, i: nat) returns (keyOffset: nat, valueOffset: nat)
    requires Fits(rs) && i < |rs| && LeafImage(s, node, rs)
    ensures TABLE + 8 * i + 8 <= BLOCK && |s| == BLOCK
    ensures Field(s, TABLE + 8 * i, 2) == keyOffset && Field(s, TABLE + 8 * i + 2, 2) == |rs[i].key|
    ensures Field(s, TABLE + 8 * i + 4, 2) == valueOffset && Field(s, TABLE + 8 * i + 6, 2) == |rs[i].value|
    ensures Has(s, TABLE + 8 * |rs| + keyOffset, rs[i].key) && Has(s, INFO - valueOffset, rs[i].value)
  {
    keyOffset, valueOffset := |KeyBytes(rs[..i])|, |ValueBytes(rs[..i + 1])|;
    EntryRead(s, rs, i);
    KeyAndValueThere(s, rs, i);
  }

  lemma RecordRead(s: seq<byte>, node: Node, rs: seq<Record>, i: nat)
    requires Fits(rs) && i < |rs| && LeafImage(s, node, rs)
    ensures ReadRecord(s, i) == Some(rs[i])
  {
    HeaderFields(s, node, |rs|);
    var keyOffset, valueOffset := Located(s, node, rs, i);
    RecordFrom(s, i, |rs|, keyOffset, valueOffset, rs[i]);
  }

  /** Records read one by one make up the list. */
  lemma {:induction false} AllRead(read: seq<Option<Record>>, rs: seq<Record>)
    requires |read| == |rs| && forall i :: 0 <= i < |rs| ==> read[i] == Some(rs[i])
    ensures AllOf(read) == Some(rs)
  {
    if rs != [] {
      var n := |rs| - 1;
      AllRead(read[..n], rs[..n]);
      assert rs == rs[..n] + [rs[n]];
    }
  }

  /** Reading a written leaf through its table of contents gives the records back, in order. */
  lemma LeafRoundTrip(s: seq<byte>, node: Node, rs: seq<Record>)
    requires Fits(rs) && LeafImage(s, node, rs)
    ensures ReadLeaf(s) == Some(rs)
  {
    HeaderFields(s, node, |rs|);
    var read := seq(|rs|, i requires 0 <= i => ReadRecord(s, i));
    forall i | 0 <= i < |rs| ensures read[i] == Some(rs[i]) {
      RecordRead(s, node, rs, i);
    }
    AllRead(read, rs);
  }

  lemma RegionSlices(s: seq<byte>, table: seq<byte>, k: int, keys: seq<byte>, f: int, free: seq<byte>, v: int, values: seq<byte>)
    requires Regions(s, table, k, keys, f, free, v, values)
    requires k == TABLE + |table| && f == k + |keys| && v == f + |free| && v + |values| == INFO && |s| == BLOCK
    ensures s[TABLE..k] == table && s[k..f] == keys && s[f..v] == free && s[v..INFO] == values
  {
    HasBytes(s, TABLE, table);
    HasBytes(s, k, keys);
    HasBytes(s, f, free);
    HasBytes(s, v, values);
  }

  lemma LeafSlices(s: seq<byte>, node: Node, rs: seq<Record>)
    requires Fits(rs) && LeafImage(s, node, rs)
    ensures s[TABLE..KeyArea(rs)] == Table(rs) && s[KeyArea(rs)..FreeStart(rs)] == KeyBytes(rs)
    ensures s[FreeStart(rs)..ValuesStart(rs)] == FreeBytes(rs) && s[ValuesStart(rs)..INFO] == ValueBytes(rs)
  {
    RegionSlices(s, Table(rs), KeyArea(rs), KeyBytes(rs), FreeStart(rs), FreeBytes(rs), ValuesStart(rs), ValueBytes(rs));
  }

  lemma LengthFields(s: seq<byte>, node: Node, rs: seq<Record>)
    requires Fits(rs) && LeafImage(s, node, rs)
    ensures Field(s, 0x2C, 2) == |KeyBytes(rs)| && Field(s, 0x2E, 2) == ValuesStart(rs) - FreeStart(rs)
  {
    Widths();
    FieldIs(s, 0x2C, |KeyBytes(rs)|, 2);
    FieldIs(s, 0x2E, ValuesStart(rs) - FreeStart(rs), 2);
  }

  /**
   * By the node's own fields, table, keys, free bytes and values follow one another without a gap
   * or an overlap from the header to the info block; the free bytes are zero and hold no record.
   */
  lemma RegionsTile(s: seq<byte>, node: Node, rs: seq<Record>)
    requires Fits(rs) && LeafImage(s, node, rs)
    ensures Field(s, 0x28, 2) == 0 && TABLE + Field(s, 0x2A, 2) == KeyArea(rs)
    ensures KeyArea(rs) + Field(s, 0x2C, 2) == FreeStart(rs) && FreeStart(rs) + Field(s, 0x2E, 2) == ValuesStart(rs) <= INFO
    ensures s[TABLE..KeyArea(rs)] == Table(rs) && s[KeyArea(rs)..FreeStart(rs)] == KeyBytes(rs)
    ensures s[FreeStart(rs)..ValuesStart(rs)] == FreeBytes(rs) && s[ValuesStart(rs)..INFO] == ValueBytes(rs)
  {
    HeaderFields(s, node, |rs|);
    LengthFields(s, node, rs);
    LeafSlices(s, node, rs);
  }

  /** The sum of the records' lengths, as a reader would add them up. */
  function Weight(rs: seq<Record>): nat {
    if rs == [] then 0 else Weight(rs[..|rs| - 1]) + |rs[|rs| - 1].key| + |rs[|rs| - 1].value|
  }

  lemma {:induction false} WeightIsRoom(rs: seq<Record>)
    ensures Weight(rs) == |KeyBytes(rs)| + |ValueBytes(rs)|
  {
    if rs != [] {
      WeightIsRoom(rs[..|rs| - 1]);
    }
  }

  /** The stored free length is what the records leave of the room, and they fit exactly when that is not negative. */
  lemma FreeLengthIsExact(s: seq<byte>, node: Node, rs: seq<Record>)
    ensures Fits(rs) <==> 8 * |rs| + Weight(rs) <= INFO - TABLE
    ensures Fits(rs) && LeafImage(s, node, rs) ==> Field(s, 0x2E, 2) == INFO - TABLE - 8 * |rs| - Weight(rs)
  {
    WeightIsRoom(rs);
    if Fits(rs) && LeafImage(s, node, rs) {
      LengthFields(s, node, rs);
    }
  }

  lemma SameField(s: seq<byte>, t: seq<byte>, at: nat, d: seq<byte>)
    requires Has(s, at, d) && Has(t, at, d)
    ensures at + |d| <= |s| && at + |d| <= |t| && s[at..at + |d|] == t[at..at + |d|]
  {
    HasBytes(s, at, d);
    HasBytes(t, at, d);
  }

  lemma SameHeader(s: seq<byte>, t: seq<byte>, node: Node, count: nat)
    requires HeaderWritten(s, node, count) && HeaderWritten(t, node, count) && |s| == |t| == BLOCK
    ensures s[8..0x2C] == t[8..0x2C] && s[0x30..TABLE] == t[0x30..TABLE]
  {
    HeaderPiece(s, node, count);
    HeaderPiece(t, node, count);
    SameField(s, t, 8, HeaderBytes(node, count));
    SameField(s, t, 0x30, Zeros(8));
  }

  ghost function HeaderBytes(node: Node, count: nat): (h: seq<byte>)
    ensures |h| == 0x24
  {
    ToLe(node.oid, 8) + ToLe(node.xid, 8) + ToLe(node.kind, 4) + ToLe(node.subkind, 4) + ToLe(NodeFlags(node), 2) + Zeros(2)
    + ToLe(count, 4) + Zeros(2) + ToLe(8 * count, 2)
  }

  lemma HeaderPiece(s: seq<byte>, node: Node, count: nat)
    requires HeaderWritten(s, node, count)
    ensures Has(s, 8, HeaderBytes(node, count))
  {
    var h1 := ToLe(node.oid, 8) + ToLe(node.xid, 8);
    var h2 := h1 + ToLe(node.kind, 4);
    var h3 := h2 + ToLe(node.subkind, 4);
    var h4 := h3 + ToLe(NodeFlags(node), 2);
    var h5 := h4 + Zeros(2);
    var h6 := h5 + ToLe(count, 4);
    var h7 := h6 + Zeros(2);
    HasConcat(s, 8, ToLe(node.oid, 8), ToLe(node.xid, 8));
    HasConcat(s, 8, h1, ToLe(node.kind, 4));
    HasConcat(s, 8, h2, ToLe(node.subkind, 4));
    HasConcat(s, 8, h3, ToLe(NodeFlags(node), 2));
    HasConcat(s, 8, h4, Zeros(2));
    HasConcat(s, 8, h5, ToLe(count, 4));
    HasConcat(s, 8, h6, Zeros(2));
    HasConcat(s, 8, h7, ToLe(8 * count, 2));
  }

  ghost function InfoBytes(node: Node, rs: seq<Record>): (h: seq<byte>)
    ensures |h| == 40
  {
    ToLe(TreeFlags(node), 4) + ToLe(BLOCK, 4) + ToLe(if node.fixedSize then 16 else 0, 4) + ToLe(if node.fixedSize then 8 else 0, 4)
    + ToLe(if node.fixedSize then 16 else MaxKey(rs), 4) + ToLe(if node.fixedSize then 8 else MaxValue(rs), 4)
    + ToLe(|rs|, 8) + ToLe(1, 8)
  }

  lemma InfoPiece(s: seq<byte>, node: Node, rs: seq<Record>)
    requires InfoWritten(s, node, rs)
    ensures Has(s, INFO, InfoBytes(node, rs))
  {
    var a, b := ToLe(if node.fixedSize then 16 else 0, 4), ToLe(if node.fixedSize then 8 else 0, 4);
    var c, d := ToLe(if node.fixedSize then 16 else MaxKey(rs), 4), ToLe(if node.fixedSize then 8 else MaxValue(rs), 4);
    var flags, size, count, one := ToLe(TreeFlags(node), 4), ToLe(BLOCK, 4), ToLe(|rs|, 8), ToLe(1, 8);
    HasConcat(s, INFO, flags, size);
    HasConcat(s, INFO, flags + size, a);
    HasConcat(s, INFO, flags + size + a, b);
    HasConcat(s, INFO, flags + size + a + b, c);
    HasConcat(s, INFO, flags + size + a + b + c, d);
    HasConcat(s, INFO, flags + size + a + b + c + d, count);
    HasConcat(s, INFO, flags + size + a + b + c + d + count, one);
  }

  lemma SameLengths(s: seq<byte>, t: seq<byte>, node: Node, rs: seq<Record>)
    requires Fits(rs) && LeafImage(s, node, rs) && LeafImage(t, node, rs)
    ensures s[0x2C..0x30] == t[0x2C..0x30] && s[INFO..BLOCK] == t[INFO..BLOCK]
  {
    var d, e := ToLe(|KeyBytes(rs)|, 2), ToLe(ValuesStart(rs) - FreeStart(rs), 2);
    HasConcat(s, 0x2C, d, e);
    HasConcat(t, 0x2C, d, e);
    SameField(s, t, 0x2C, d + e);
    InfoPiece(s, node, rs);
    InfoPiece(t, node, rs);
    SameField(s, t, INFO, InfoBytes(node, rs));
  }

  lemma SameRegions(s: seq<byte>, t: seq<byte>, node: Node, rs: seq<Record>)
    requires Fits(rs) && LeafImage(s, node, rs) && LeafImage(t, node, rs)
    ensures s[TABLE..INFO] == t[TABLE..INFO]
  {
    LeafSlices(s, node, rs);
    LeafSlices(t, node, rs);
    Cut(s, t, KeyArea(rs), FreeStart(rs), ValuesStart(rs));
  }

  lemma Cut(s: seq<byte>, t: seq<byte>, k: nat, f: nat, v: nat)
    requires TABLE <= k <= f <= v <= INFO && |s| == |t| == BLOCK
    requires s[TABLE..k] == t[TABLE..k] && s[k..f] == t[k..f] && s[f..v] == t[f..v] && s[v..INFO] == t[v..INFO]
    ensures s[TABLE..INFO] == t[TABLE..INFO]
  {
    assert s[TABLE..INFO] == s[TABLE..k] + s[k..f] + s[f..v] + s[v..INFO];
    assert t[TABLE..INFO] == t[TABLE..k] + t[k..f] + t[f..v] + t[v..INFO];
  }

  lemma SamePieces(s: seq<byte>, t: seq<byte>)
    requires |s| == |t| == BLOCK && s[8..0x2C] == t[8..0x2C] && s[0x2C..0x30] == t[0x2C..0x30] && s[0x30..TABLE] == t[0x30..TABLE]
    requires s[TABLE..INFO] == t[TABLE..INFO] && s[INFO..BLOCK] == t[INFO..BLOCK]
    ensures s[8..] == t[8..]
  {
    assert s[8..] == s[8..0x2C] + s[0x2C..0x30] + s[0x30..TABLE] + s[TABLE..INFO] + s[INFO..BLOCK];
    assert t[8..] == t[8..0x2C] + t[0x2C..0x30] + t[0x30..TABLE] + t[TABLE..INFO] + t[INFO..BLOCK];
  }

  lemma SameSeal(s: seq<byte>, t: seq<byte>)
    requires |s| == |t| >= 8 && s[8..] == t[8..] && Fletcher.WellSealed(s) && Fletcher.WellSealed(t)
    ensures s == t
  {
    ToLeOfFromLe(s[..8]);
    ToLeOfFromLe(t[..8]);
    assert s == s[..8] + s[8..] && t == t[..8] + t[8..];
  }

  /** No byte of a sealed leaf is left open: the node and its records determine all 4096. */
  lemma LeafIsDetermined(s: seq<byte>, t: seq<byte>, node: Node, rs: seq<Record>)
    requires Fits(rs) && LeafImage(s, node, rs) && LeafImage(t, node, rs)
    requires Fletcher.WellSealed(s) && Fletcher.WellSealed(t)
    ensures s == t
  {
    SameHeader(s, t, node, |rs|);
    SameRegions(s, t, node, rs);
    SameLengths(s, t, node, rs);
    SamePieces(s, t);
    SameSeal(s, t);
  }

  /** And the block in turn determines the node's identity and its records. */
  lemma LeafIsInjective(s: seq<byte>, n: Node, rs: seq<Record>, m: Node, qs: seq<Record>)
    requires Fits(rs) && LeafImage(s, n, rs) && Fits(qs) && LeafImage(s, m, qs)
    ensures n == m && rs == qs
  {
    LeafRoundTrip(s, n, rs);
    LeafRoundTrip(s, m, qs);
    Identity(s, n, |rs|);
    Identity(s, m, |qs|);
  }

  lemma Identity(s: seq<byte>, node: Node, count: nat)
    requires HeaderWritten(s, node, count) && |s| == BLOCK
    ensures node.oid == Field(s, 0x08, 8) && node.xid == Field(s, 0x10, 8)
    ensures node.kind == Field(s, 0x18, 4) && node.subkind == Field(s, 0x1C, 4)
    ensures node.fixedSize <==> Field(s, 0x20, 2) == 7
  {
    Widths();
    FieldIs(s, 0x08, node.oid, 8);
    FieldIs(s, 0x10, node.xid, 8);
    FieldIs(s, 0x18, node.kind, 4);
    FieldIs(s, 0x1C, node.subkind, 4);
    FieldIs(s, 0x20, NodeFlags(node), 2);
  }

  // ---- The fields by number ----

  /** No key is longer than the longest, and some key is as long. */
  lemma {:induction false} MaxKeyIsLongest(rs: seq<Record>)
    ensures forall i :: 0 <= i < |rs| ==> |rs[i].key| <= MaxKey(rs) <= |KeyBytes(rs)|
    ensures if rs == [] then MaxKey(rs) == 0 else exists i :: 0 <= i < |rs| && |rs[i].key| == MaxKey(rs)
  {
    if rs != [] {
      var n := |rs| - 1;
      MaxKeyIsLongest(rs[..n]);
      assert |rs[n].key| <= MaxKey(rs);
      if n > 0 {
        var i :| 0 <= i < n && |rs[..n][i].key| == MaxKey(rs[..n]);
        assert rs[i] == rs[..n][i];
      }
    }
  }

  lemma {:induction false} MaxValueIsLongest(rs: seq<Record>)
    ensures forall i :: 0 <= i < |rs| ==> |rs[i].value| <= MaxValue(rs) <= |ValueBytes(rs)|
    ensures if rs == [] then MaxValue(rs) == 0 else exists i :: 0 <= i < |rs| && |rs[i].value| == MaxValue(rs)
  {
    if rs != [] {
      var n := |rs| - 1;
      MaxValueIsLongest(rs[..n]);
      assert |rs[n].value| <= MaxValue(rs);
      if n > 0 {
        var i :| 0 <= i < n && |rs[..n][i].value| == MaxValue(rs[..n]);
        assert rs[i] == rs[..n][i];
      }
    }
  }

  /** The header by number: identity, flags for root and leaf and, with fixed sizes, that too, level 0, and no free-list entries. */
  lemma HeaderByNumber(s: seq<byte>, node: Node, rs: seq<Record>)
    requires Fits(rs) && LeafImage(s, node, rs)
    ensures |s| == 4096
    ensures Field(s, 8, 8) == node.oid && Field(s, 16, 8) == node.xid && Field(s, 24, 4) == node.kind && Field(s, 28, 4) == node.subkind
    ensures Field(s, 32, 2) == 1 + 2 + (if node.fixedSize then 4 else 0) && Field(s, 34, 2) == 0
    ensures Field(s, 36, 4) == |rs| && Field(s, 40, 2) == 0 && Field(s, 42, 2) == 8 * |rs| && Field(s, 48, 8) == 0
  {
    Widths();
    Identity(s, node, |rs|);
    HeaderFields(s, node, |rs|);
    FieldIs(s, 0x20, NodeFlags(node), 2);
    ZeroField(s, 0x22, 2);
    ZeroField(s, 0x30, 8);
  }

  lemma {:induction false} ZerosAreZero(n: nat)
    ensures ToLe(0, n) == Zeros(n)
  {
    if n != 0 {
      ZerosAreZero(n - 1);
      assert Zeros(n) == [0] + Zeros(n - 1);
    }
  }

  lemma ZeroField(s: seq<byte>, at: nat, n: nat)
    requires Has(s, at, Zeros(n))
    ensures at + n <= |s| && Field(s, at, n) == 0
  {
    ZerosAreZero(n);
    FieldIs(s, at, 0, n);
  }

  /** Key and value lengths in the info block: the fixed ones, or the longest of the records, each attained and never exceeded. */
  lemma SizesByNumber(s: seq<byte>, node: Node, rs: seq<Record>)
    requires Fits(rs) && LeafImage(s, node, rs)
    ensures |s| == 4096
    ensures node.fixedSize ==> Field(s, 4064, 4) == Field(s, 4072, 4) == 16 && Field(s, 4068, 4) == Field(s, 4076, 4) == 8
    ensures !node.fixedSize ==> Field(s, 4064, 4) == Field(s, 4068, 4) == 0
    ensures !node.fixedSize ==> forall i :: 0 <= i < |rs| ==> |rs[i].key| <= Field(s, 4072, 4) && |rs[i].value| <= Field(s, 4076, 4)
    ensures !node.fixedSize && rs == [] ==> Field(s, 4072, 4) == Field(s, 4076, 4) == 0
    ensures !node.fixedSize && rs != [] ==>
      && (exists i :: 0 <= i < |rs| && |rs[i].key| == Field(s, 4072, 4))
      && (exists i :: 0 <= i < |rs| && |rs[i].value| == Field(s, 4076, 4))
  {
    MaxKeyIsLongest(rs);
    MaxValueIsLongest(rs);
    SizeFields(s, node, rs, MaxKey(rs), MaxValue(rs));
  }

  lemma SizeFields(s: seq<byte>, node: Node, rs: seq<Record>, key: nat, value: nat)
    requires |s| == BLOCK && SizesWritten(s, node, rs) && key == MaxKey(rs) < 0x1_0000_0000 && value == MaxValue(rs) < 0x1_0000_0000
    ensures Field(s, 4064, 4) == (if node.fixedSize then 16 else 0) && Field(s, 4068, 4) == (if node.fixedSize then 8 else 0)
    ensures Field(s, 4072, 4) == (if node.fixedSize then 16 else key) && Field(s, 4076, 4) == (if node.fixedSize then 8 else value)
  {
    Widths();
    FieldIs(s, INFO + 8, if node.fixedSize then 16 else 0, 4);
    FieldIs(s, INFO + 12, if node.fixedSize then 8 else 0, 4);
    FieldIs(s, INFO + 16, if node.fixedSize then 16 else key, 4);
    FieldIs(s, INFO + 20, if node.fixedSize then 8 else value, 4);
  }

  /**
   * The rest of the info block: the tree's flags, which for variable sizes are bit 6 and one more bit that the top two
   * bits of the object type choose, the block size, the number of records, and one node.
   */
  lemma InfoByNumber(s: seq<byte>, node: Node, rs: seq<Record>)
    requires Fits(rs) && LeafImage(s, node, rs)
    ensures |s| == 4096
    ensures node.fixedSize ==> Field(s, 4056, 4) == 1 + 2 + 4 + 8
    ensures var storage := Field(s, 24, 4) / 0x4000_0000;
      !node.fixedSize ==> Field(s, 4056, 4) == 64 + (if storage == 1 then 16 else if storage == 2 then 8 else 0)
    ensures Field(s, 4060, 4) == 4096 && Field(s, 4080, 8) == |rs| && Field(s, 4088, 8) == 1
  {
    Widths();
    Identity(s, node, |rs|);
    FieldIs(s, INFO, TreeFlags(node), 4);
    FieldIs(s, INFO + 4, BLOCK, 4);
    FieldIs(s, INFO + 24, |rs|, 8);
    FieldIs(s, INFO + 32, 1, 8);
  }
}
