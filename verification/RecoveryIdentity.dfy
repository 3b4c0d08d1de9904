/** The 42-byte namespace witness, and the names that recovery storage goes by. */
module RecoveryIdentity {
  import opened Bytes
  import opened Prelude

  const WITNESS: nat := 42

  type Guid = g: seq<byte> | |g| == 16 witness Zeros(16)
  type Oid = x: int | 0 <= x < 0x1_0000_0000_0000_0000

  datatype Identity = Identity(partition: Guid, container: string, oid: Oid)

  const EMPTY: Guid := Zeros(16)

  // ---- Hexadecimal ----

  predicate IsHex(c: char) {
    '0' <= c <= '9' || 'a' <= c <= 'f' || 'A' <= c <= 'F'
  }

  function HexValue(c: char): (v: nat)
    ensures IsHex(c) ==> v < 16
  {
    if '0' <= c <= '9' then c as int - '0' as int
    else if 'a' <= c <= 'f' then c as int - 'a' as int + 10
    else if 'A' <= c <= 'F' then c as int - 'A' as int + 10
    else 0
  }

  function HexDigit(v: nat): (c: char)
    requires v < 16
    ensures IsHex(c) && HexValue(c) == v && Lower(c) == c
  {
    if v < 10 then ('0' as int + v) as char else ('a' as int + v - 10) as char
  }

  function Lower(c: char): char {
    if 'A' <= c <= 'Z' then (c as int - 'A' as int + 'a' as int) as char else c
  }

  function LowerCase(s: string): (r: string)
    ensures |r| == |s|
  {
    seq(|s|, i requires 0 <= i < |s| => Lower(s[i]))
  }

  predicate AllHex(s: string) {
    forall i :: 0 <= i < |s| ==> IsHex(s[i])
  }

  predicate AllZeroDigits(s: string) {
    forall i :: 0 <= i < |s| ==> s[i] == '0'
  }

  function PairByte(hi: nat, lo: nat): (b: byte)
    requires hi < 16 && lo < 16
    ensures b / 16 == hi && b % 16 == lo
  {
    16 * hi + lo
  }

  function FromHex(s: string): (b: seq<byte>)
    requires |s| % 2 == 0 && AllHex(s)
    ensures |b| == |s| / 2
  {
    if s == [] then [] else [PairByte(HexValue(s[0]), HexValue(s[1]))] + FromHex(s[2..])
  }

  function ToHexLower(b: seq<byte>): (s: string)
    ensures |s| == 2 * |b| && AllHex(s)
  {
    if b == [] then "" else [HexDigit(b[0] / 16), HexDigit(b[0] % 16)] + ToHexLower(b[1..])
  }

  lemma {:induction false} HexOfBytes(b: seq<byte>)
    ensures FromHex(ToHexLower(b)) == b
    ensures LowerCase(ToHexLower(b)) == ToHexLower(b)
  {
    if b != [] {
      HexOfBytes(b[1..]);
      var s, t := ToHexLower(b), ToHexLower(b[1..]);
      assert s[2..] == t;
      assert b == [b[0]] + b[1..];
      LowerJoin(s[..2], t);
      assert s == s[..2] + t && LowerCase(s[..2]) == s[..2];
    }
  }

  lemma LowerJoin(s: string, t: string)
    ensures LowerCase(s + t) == LowerCase(s) + LowerCase(t)
  {
  }

  lemma DigitOfValue(c: char)
    requires IsHex(c)
    ensures HexDigit(HexValue(c)) == Lower(c)
    ensures HexValue(Lower(c)) == HexValue(c) && IsHex(Lower(c))
    ensures HexValue(c) == 0 <==> c == '0'
  {
  }

  lemma {:induction false} BytesOfHex(s: string)
    requires |s| % 2 == 0 && AllHex(s)
    ensures ToHexLower(FromHex(s)) == LowerCase(s)
  {
    if s != [] {
      BytesOfHex(s[2..]);
      DigitOfValue(s[0]);
      DigitOfValue(s[1]);
      var b := FromHex(s);
      assert b[1..] == FromHex(s[2..]);
      LowerJoin(s[..2], s[2..]);
      assert s == s[..2] + s[2..] && LowerCase(s[..2]) == [Lower(s[0]), Lower(s[1])];
    }
  }

  lemma LowerKeepsZeros(s: string)
    requires AllHex(s)
    ensures AllZeroDigits(LowerCase(s)) <==> AllZeroDigits(s)
  {
    forall i | 0 <= i < |s| ensures LowerCase(s)[i] == '0' <==> s[i] == '0' {
    }
  }

  // ---- The namespace witness ----

  predicate Physical(partition: Option<Guid>) {
    partition.Some? && partition.value != EMPTY
  }

  predicate Buildable(partition: Option<Guid>, container: Option<string>, oid: Option<Oid>, allowPartitionless: bool) {
    && (Physical(partition) || allowPartitionless)
    && container.Some? && |container.value| == 32 && AllHex(container.value) && !AllZeroDigits(container.value)
    && oid.Some? && oid.value != 0
  }

  /** The hexadecimal digits are these, and each stands for its place. */
  lemma HexByPlace(c: char)
    ensures IsHex(c) <==> c in "0123456789abcdefABCDEF"
    ensures IsHex(c) ==> "0123456789abcdef"[HexValue(c)] == c || "0123456789ABCDEF"[HexValue(c)] == c
  {
    var lower, upper := "0123456789abcdef", "0123456789ABCDEF";
    if IsHex(c) {
      assert lower[HexValue(c)] == c || upper[HexValue(c)] == c;
      HexIsListed(c, lower, upper);
    }
  }

  lemma HexIsListed(c: char, lower: string, upper: string)
    requires IsHex(c) && lower == "0123456789abcdef" && upper == "0123456789ABCDEF"
    ensures c in "0123456789abcdefABCDEF"
  {
    var all := "0123456789abcdefABCDEF";
    if '0' <= c <= '9' || 'a' <= c <= 'f' {
      assert all[HexValue(c)] == c;
    } else {
      assert all[HexValue(c) + 6] == c;
    }
  }

  /** A witness needs a partition that is not all zero, unless none is allowed, a container of 32 digits that are not all zero, and an object id. */
  lemma BuildableIsExact(partition: Option<Guid>, container: Option<string>, oid: Option<Oid>, allowPartitionless: bool)
    ensures Buildable(partition, container, oid, allowPartitionless) <==>
      && (allowPartitionless || (partition.Some? && exists i :: 0 <= i < 16 && partition.value[i] != 0))
      && container.Some? && |container.value| == 32
      && (forall i :: 0 <= i < 32 ==> IsHex(container.value[i])) && (exists i :: 0 <= i < 32 && container.value[i] != '0')
      && oid.Some? && oid.value > 0
  {
    if partition.Some? && forall i :: 0 <= i < 16 ==> partition.value[i] == 0 {
      assert partition.value == Zeros(16);
    }
  }

  function GuidOf(partition: Option<Guid>): Guid {
    if Physical(partition) then partition.value else EMPTY
  }

  function Encoded(physical: bool, partition: Guid, container: seq<byte>, oid: Oid): (w: seq<byte>)
    requires |container| == 16
    ensures |w| == WITNESS
  {
    [if physical then 1 else 0] + partition + container + [1] + ToLe(oid, 8)
  }

  /** Fills the witness field by field, or refuses. */
  method BuildNamespaceMaterial(partition: Option<Guid>, container: Option<string>, oid: Option<Oid>, allowPartitionless: bool)
    returns (r: Option<seq<byte>>)
    ensures r.Some? <==> Buildable(partition, container, oid, allowPartitionless)
    ensures r.Some? ==> r.value == Encoded(Physical(partition), GuidOf(partition), FromHex(container.value), oid.value)
  {
    var physical := partition.Some? && partition.value != EMPTY;
    if (!physical && !allowPartitionless) || container.None? || |container.value| != 32
      || !AllHex(container.value) || AllZeroDigits(container.value) || oid.None? || oid.value == 0 {
      return None;
    }
    var bytes := FillWitness(physical, GuidOf(partition), FromHex(container.value), oid.value);
    return Some(bytes[..]);
  }

  lemma WitnessAssembled(w: seq<byte>, flag: byte, partition: Guid, container: seq<byte>, oid: Oid)
    requires |w| == WITNESS && |container| == 16
    requires Has(w, 0, [flag]) && Has(w, 1, partition) && Has(w, 17, container) && Has(w, 33, [1]) && Has(w, 34, ToLe(oid, 8))
    ensures w == [flag] + partition + container + [1] + ToLe(oid, 8)
  {
    HasConcat(w, 0, [flag], partition);
    HasConcat(w, 0, [flag] + partition, container);
    HasConcat(w, 0, [flag] + partition + container, [1]);
    HasConcat(w, 0, [flag] + partition + container + [1], ToLe(oid, 8));
    HasBytes(w, 0, [flag] + partition + container + [1] + ToLe(oid, 8));
  }

  method FillWitness(physical: bool, partition: Guid, container: seq<byte>, oid: Oid) returns (bytes: array<byte>)
    requires |container| == 16 && (physical <==> partition != EMPTY)
    ensures fresh(bytes) && bytes[..] == Encoded(physical, partition, container, oid)
  {
    bytes := new byte[WITNESS](_ => 0);
    HasBytes(bytes[..], 1, EMPTY);
    ghost var s := bytes[..];
    var flag: seq<byte> := [if physical then 1 else 0];
    var ok := Put(bytes, 0, flag);
    FramedHas(s, bytes[..], 0, 1, 1, EMPTY);
    if physical {
      s := bytes[..];
      ok := Put(bytes, 1, partition);
      FramedHas(s, bytes[..], 1, 17, 0, flag);
    }
    s := bytes[..];
    ok := Put(bytes, 17, container);
    FramedHas(s, bytes[..], 17, 33, 0, flag);
    FramedHas(s, bytes[..], 17, 33, 1, partition);
    FillTail(bytes, flag[0], partition, container, oid);
  }

  method FillTail(bytes: array<byte>, flag: byte, partition: Guid, container: seq<byte>, oid: Oid)
    requires bytes.Length == WITNESS && |container| == 16
    requires Has(bytes[..], 0, [flag]) && Has(bytes[..], 1, partition) && Has(bytes[..], 17, container)
    modifies bytes
    ensures bytes[..] == [flag] + partition + container + [1] + ToLe(oid, 8)
  {
    ghost var s := bytes[..];
    var ok := Put(bytes, 33, [1]);
    ghost var t := bytes[..];
    FramedAll(s, t, 33, 34);
    ok := Put(bytes, 34, ToLe(oid, 8));
    FramedAll(t, bytes[..], 34, 42);
    WitnessAssembled(bytes[..], flag, partition, container, oid);
  }

  function ReadOid(s: seq<byte>): (v: Oid)
    requires |s| == 8
    ensures ToLe(v, 8) == s
  {
    ToLeOfFromLe(s);
    Widths();
    FromLe(s)
  }

  function DecodeNamespace(bytes: seq<byte>): Option<Identity> {
    if |bytes| != WITNESS || bytes[0] > 1 || bytes[33] != 1 then None else
      var partition: seq<byte> := bytes[1..17];
      var container := ToHexLower(bytes[17..33]);
      var oid := ReadOid(bytes[34..]);
      if (bytes[0] == 0) != (partition == EMPTY) || AllZeroDigits(container) || oid == 0 then None
      else Some(Identity(partition, container, oid))
  }

  lemma EncodedParts(physical: bool, partition: Guid, container: seq<byte>, oid: Oid)
    requires |container| == 16
    ensures var w := Encoded(physical, partition, container, oid);
      && w[0] == (if physical then 1 else 0) && w[1..17] == partition && w[17..33] == container && w[33] == 1
      && w[34..] == ToLe(oid, 8) && ReadOid(w[34..]) == oid
  {
    var w := Encoded(physical, partition, container, oid);
    assert w[1..17] == partition;
    assert w[17..33] == container;
    assert w[34..] == ToLe(oid, 8);
    Widths();
    FromLeOfToLe(oid, 8);
  }

  /** Decoding a built witness gives the partition, the container in lower case and the object id back. */
  lemma DecodeOfBuilt(partition: Option<Guid>, container: string, oid: Oid, allowPartitionless: bool)
    requires Buildable(partition, Some(container), Some(oid), allowPartitionless)
    ensures DecodeNamespace(Encoded(Physical(partition), GuidOf(partition), FromHex(container), oid))
         == Some(Identity(GuidOf(partition), LowerCase(container), oid))
  {
    EncodedParts(Physical(partition), GuidOf(partition), FromHex(container), oid);
    BytesOfHex(container);
    LowerKeepsZeros(container);
  }

  /** And every witness that decodes is the one built from what it decodes to. */
  lemma BuiltOfDecoded(bytes: seq<byte>)
    requires DecodeNamespace(bytes).Some?
    ensures var id := DecodeNamespace(bytes).value;
      && Buildable(Some(id.partition), Some(id.container), Some(id.oid), true)
      && bytes == Encoded(Physical(Some(id.partition)), id.partition, FromHex(id.container), id.oid)
  {
    HexOfBytes(bytes[17..33]);
    var id := DecodeNamespace(bytes).value;
    assert bytes[33..34] == [1];
    assert bytes == bytes[..1] + bytes[1..17] + bytes[17..33] + bytes[33..34] + bytes[34..];
  }

  /** Two accepted requests share a witness exactly when they name the same volume, letter case of the container aside. */
  lemma SameWitness(p: Option<Guid>, c: string, o: Oid, q: Option<Guid>, d: string, u: Oid)
    requires Buildable(p, Some(c), Some(o), true) && Buildable(q, Some(d), Some(u), true)
    ensures Encoded(Physical(p), GuidOf(p), FromHex(c), o) == Encoded(Physical(q), GuidOf(q), FromHex(d), u)
       <==> GuidOf(p) == GuidOf(q) && LowerCase(c) == LowerCase(d) && o == u
  {
    DecodeOfBuilt(p, c, o, true);
    DecodeOfBuilt(q, d, u, true);
    BytesOfHex(c);
    BytesOfHex(d);
    HexOfBytes(FromHex(c));
    HexOfBytes(FromHex(d));
  }

  // ---- Base64 ----

  type sextet = v: int | 0 <= v < 64

  /** The four sextets of three bytes, and back. */
  function First(b0: byte): sextet { b0 / 4 }

  function Second(b0: byte, b1: byte): sextet { b0 % 4 * 16 + b1 / 16 }

  function Third(b1: byte, b2: byte): sextet { b1 % 16 * 4 + b2 / 64 }

  function Fourth(b2: byte): sextet { b2 % 64 }

  function Byte0(s0: int, s1: int): (b: byte)
    requires 0 <= s0 < 64 && 0 <= s1 < 64
  {
    s0 * 4 + s1 / 16
  }

  function Byte1(s1: int, s2: int): (b: byte)
    requires 0 <= s1 < 64 && 0 <= s2 < 64
  {
    s1 % 16 * 16 + s2 / 4
  }

  function Byte2(s2: int, s3: int): (b: byte)
    requires 0 <= s2 < 64 && 0 <= s3 < 64
  {
    s2 % 4 * 64 + s3
  }

  lemma GroupOfBytes(b0: byte, b1: byte, b2: byte)
    ensures Byte0(First(b0), Second(b0, b1)) == b0
    ensures Byte1(Second(b0, b1), Third(b1, b2)) == b1
    ensures Byte2(Third(b1, b2), Fourth(b2)) == b2
    ensures Second(b0, 0) % 16 == 0 && Third(b1, 0) % 4 == 0
  {
    var x0: int, x1: int, x2: int := b0, b1, b2;
    assert x1 / 16 < 16 && x2 / 64 < 4;
  }

  lemma GroupOfSextets(s0: sextet, s1: sextet, s2: sextet, s3: sextet)
    ensures First(Byte0(s0, s1)) == s0
    ensures Second(Byte0(s0, s1), Byte1(s1, s2)) == s1
    ensures Third(Byte1(s1, s2), Byte2(s2, s3)) == s2
    ensures Fourth(Byte2(s2, s3)) == s3
    ensures s1 % 16 == 0 ==> Second(Byte0(s0, s1), 0) == s1
    ensures s2 % 4 == 0 ==> Third(Byte1(s1, s2), 0) == s2
  {
    var y0: int, y1: int, y2: int, y3: int := s0, s1, s2, s3;
    assert y1 / 16 < 4 && y2 / 4 < 16;
  }

  /** Groups of three bytes as four sextets; a shorter last group leaves its spare bits zero. */
  function Sextets(b: seq<byte>): (s: seq<sextet>)
    ensures |s| == (4 * |b| + 2) / 3
  {
    if |b| == 0 then []
    else if |b| == 1 then [First(b[0]), Second(b[0], 0)]
    else if |b| == 2 then [First(b[0]), Second(b[0], b[1]), Third(b[1], 0)]
    else [First(b[0]), Second(b[0], b[1]), Third(b[1], b[2]), Fourth(b[2])] + Sextets(b[3..])
  }

  /** A whole number of bytes, spare bits zero. */
  predicate Canonical(s: seq<sextet>) {
    |s| % 4 != 1 && (|s| % 4 == 2 ==> s[|s| - 1] % 16 == 0) && (|s| % 4 == 3 ==> s[|s| - 1] % 4 == 0)
  }

  function Unpack(s: seq<sextet>): seq<byte>
    requires |s| % 4 != 1
  {
    if |s| == 0 then []
    else if |s| == 2 then [Byte0(s[0], s[1])]
    else if |s| == 3 then [Byte0(s[0], s[1]), Byte1(s[1], s[2])]
    else [Byte0(s[0], s[1]), Byte1(s[1], s[2]), Byte2(s[2], s[3])] + Unpack(s[4..])
  }

  lemma {:induction false} UnpackLength(s: seq<sextet>)
    requires |s| % 4 != 1
    ensures 4 * |Unpack(s)| <= 3 * |s| < 4 * |Unpack(s)| + 4
  {
    if |s| >= 4 {
      UnpackLength(s[4..]);
    }
  }

  lemma UnpackOfTwo(s: seq<sextet>, b0: byte, b1: byte)
    requires |s| == 3 && s[0] == First(b0) && s[1] == Second(b0, b1) && s[2] == Third(b1, 0)
    ensures Canonical(s) && Unpack(s) == [b0, b1]
  {
    GroupOfBytes(b0, b1, 0);
  }

  lemma OneByte(b0: byte)
    ensures Second(b0, 0) % 16 == 0 && Byte0(First(b0), Second(b0, 0)) == b0
  {
    var x: int := b0;
    assert x % 4 * 16 / 16 == x % 4;
  }

  lemma UnpackOfOne(s: seq<sextet>, b0: byte)
    requires |s| == 2 && s[0] == First(b0) && s[1] == Second(b0, 0)
    ensures Canonical(s) && Unpack(s) == [b0]
  {
    OneByte(b0);
  }

  /** One more whole group in front. */
  lemma UnpackOfGroup(b0: byte, b1: byte, b2: byte, t: seq<sextet>)
    requires |t| % 4 != 1
    ensures Unpack([First(b0), Second(b0, b1), Third(b1, b2), Fourth(b2)] + t) == [b0, b1, b2] + Unpack(t)
  {
    var s := [First(b0), Second(b0, b1), Third(b1, b2), Fourth(b2)] + t;
    assert s[4..] == t;
    GroupOfBytes(b0, b1, b2);
  }

  lemma {:induction false} UnpackOfSextets(b: seq<byte>)
    ensures Canonical(Sextets(b)) && Unpack(Sextets(b)) == b
  {
    if |b| == 0 {
    } else if |b| == 1 {
      UnpackOfOne(Sextets(b), b[0]);
    } else if |b| == 2 {
      UnpackOfTwo(Sextets(b), b[0], b[1]);
    } else {
      var t := Sextets(b[3..]);
      UnpackOfSextets(b[3..]);
      UnpackOfGroup(b[0], b[1], b[2], t);
      LongerStaysCanonical(Sextets(b), t);
      assert b == [b[0], b[1], b[2]] + b[3..];
    }
  }

  lemma LongerStaysCanonical(s: seq<sextet>, t: seq<sextet>)
    requires |s| == |t| + 4 && s[4..] == t
    ensures Canonical(s) <==> Canonical(t)
  {
    if |t| > 0 {
      assert s[|s| - 1] == t[|t| - 1];
    }
  }

  /** The sextets of two bytes, and of one, from their parts. */
  lemma SextetsOfTwo(b: seq<byte>, s: seq<sextet>)
    requires |b| == 2 && |s| == 3 && First(b[0]) == s[0] && Second(b[0], b[1]) == s[1] && Third(b[1], 0) == s[2]
    ensures Sextets(b) == s
  {
  }

  lemma SextetsOfGroup(b: seq<byte>, s: seq<sextet>)
    requires |b| >= 3 && |s| >= 4 && Sextets(b[3..]) == s[4..]
    requires First(b[0]) == s[0] && Second(b[0], b[1]) == s[1] && Third(b[1], b[2]) == s[2] && Fourth(b[2]) == s[3]
    ensures Sextets(b) == s
  {
    assert s == [s[0], s[1], s[2], s[3]] + s[4..];
  }

  lemma SextetsOfOne(b: seq<byte>, s: seq<sextet>)
    requires |b| == 1 && |s| == 2 && First(b[0]) == s[0] && Second(b[0], 0) == s[1]
    ensures Sextets(b) == s
  {
  }

  lemma {:induction false} SextetsOfUnpack(s: seq<sextet>)
    requires Canonical(s)
    ensures Sextets(Unpack(s)) == s
  {
    if |s| >= 4 {
      LongerStaysCanonical(s, s[4..]);
      SextetsOfUnpack(s[4..]);
      GroupOfSextets(s[0], s[1], s[2], s[3]);
      assert Unpack(s)[3..] == Unpack(s[4..]);
      SextetsOfGroup(Unpack(s), s);
    } else if |s| == 3 {
      GroupOfSextets(s[0], s[1], s[2], 0);
      SextetsOfTwo(Unpack(s), s);
    } else if |s| == 2 {
      GroupOfSextets(s[0], s[1], 0, 0);
      SextetsOfOne(Unpack(s), s);
    }
  }

  /** The standard alphabet of section 4 of RFC 4648. */
  function StandardChar(v: sextet): char {
    if v < 26 then ('A' as int + v) as char
    else if v < 52 then ('a' as int + v - 26) as char
    else if v < 62 then ('0' as int + v - 52) as char
    else if v == 62 then '+' else '/'
  }

  function Map(f: sextet -> char, s: seq<sextet>): (r: string)
    ensures |r| == |s| && forall i :: 0 <= i < |s| ==> r[i] == f(s[i])
  {
    seq(|s|, i requires 0 <= i < |s| => f(s[i]))
  }

  function Padding(n: nat): string {
    if n % 3 == 0 then "" else if n % 3 == 1 then "==" else "="
  }

  function ToBase64String(b: seq<byte>): string {
    Map(StandardChar, Sextets(b)) + Padding(|b|)
  }

  function TrimEnd(s: string, c: char): string {
    if s != "" && s[|s| - 1] == c then TrimEnd(s[..|s| - 1], c) else s
  }

  function Replace(s: string, from: char, to: char): (r: string)
    ensures |r| == |s|
  {
    seq(|s|, i requires 0 <= i < |s| => if s[i] == from then to else s[i])
  }

  const PREFIX: string := "apfs-recovery-v1-"
  const KEY_PREFIX: string := "apfs_recovery_v1_"

  /** The recovery identity of a digest. */
  function RecoveryName(digest: seq<byte>): string {
    PREFIX + Replace(Replace(TrimEnd(ToBase64String(digest), '='), '+', '-'), '/', '_')
  }

  predicate NameChar(c: char) {
    'A' <= c <= 'Z' || 'a' <= c <= 'z' || '0' <= c <= '9' || c == '-' || c == '_'
  }

  predicate NameAccepted(name: string) {
    && PREFIX <= name && |name| == 60
    && (forall i :: 17 <= i < 60 ==> NameChar(name[i]))
    && name[59] in "AEIMQUYcgkosw048"
  }

  function BuildRecoveryStorageKey(name: string): Option<string> {
    if NameAccepted(name) then Some(KEY_PREFIX + name[17..]) else None
  }

  function UrlChar(v: sextet): (c: char)
    ensures NameChar(c) && UrlValue(c) == v
  {
    if v < 26 then ('A' as int + v) as char
    else if v < 52 then ('a' as int + v - 26) as char
    else if v < 62 then ('0' as int + v - 52) as char
    else if v == 62 then '-' else '_'
  }

  function UrlValue(c: char): sextet {
    if 'A' <= c <= 'Z' then c as int - 'A' as int
    else if 'a' <= c <= 'z' then c as int - 'a' as int + 26
    else if '0' <= c <= '9' then c as int - '0' as int + 52
    else if c == '-' then 62 else 63
  }

  lemma LastChar(c: char)
    requires NameChar(c)
    ensures c in "AEIMQUYcgkosw048" <==> UrlValue(c) % 4 == 0
  {
    if 'A' <= c <= 'Z' {
      assert c in "AEIMQUY" <==> UrlValue(c) % 4 == 0;
    } else if 'a' <= c <= 'z' {
      assert c in "cgkosw" <==> UrlValue(c) % 4 == 0;
    } else if '0' <= c <= '9' {
      assert c in "048" <==> UrlValue(c) % 4 == 0;
    }
  }

  lemma TrimPadding(s: string, n: nat)
    requires s == "" || s[|s| - 1] != '='
    ensures TrimEnd(s + Padding(n), '=') == s
  {
    TrimOne(s);
    TrimOne(s + "=");
    assert s + "=" + "=" == s + "==" && s + "" == s;
  }

  lemma TrimOne(s: string)
    ensures TrimEnd(s + "=", '=') == TrimEnd(s, '=')
  {
    assert (s + "=")[..|s|] == s;
  }

  lemma NameOfDigest(digest: seq<byte>)
    ensures RecoveryName(digest) == PREFIX + Map(UrlChar, Sextets(digest))
  {
    var s := Sextets(digest);
    var standard := Map(StandardChar, s);
    TrimPadding(standard, |digest|);
    assert Replace(Replace(standard, '+', '-'), '/', '_') == Map(UrlChar, s);
  }

  /** The digest a name stands for. */
  function DigestOf(name: string): (digest: seq<byte>)
    requires NameAccepted(name)
    ensures |digest| == 32
  {
    UnpackLength(TailValues(name));
    Unpack(TailValues(name))
  }

  function TailValues(name: string): (s: seq<sextet>)
    requires |name| == 60
    ensures |s| == 43 && forall i :: 0 <= i < 43 ==> s[i] == UrlValue(name[17 + i])
  {
    seq(43, i requires 0 <= i < 43 => UrlValue(name[17 + i]))
  }

  lemma NameOfSextets(s: seq<sextet>)
    requires |s| == 43 && Canonical(s)
    ensures NameAccepted(PREFIX + Map(UrlChar, s)) && TailValues(PREFIX + Map(UrlChar, s)) == s
  {
    var tail := Map(UrlChar, s);
    PrefixedName(tail);
    LastChar(tail[42]);
    forall i | 0 <= i < 43 ensures TailValues(PREFIX + tail)[i] == s[i] {
      assert UrlValue(tail[i]) == s[i];
    }
  }

  lemma PrefixedName(tail: string)
    requires |tail| == 43
    ensures |PREFIX + tail| == 60 && PREFIX <= PREFIX + tail
    ensures forall i :: 0 <= i < 43 ==> (PREFIX + tail)[17 + i] == tail[i]
    ensures forall i :: 17 <= i < 60 ==> (PREFIX + tail)[i] == tail[i - 17]
  {
  }

  /** The name of every 32-byte digest is accepted, and gives the digest back. */
  lemma DigestRoundTrip(digest: seq<byte>)
    requires |digest| == 32
    ensures NameAccepted(RecoveryName(digest)) && DigestOf(RecoveryName(digest)) == digest
  {
    NameOfDigest(digest);
    UnpackOfSextets(digest);
    NameOfSextets(Sextets(digest));
  }

  lemma TailChars(name: string)
    requires NameAccepted(name)
    ensures name == PREFIX + Map(UrlChar, TailValues(name)) && Canonical(TailValues(name))
  {
    var s := TailValues(name);
    LastChar(name[59]);
    forall i | 0 <= i < 43 ensures UrlChar(s[i]) == name[17 + i] {
    }
    assert Map(UrlChar, s) == name[17..];
    assert name == name[..17] + name[17..];
  }

  /** And every accepted name is the name of exactly one 32-byte digest. */
  lemma NameRoundTrip(name: string)
    requires NameAccepted(name)
    ensures RecoveryName(DigestOf(name)) == name
    ensures forall d: seq<byte> :: |d| == 32 && RecoveryName(d) == name ==> d == DigestOf(name)
  {
    TailChars(name);
    SextetsOfUnpack(TailValues(name));
    NameOfDigest(DigestOf(name));
    forall d: seq<byte> | |d| == 32 && RecoveryName(d) == name ensures d == DigestOf(name) {
      DigestRoundTrip(d);
    }
  }

  /** The strings the storage key accepts are the names of 32-byte digests, and distinct digests get distinct keys. */
  lemma KeysAreDigests(name: string, digest: seq<byte>, other: seq<byte>)
    requires |digest| == 32 && |other| == 32
    ensures BuildRecoveryStorageKey(name).Some? <==> exists d: seq<byte> :: |d| == 32 && RecoveryName(d) == name
    ensures BuildRecoveryStorageKey(RecoveryName(digest)) == BuildRecoveryStorageKey(RecoveryName(other)) <==> digest == other
  {
    if NameAccepted(name) {
      NameRoundTrip(name);
    }
    forall d: seq<byte> | |d| == 32 ensures NameAccepted(RecoveryName(d)) {
      DigestRoundTrip(d);
    }
    DigestRoundTrip(digest);
    DigestRoundTrip(other);
    var n, m := RecoveryName(digest), RecoveryName(other);
    assert (KEY_PREFIX + n[17..])[17..] == n[17..] && (KEY_PREFIX + m[17..])[17..] == m[17..];
    assert n == PREFIX + n[17..] && m == PREFIX + m[17..];
  }
}
