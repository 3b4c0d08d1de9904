/** The 64-bit Fletcher seal that heads every object block. */
module Fletcher {
  import opened Bytes

  const M: int := 0xFFFF_FFFF
  const WRAP: int := 0x1_0000_0000_0000_0000
  const BLOCK: nat := 4096

  type word = w: int | 0 <= w <= 0xFFFF_FFFF

  datatype Option64 = NotWords | Sealed(value: nat)

  /** A little-endian word of a byte buffer. */
  function WordAt(s: seq<byte>, at: nat): (w: word)
    requires at + 4 <= |s|
  {
    var b0: int, b1: int, b2: int, b3: int := s[at], s[at + 1], s[at + 2], s[at + 3];
    b0 + 256 * b1 + 65536 * b2 + 16777216 * b3
  }

  function Words(s: seq<byte>): (ws: seq<word>)
    ensures |ws| == |s| / 4
  {
    seq(|s| / 4, i requires 0 <= i < |s| / 4 => WordAt(s, 4 * i))
  }

  /** The plain sum of the words, and the sum of its running values, both unbounded. */
  ghost function Sum1(ws: seq<word>): nat {
    if ws == [] then 0 else Sum1(ws[..|ws| - 1]) + ws[|ws| - 1]
  }

  ghost function Sum2(ws: seq<word>): nat {
    if ws == [] then 0 else Sum2(ws[..|ws| - 1]) + Sum1(ws)
  }

  ghost function Low(ws: seq<word>): int {
    M - (Sum1(ws) + Sum2(ws)) % M
  }

  ghost function High(ws: seq<word>): int {
    M - (Sum1(ws) + Low(ws)) % M
  }

  ghost function Seal(ws: seq<word>): int {
    High(ws) * 0x1_0000_0000 + Low(ws)
  }

  /** Both sums vanish modulo 2^32 - 1. */
  ghost predicate Closes(ws: seq<word>) {
    Sum1(ws) % M == 0 && Sum2(ws) % M == 0
  }

  // ---- The 64-bit accumulators do not wrap ----

  /** Up to this many words every partial sum, and the last addition, stays below 2^64. */
  predicate Roomy(words: nat) {
    words * (words + 3) <= 2 * (M + 2)
  }

  lemma {:induction false} SumBounds(ws: seq<word>)
    ensures Sum1(ws) <= |ws| * M
    ensures 2 * Sum2(ws) <= |ws| * (|ws| + 1) * M
  {
    if ws != [] {
      var k := |ws| - 1;
      SumBounds(ws[..k]);
      assert 2 * Sum1(ws) <= 2 * (k + 1) * M by {
        assert k * M + M == (k + 1) * M;
      }
      assert k * (k + 1) * M + 2 * (k + 1) * M == (k + 1) * (k + 2) * M by {
        Factor(k, M);
      }
    }
  }

  lemma Factor(k: int, m: int)
    ensures k * (k + 1) * m + 2 * (k + 1) * m == (k + 1) * (k + 2) * m
  {
    assert k * (k + 1) + 2 * (k + 1) == (k + 1) * (k + 2);
    Distribute(k * (k + 1), 2 * (k + 1), m);
  }

  lemma Distribute(a: int, b: int, m: int)
    ensures a * m + b * m == (a + b) * m
  {
  }

  lemma RoomySums(ws: seq<word>)
    requires Roomy(|ws|)
    ensures Sum1(ws) + Sum2(ws) < WRAP
  {
    var k := |ws|;
    SumBounds(ws);
    assert 2 * (Sum1(ws) + Sum2(ws)) <= k * (k + 3) * M by {
      Distribute(2 * k, k * (k + 1), M);
      assert 2 * k + k * (k + 1) == k * (k + 3);
    }
    Scale(k * (k + 3), 2 * (M + 2), M);
  }

  lemma Scale(a: int, b: int, m: nat)
    requires a <= b
    ensures a * m <= b * m
  {
  }

  function AllOnes(k: nat): (ws: seq<word>)
    ensures |ws| == k
  {
    seq(k, _ => 0xFFFF_FFFF)
  }

  lemma {:induction false} AllOnesSums(k: nat)
    ensures Sum1(AllOnes(k)) == k * M
    ensures 2 * Sum2(AllOnes(k)) == k * (k + 1) * M
  {
    if k != 0 {
      AllOnesSums(k - 1);
      assert AllOnes(k)[..k - 1] == AllOnes(k - 1);
      assert (k - 1) * M + M == k * M;
      Factor(k - 1, M);
    }
  }

  const MAX_WORDS: nat := 92680

  lemma RoomLimit(k: nat)
    ensures Roomy(k) <==> k <= MAX_WORDS
  {
    if k <= MAX_WORDS {
      Scale(k, MAX_WORDS, k + 3);
      Scale(k + 3, MAX_WORDS + 3, MAX_WORDS);
    } else {
      Scale(MAX_WORDS + 1, k, k + 3);
      Scale(MAX_WORDS + 4, k + 3, MAX_WORDS + 1);
    }
  }

  /** The word count that cannot wrap is exact: one word more and a block of ones does. One 4096-byte block is far below it. */
  lemma RoomIsExact(k: nat)
    ensures Roomy(k) <==> forall ws: seq<word> :: |ws| == k ==> NoWrap(ws)
    ensures Roomy(k) <==> k <= MAX_WORDS
    ensures (BLOCK - 8) / 4 <= MAX_WORDS
  {
    RoomLimit(k);
    if Roomy(k) {
      forall ws: seq<word> | |ws| == k ensures NoWrap(ws) { RoomySums(ws); }
    } else {
      AllOnesSums(k);
      assert 2 * (Sum1(AllOnes(k)) + Sum2(AllOnes(k))) == k * (k + 3) * M by {
        Distribute(2 * k, k * (k + 1), M);
        assert 2 * k + k * (k + 1) == k * (k + 3);
      }
      assert k * (k + 3) >= 2 * (M + 2) + 1;
      EvenProduct(k);
      Scale(2 * (M + 2) + 2, k * (k + 3), M);
    }
  }

  lemma {:induction false} EvenProduct(k: nat)
    ensures k * (k + 3) % 2 == 0
  {
    if k != 0 {
      EvenProduct(k - 1);
      assert k * (k + 3) == (k - 1) * (k + 2) + 2 * (k + 1);
    }
  }

  /** The last addition, and with it every earlier one, stays below 2^64. */
  ghost predicate NoWrap(ws: seq<word>) {
    Sum1(ws) + Sum2(ws) < WRAP
  }

  lemma {:induction false} PrefixNoWrap(ws: seq<word>, i: nat)
    requires i <= |ws| && NoWrap(ws)
    ensures NoWrap(ws[..i])
  {
    if i == |ws| {
      assert ws[..i] == ws;
    } else {
      var n := |ws| - 1;
      PrefixNoWrap(ws[..n], i);
      assert ws[..n][..i] == ws[..i];
    }
  }

  /** The accumulators after the first i words, unless they may have wrapped. */
  ghost predicate Tracks(ws: seq<word>, i: nat, sum1: int, sum2: int)
    requires i <= |ws|
  {
    NoWrap(ws) ==> sum1 == Sum1(ws[..i]) && sum2 == Sum2(ws[..i])
  }

  lemma TrackStep(ws: seq<word>, i: nat, sum1: int, sum2: int)
    requires i < |ws| && Tracks(ws, i, sum1, sum2)
    ensures Tracks(ws, i + 1, (sum1 + ws[i]) % WRAP, (sum2 + (sum1 + ws[i]) % WRAP) % WRAP)
  {
    if NoWrap(ws) {
      assert ws[..i + 1][..i] == ws[..i];
      PrefixNoWrap(ws, i + 1);
    }
  }

  lemma TrackEnd(ws: seq<word>, sum1: int, sum2: int)
    requires Tracks(ws, |ws|, sum1, sum2) && NoWrap(ws)
    ensures M - (sum1 + sum2) % WRAP % M == Low(ws)
    ensures M - (sum1 + Low(ws)) % WRAP % M == High(ws)
  {
    assert ws[..|ws|] == ws;
    LastAddition(ws);
  }

  /** The checksum loop, in the machine's own 64-bit arithmetic. */
  method ComputeApfsObjectChecksum(bytes: seq<byte>) returns (r: Option64)
    ensures r.Sealed? <==> |bytes| % 4 == 0
    ensures r.Sealed? && NoWrap(Words(bytes)) ==> r.value == Seal(Words(bytes))
  {
    var sum1, sum2 := 0, 0;
    var offset := 0;
    ghost var ws, i := Words(bytes), 0;
    while offset < |bytes|
      invariant offset == 4 * i <= |bytes| && 0 <= sum1 && 0 <= sum2
      invariant i <= |ws| && Tracks(ws, i, sum1, sum2)
    {
      if offset + 4 > |bytes| {
        return NotWords;
      }
      TrackStep(ws, i, sum1, sum2);
      sum1 := (sum1 + WordAt(bytes, offset)) % WRAP;
      sum2 := (sum2 + sum1) % WRAP;
      offset, i := offset + 4, i + 1;
    }
    if NoWrap(ws) {
      TrackEnd(ws, sum1, sum2);
    }
    var low := M - (sum1 + sum2) % WRAP % M;
    var high := M - (sum1 + low) % WRAP % M;
    return Sealed(high * 0x1_0000_0000 + low);
  }

  lemma LastAddition(ws: seq<word>)
    requires NoWrap(ws)
    ensures Sum1(ws) + Low(ws) < WRAP
  {
    if ws != [] {
      assert Sum2(ws) >= Sum1(ws);
    }
  }

  // ---- What the seal is ----

  lemma SealWords(ws: seq<word>)
    ensures 1 <= Low(ws) <= M && 1 <= High(ws) <= M
    ensures 0 < Seal(ws) < WRAP
  {
  }

  ghost function WithSeal(ws: seq<word>, low: word, high: word): seq<word> {
    ws + [low] + [high]
  }

  lemma SumsWithSeal(ws: seq<word>, low: word, high: word)
    ensures Sum1(WithSeal(ws, low, high)) == Sum1(ws) + low + high
    ensures Sum2(WithSeal(ws, low, high)) == Sum2(ws) + (Sum1(ws) + low) + (Sum1(ws) + low + high)
  {
    assert (ws + [low])[..|ws|] == ws;
    assert (ws + [low] + [high])[..|ws| + 1] == ws + [low];
  }

  /**
   * Running the two sums on through the low and the high word leaves both at zero, and among
   * words that are not zero no other pair does that.
   */
  lemma SealClosesSums(ws: seq<word>, low: word, high: word)
    requires low != 0 && high != 0
    ensures Closes(WithSeal(ws, low, high)) <==> low == Low(ws) && high == High(ws)
  {
    SumsWithSeal(ws, low, high);
    var s1, s2 := Sum1(ws), Sum2(ws);
    assert Closes(WithSeal(ws, low, high)) <==> (s1 + low + high) % M == 0 && (s2 + (s1 + low) + (s1 + low + high)) % M == 0;
    AddMultiple(s2 + s1 + low, s1 + low + high);
    assert Closes(WithSeal(ws, low, high)) <==> (s1 + low + high) % M == 0 && (s2 + s1 + low) % M == 0;
    Complement(s1 + s2, low);
    Complement(s1 + low, high);
  }

  lemma AddMultiple(a: int, b: int)
    requires 0 <= a && 0 <= b
    ensures b % M == 0 ==> ((a + b) % M == 0 <==> a % M == 0)
  {
  }

  lemma Complement(a: int, w: word)
    requires 0 <= a && w != 0
    ensures (a + w) % M == 0 <==> w == M - a % M
  {
  }

  lemma SameSealSameSums(a: seq<word>, b: seq<word>)
    requires Low(a) == Low(b) && High(a) == High(b)
    ensures Sum1(a) % M == Sum1(b) % M && Sum2(a) % M == Sum2(b) % M
  {
    Complement(Sum1(a) + Low(a), High(a));
    Complement(Sum1(b) + Low(b), High(b));
    Cancel(Sum1(a), Sum1(b), Low(a) + High(a));
    Peel(Sum1(a), Sum1(b), Sum2(a), Sum2(b));
  }

  lemma SameSumsSameSeal(a: seq<word>, b: seq<word>)
    requires Sum1(a) % M == Sum1(b) % M && Sum2(a) % M == Sum2(b) % M
    ensures Low(a) == Low(b) && High(a) == High(b)
  {
    Add(Sum1(a), Sum1(b), Sum2(a), Sum2(b));
    Add(Sum1(a), Sum1(b), Low(a), Low(b));
  }

  /** Two word lists get the same seal exactly when both their sums agree modulo 2^32 - 1. */
  lemma SealsAgree(a: seq<word>, b: seq<word>)
    ensures Seal(a) == Seal(b) <==> Sum1(a) % M == Sum1(b) % M && Sum2(a) % M == Sum2(b) % M
  {
    SealWords(a);
    SealWords(b);
    if Low(a) == Low(b) && High(a) == High(b) {
      SameSealSameSums(a, b);
    } else if Sum1(a) % M == Sum1(b) % M && Sum2(a) % M == Sum2(b) % M {
      SameSumsSameSeal(a, b);
    }
  }

  lemma Add(a: int, b: int, c: int, d: int)
    requires a % M == b % M && c % M == d % M
    ensures (a + c) % M == (b + d) % M
  {
  }

  lemma Cancel(a: int, b: int, c: int)
    requires (a + c) % M == 0 && (b + c) % M == 0
    ensures a % M == b % M
  {
  }

  lemma Peel(a: int, b: int, c: int, d: int)
    requires a % M == b % M && (a + c) % M == (b + d) % M
    ensures c % M == d % M
  {
    Differ(a + c, b + d);
    Differ(a, b);
    Differ(c, d);
    assert (a + c - (b + d)) - (a - b) == c - d;
    Subtract(a + c - (b + d), a - b);
  }

  lemma Subtract(x: int, y: int)
    requires x % M == 0 && y % M == 0
    ensures (x - y) % M == 0
  {
  }

  // ---- What the seal detects ----

  lemma {:induction false} SumsOfChange(ws: seq<word>, i: nat, w: word)
    requires i < |ws|
    ensures Sum1(ws[i := w]) - Sum1(ws) == w - ws[i]
    ensures Sum2(ws[i := w]) - Sum2(ws) == (|ws| - i) * (w - ws[i])
  {
    var k := |ws| - 1;
    var vs := ws[i := w];
    if i == k {
      assert vs[..k] == ws[..k];
    } else {
      SumsOfChange(ws[..k], i, w);
      assert vs[..k] == ws[..k][i := w];
      Distribute(k - i, 1, w - ws[i]);
    }
  }

  /** One changed word keeps the seal only when it trades the two representations of zero. */
  lemma OneWordChange(ws: seq<word>, i: nat, w: word)
    requires i < |ws|
    ensures Seal(ws[i := w]) == Seal(ws) <==> (w - ws[i]) % M == 0
    ensures Seal(ws[i := w]) == Seal(ws) <==> w == ws[i] || {w, ws[i]} == {0, 0xFFFF_FFFF}
  {
    var vs, d, n := ws[i := w], w - ws[i], |ws| - i;
    SumsOfChange(ws, i, w);
    SealsAgree(vs, ws);
    Differ(Sum1(vs), Sum1(ws));
    Differ(Sum2(vs), Sum2(ws));
    if d % M == 0 {
      Multiple(n, d);
    }
    SmallMultiple(w, ws[i]);
  }

  lemma Differ(a: int, b: int)
    ensures a % M == b % M <==> (a - b) % M == 0
  {
  }

  lemma Multiple(n: int, d: int)
    requires d % M == 0
    ensures (n * d) % M == 0
  {
    var q := d / M;
    assert d == q * M;
    assert n * d == (n * q) * M;
    Whole(n * q);
  }

  lemma Whole(q: int)
    ensures (q * M) % M == 0
  {
  }

  lemma SmallMultiple(a: word, b: word)
    ensures (a - b) % M == 0 <==> a == b || (a == 0 && b == 0xFFFF_FFFF) || (b == 0 && a == 0xFFFF_FFFF)
    ensures {a, b} == {0, 0xFFFF_FFFF} <==> (a == 0 && b == 0xFFFF_FFFF) || (b == 0 && a == 0xFFFF_FFFF)
  {
    var s := {a, b};
    if s == {0, 0xFFFF_FFFF} {
      assert 0 in s && 0xFFFF_FFFF in s && a in s && b in s;
    }
  }

  /** Two neighbouring words trading places keep the seal only when they are the same word modulo 2^32 - 1. */
  lemma NeighboursSwapped(ws: seq<word>, i: nat)
    requires i + 1 < |ws|
    ensures Seal(ws[i := ws[i + 1]][i + 1 := ws[i]]) == Seal(ws) <==> (ws[i + 1] - ws[i]) % M == 0
  {
    var a, b := ws[i], ws[i + 1];
    var one := ws[i := b];
    var two := one[i + 1 := a];
    SumsOfChange(ws, i, b);
    SumsOfChange(one, i + 1, a);
    assert Sum1(two) == Sum1(ws);
    assert Sum2(two) - Sum2(ws) == b - a by {
      var n := |ws| - i - 1;
      Distribute(n, 1, b - a);
      assert n * (a - b) == -(n * (b - a));
    }
    SealsAgree(two, ws);
    Differ(Sum2(two), Sum2(ws));
  }

  // ---- The sealed block ----

  /** A block is well sealed when its first eight bytes hold the seal of the rest. */
  ghost predicate WellSealed(block: seq<byte>)
    requires |block| >= 8
  {
    FromLe(block[..8]) == Seal(Words(block[8..]))
  }

  method SealApfsBlock(block: array<byte>) returns (ok: bool)
    requires block.Length >= 8
    modifies block
    ensures ok <==> block.Length % 4 == 0
    ensures block[8..] == old(block[8..])
    ensures ok && Roomy((block.Length - 8) / 4) ==> block[..8] == ToLe(Seal(Words(block[8..])), 8)
    ensures ok && Roomy((block.Length - 8) / 4) ==> WellSealed(block[..])
    ensures !ok ==> block[..] == old(block[..])
  {
    ghost var was := block[..];
    var sum := ComputeApfsObjectChecksum(block[8..]);
    if sum.NotWords? {
      return false;
    }
    var written := Put(block, 0, ToLe(sum.value, 8));
    var seal := ToLe(sum.value, 8);
    assert block[..] == Splice(was, 0, seal);
    assert block[..] == seal + was[8..];
    assert block[8..] == was[8..] && block[..8] == seal;
    if Roomy((block.Length - 8) / 4) {
      RoomySums(Words(block[8..]));
      SealWords(Words(block[8..]));
      Widths();
      FromLeOfToLe(sum.value, 8);
      assert block[..][..8] == seal && block[..][8..] == block[8..];
    }
    return true;
  }

  /** A block whose stored seal was zeroed is never well sealed, whatever else it holds. */
  lemma ZeroedSealFails(block: seq<byte>)
    requires |block| >= 8
    ensures !WellSealed(Zeros(8) + block[8..])
  {
    var z := Zeros(8) + block[8..];
    assert z[..8] == Zeros(8);
    ZerosValue(8);
    SealWords(Words(z[8..]));
  }

  lemma {:induction false} ZerosValue(n: nat)
    ensures FromLe(Zeros(n)) == 0
  {
    if n != 0 {
      ZerosValue(n - 1);
      assert Zeros(n)[1..] == Zeros(n - 1);
    }
  }

  lemma FromLeWord(s: seq<byte>)
    requires |s| == 4
    ensures FromLe(s) == WordAt(s, 0)
  {
    var t := s[1..];
    var u := t[1..];
    var v := u[1..];
    assert v[1..] == [];
    assert FromLe(v) == v[0];
    assert FromLe(u) == u[0] + 256 * FromLe(v);
    assert FromLe(t) == t[0] + 256 * FromLe(u);
  }

  lemma {:induction false} FromLeSplit(s: seq<byte>, k: nat)
    requires k <= |s|
    ensures FromLe(s) == FromLe(s[..k]) + Pow256(k) * FromLe(s[k..])
  {
    if k == 0 {
      assert s[..0] == [] && s[0..] == s;
    } else {
      FromLeSplit(s[1..], k - 1);
      assert s[..k][1..] == s[1..][..k - 1] && s[k..] == s[1..][k - 1..];
      Regroup(Pow256(k - 1), FromLe(s[k..]));
    }
  }

  lemma Regroup(p: int, q: int)
    ensures 256 * (p * q) == 256 * p * q
  {
  }

  /**
   * A reader that runs the two sums over the data and then over the two stored words sees zeros,
   * with neither stored word zero, exactly when the block is well sealed.
   */
  lemma ReaderAgrees(block: seq<byte>)
    requires |block| >= 8
    ensures WellSealed(block) <==> (
        && WordAt(block, 0) != 0 && WordAt(block, 4) != 0
        && Closes(WithSeal(Words(block[8..]), WordAt(block, 0), WordAt(block, 4))))
  {
    var low, high, ws := WordAt(block, 0), WordAt(block, 4), Words(block[8..]);
    FromLeSplit(block[..8], 4);
    Widths();
    assert block[..8][..4] == block[..4] && block[..8][4..] == block[4..8];
    FromLeWord(block[..4]);
    FromLeWord(block[4..8]);
    var l: int, h: int := low, high;
    assert FromLe(block[..8]) == l + 0x1_0000_0000 * h;
    SealWords(ws);
    if low != 0 && high != 0 {
      SealClosesSums(ws, low, high);
    }
  }

  /** A well sealed block stops being one after any single-word change outside its seal, short of a zero for a zero. */
  lemma DamageShows(block: seq<byte>, damaged: seq<byte>, i: nat)
    requires |block| >= 8 && |damaged| == |block| && damaged[..8] == block[..8]
    requires i < (|block| - 8) / 4
    requires forall j :: 0 <= j < (|block| - 8) / 4 && j != i ==> WordAt(damaged, 8 + 4 * j) == WordAt(block, 8 + 4 * j)
    requires WellSealed(block)
    ensures WellSealed(damaged) <==> (WordAt(damaged, 8 + 4 * i) - WordAt(block, 8 + 4 * i)) % M == 0
  {
    var vs, ws := Words(damaged[8..]), Words(block[8..]);
    forall j | 0 <= j < |ws|
      ensures vs[j] == WordAt(damaged, 8 + 4 * j) && ws[j] == WordAt(block, 8 + 4 * j)
    {
    }
    assert vs == ws[i := vs[i]];
    OneWordChange(ws, i, vs[i]);
  }
}
