/** Bytes and the little-endian integers the encoders store in them. */
module Bytes {
  type byte = b: int | 0 <= b < 256

  function Pow256(n: nat): (p: nat)
    ensures p > 0
  {
    if n == 0 then 1 else 256 * Pow256(n - 1)
  }

  function ToLe(v: nat, width: nat): (s: seq<byte>)
    ensures |s| == width
  {
    if width == 0 then [] else [v % 256] + ToLe(v / 256, width - 1)
  }

  function FromLe(s: seq<byte>): nat {
    if s == [] then 0 else s[0] + 256 * FromLe(s[1..])
  }

  lemma {:induction false} FromLeOfToLe(v: nat, width: nat)
    requires v < Pow256(width)
    ensures FromLe(ToLe(v, width)) == v
  {
    if width != 0 {
      FromLeOfToLe(v / 256, width - 1);
      assert ToLe(v, width)[1..] == ToLe(v / 256, width - 1);
    }
  }

  lemma FirstByte(b: byte, rest: nat, bound: nat)
    ensures (b + 256 * rest) % 256 == b && (b + 256 * rest) / 256 == rest
    ensures rest < bound ==> b + 256 * rest < 256 * bound
  {
  }

  lemma {:induction false} ToLeOfFromLe(s: seq<byte>)
    ensures FromLe(s) < Pow256(|s|)
    ensures ToLe(FromLe(s), |s|) == s
  {
    if s != [] {
      ToLeOfFromLe(s[1..]);
      FirstByte(s[0], FromLe(s[1..]), Pow256(|s| - 1));
      assert s == [s[0]] + s[1..];
    }
  }

  lemma Widths()
    ensures Pow256(2) == 0x1_0000
    ensures Pow256(4) == 0x1_0000_0000
    ensures Pow256(8) == 0x1_0000_0000_0000_0000
  {
    assert Pow256(4) == 256 * 256 * Pow256(2);
    assert Pow256(8) == 256 * 256 * Pow256(6);
    assert Pow256(6) == 256 * 256 * Pow256(4);
  }

  function Zeros(n: nat): (s: seq<byte>)
    ensures |s| == n
  {
    seq(n, _ => 0)
  }

  /** The sequence s with the bytes at `at` overwritten by d. */
  function Splice(s: seq<byte>, at: nat, d: seq<byte>): (r: seq<byte>)
    requires at + |d| <= |s|
    ensures |r| == |s|
  {
    s[..at] + d + s[at + |d|..]
  }

  predicate Open(s: seq<byte>, at: int, d: seq<byte>, gate: int) {
    true
  }

  /** The bytes d stand at `at`; proofs that look inside ask for it with Open or HasBytes. */
  ghost predicate Has(s: seq<byte>, at: int, d: seq<byte>) {
    forall gate: int {:trigger Open(s, at, d, gate)} ::
      Open(s, at, d, gate) ==> 0 <= at && at + |d| <= |s| && s[at..at + |d|] == d
  }

  lemma HasBytes(s: seq<byte>, at: int, d: seq<byte>)
    ensures Has(s, at, d) <==> 0 <= at && at + |d| <= |s| && s[at..at + |d|] == d
  {
    assert Open(s, at, d, 0);
  }

  /** The two buffers differ at most in the bytes from lo to hi. */
  ghost predicate Framed(s: seq<byte>, t: seq<byte>, lo: int, hi: int) {
    |s| == |t| && 0 <= lo <= hi <= |s| && s[..lo] == t[..lo] && s[hi..] == t[hi..]
  }

  lemma FramedHas(s: seq<byte>, t: seq<byte>, lo: int, hi: int, x: int, e: seq<byte>)
    requires Framed(s, t, lo, hi) && Has(s, x, e) && (x + |e| <= lo || hi <= x)
    ensures Has(t, x, e)
  {
    HasBytes(s, x, e);
    HasBytes(t, x, e);
    forall k | x <= k < x + |e| ensures t[k] == s[k] {
      if k < lo {
        assert t[..lo][k] == s[..lo][k];
      } else {
        assert t[hi..][k - hi] == s[hi..][k - hi];
      }
    }
    assert t[x..x + |e|] == s[x..x + |e|];
  }

  lemma FramedAll(s: seq<byte>, t: seq<byte>, lo: int, hi: int)
    requires Framed(s, t, lo, hi)
    ensures forall x: int, e: seq<byte> {:trigger Has(t, x, e)} :: Has(s, x, e) && (x + |e| <= lo || hi <= x) ==> Has(t, x, e)
  {
    forall x: int, e: seq<byte> {:trigger Has(t, x, e)} | Has(s, x, e) && (x + |e| <= lo || hi <= x) ensures Has(t, x, e) {
      FramedHas(s, t, lo, hi, x, e);
    }
  }

  lemma FramedTwice(s: seq<byte>, t: seq<byte>, u: seq<byte>, lo: int, hi: int, lo2: int, hi2: int, lo3: int, hi3: int)
    requires Framed(s, t, lo, hi) && Framed(t, u, lo2, hi2) && 0 <= lo3 <= lo && lo3 <= lo2 && hi <= hi3 && hi2 <= hi3 <= |s|
    ensures Framed(s, u, lo3, hi3)
  {
    assert s[..lo3] == s[..lo][..lo3] && t[..lo3] == t[..lo][..lo3] && t[..lo3] == t[..lo2][..lo3] && u[..lo3] == u[..lo2][..lo3];
    assert s[hi3..] == s[hi..][hi3 - hi..] && t[hi3..] == t[hi..][hi3 - hi..];
    assert t[hi3..] == t[hi2..][hi3 - hi2..] && u[hi3..] == u[hi2..][hi3 - hi2..];
  }

  lemma HasConcat(s: seq<byte>, at: int, d: seq<byte>, e: seq<byte>)
    ensures Has(s, at, d + e) <==> Has(s, at, d) && Has(s, at + |d|, e)
  {
    HasBytes(s, at, d + e);
    HasBytes(s, at, d);
    HasBytes(s, at + |d|, e);
    if 0 <= at && at + |d| + |e| <= |s| {
      assert s[at..at + |d| + |e|] == s[at..at + |d|] + s[at + |d|..at + |d| + |e|];
      assert (d + e)[..|d|] == d && (d + e)[|d|..] == e;
      if Has(s, at, d + e) {
        assert s[at..at + |d|] == (d + e)[..|d|];
        assert s[at + |d|..at + |d| + |e|] == (d + e)[|d|..];
      }
    }
  }

  lemma HasWithin(s: seq<byte>, at: int, d: seq<byte>, x: int, e: seq<byte>)
    requires Has(s, at, d) && Has(d, x, e)
    ensures Has(s, at + x, e)
  {
    HasBytes(s, at, d);
    HasBytes(d, x, e);
    forall k | 0 <= k < |e| ensures s[at + x + k] == e[k] {
      assert d[x..x + |e|][k] == d[x + k] == s[at..at + |d|][x + k];
    }
  }

  /** Copies d into the buffer, or refuses when it would run past either end. */
  method Put(a: array<byte>, at: int, d: seq<byte>) returns (ok: bool)
    modifies a
    ensures ok <==> 0 <= at && at + |d| <= a.Length
    ensures ok ==> a[..] == Splice(old(a[..]), at, d)
    ensures ok ==> Has(a[..], at, d)
    ensures ok ==> Framed(old(a[..]), a[..], at, at + |d|)
    ensures !ok ==> a[..] == old(a[..])
  {
    if at < 0 || at + |d| > a.Length {
      return false;
    }
    ghost var was := a[..];
    for i := 0 to |d|
      invariant a[at..at + i] == d[..i]
      invariant a[..at] == was[..at] && a[at + i..] == was[at + i..]
    {
      a[at + i] := d[i];
    }
    assert a[..] == a[..at] + a[at..at + |d|] + a[at + |d|..];
    assert a[..] == Splice(was, at, d);
    assert a[..][at..at + |d|] == d;
    HasBytes(a[..], at, d);
    return true;
  }
}
