/** The number of bytes a string takes in UTF-8, and the bytes themselves, by section 3 of RFC 3629. */
module Utf8 {
  import opened Bytes

  function Width(c: char): nat {
    if c < 0x80 as char then 1 else if c < 0x800 as char then 2 else if c as int < 0x1_0000 then 3 else 4
  }

  function Length(s: string): nat {
    if s == "" then 0 else Length(s[..|s| - 1]) + Width(s[|s| - 1])
  }

  /** A longer prefix takes more bytes, so a string and a byte count leave one place to cut. */
  lemma {:induction false} LongerIsMore(s: string, i: nat, j: nat)
    requires i < j <= |s|
    ensures Length(s[..i]) < Length(s[..j])
  {
    assert s[..j][..j - 1] == s[..j - 1];
    if i < j - 1 {
      LongerIsMore(s, i, j - 1);
    }
  }

  // ---- The bytes ----

  /** A continuation byte with six bits of the character. */
  ghost function Tail(n: nat): byte {
    0x80 + n % 64
  }

  /** The bytes of one character. */
  ghost function Encoded(c: char): (s: seq<byte>)
    ensures 1 <= |s| <= 4
  {
    var n := c as int;
    if n < 0x80 then [n]
    else if n < 0x800 then [0xC0 + n / 64, Tail(n)]
    else if n < 0x1_0000 then [0xE0 + n / 4096, Tail(n / 64), Tail(n)]
    else [0xF0 + n / 262144, Tail(n / 4096), Tail(n / 64), Tail(n)]
  }

  /** The length of a character by its first byte, and the character by its bytes. */
  ghost function LeadLength(lead: int): nat {
    if lead < 0x80 then 1 else if lead < 0xE0 then 2 else if lead < 0xF0 then 3 else 4
  }

  ghost function CodePoint(s: seq<int>): int
    requires s != [] && |s| == LeadLength(s[0])
  {
    if |s| == 1 then s[0]
    else if |s| == 2 then (s[0] - 0xC0) * 64 + (s[1] - 0x80)
    else if |s| == 3 then (s[0] - 0xE0) * 4096 + (s[1] - 0x80) * 64 + (s[2] - 0x80)
    else (s[0] - 0xF0) * 262144 + (s[1] - 0x80) * 4096 + (s[2] - 0x80) * 64 + (s[3] - 0x80)
  }

  /** A character takes as many bytes as counted, its first byte says so, and they read back as the character. */
  lemma EncodedReadsBack(c: char)
    ensures |Encoded(c)| == Width(c) == LeadLength(Encoded(c)[0])
    ensures CodePoint(Encoded(c)) == c as int
  {
    var n := c as int;
    assert n / 64 / 64 == n / 4096 && n / 4096 / 64 == n / 262144;
    assert n == n / 64 * 64 + n % 64 && n / 64 == n / 4096 * 64 + n / 64 % 64;
    assert n / 4096 == n / 262144 * 64 + n / 4096 % 64;
  }

  ghost function Encode(s: string): seq<byte> {
    if s == "" then [] else Encoded(s[0]) + Encode(s[1..])
  }

  lemma {:induction false} LengthFront(s: string)
    requires s != ""
    ensures Length(s) == Width(s[0]) + Length(s[1..])
  {
    if |s| == 1 {
      assert s[..0] == "" && s[1..] == "";
    } else {
      LengthFront(s[..|s| - 1]);
      assert s[..|s| - 1][1..] == s[1..][..|s| - 2];
    }
  }

  /** The count is the number of bytes of the encoding. */
  lemma {:induction false} LengthIsBytes(s: string)
    ensures |Encode(s)| == Length(s)
  {
    if s != "" {
      EncodedReadsBack(s[0]);
      LengthFront(s);
      LengthIsBytes(s[1..]);
    }
  }

  /** And no two strings have the same bytes. */
  lemma {:induction false} EncodeIsInjective(s: string, t: string)
    requires Encode(s) == Encode(t)
    ensures s == t
  {
    if s != "" && t != "" {
      EncodedReadsBack(s[0]);
      EncodedReadsBack(t[0]);
      assert Encode(s)[0] == Encoded(s[0])[0] && Encode(t)[0] == Encoded(t[0])[0];
      assert Encode(s)[..Width(s[0])] == Encoded(s[0]) && Encode(t)[..Width(t[0])] == Encoded(t[0]);
      assert Encode(s)[Width(s[0])..] == Encode(s[1..]) && Encode(t)[Width(t[0])..] == Encode(t[1..]);
      EncodeIsInjective(s[1..], t[1..]);
      assert s == [s[0]] + s[1..] && t == [t[0]] + t[1..];
    }
  }
}
