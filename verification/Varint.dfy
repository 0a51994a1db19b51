/**
  Base 128 varints and the integers they carry (Protocol Buffers Encoding
  guide, section "Base 128 Varints"), and the UTF-8 check that the generated
  parsers apply to string fields (section 4 of RFC 3629).
 */
module Varint {
  import opened Basics

  const MAX_VARINT_BYTES := 10

  function Encode(v: nat): (s: seq<Byte>)
    ensures |s| >= 1
  {
    if v < 128 then [v] else [128 + v % 128] + Encode(v / 128)
  }

  function Size(v: nat): nat {
    if v < 128 then 1 else 1 + Size(v / 128)
  }

  /** Value and byte count of a varint of at most `budget` bytes. */
  function Read(bs: seq<Byte>, budget: nat): (r: Option<(nat, nat)>)
    ensures r.Some? ==> 1 <= r.value.1 <= |bs|
    decreases budget
  {
    if bs == [] || budget == 0 then None
    else if bs[0] < 128 then Some((bs[0], 1))
    else match Read(bs[1..], budget - 1)
      case None => None
      case Some(r) => Some((bs[0] - 128 + 128 * r.0, r.1 + 1))
  }

  function Pow128(n: nat): nat {
    if n == 0 then 1 else 128 * Pow128(n - 1)
  }

  lemma {:induction false} ReadEncode(v: nat, budget: nat, rest: seq<Byte>)
    requires v < Pow128(budget) && budget > 0
    ensures Read(Encode(v) + rest, budget) == Some((v, |Encode(v)|))
  {
    if v < 128 {
    } else {
      var bs := Encode(v) + rest;
      assert Pow128(budget) == 128 * Pow128(budget - 1);
      assert bs[0] == 128 + v % 128;
      assert bs[1..] == Encode(v / 128) + rest;
      ReadEncode(v / 128, budget - 1, rest);
    }
  }

  lemma TenBytesSuffice()
    ensures TWO_64 <= Pow128(MAX_VARINT_BYTES)
  {
    assert Pow128(4) == 0x1000_0000;
    assert Pow128(7) == 128 * 128 * 128 * Pow128(4);
    assert Pow128(10) == 128 * 128 * 128 * Pow128(7);
  }

  /** Every 64-bit value survives, whatever follows it. */
  lemma RoundTrip(v: nat, rest: seq<Byte>)
    requires v < TWO_64
    ensures Read(Encode(v) + rest, MAX_VARINT_BYTES) == Some((v, |Encode(v)|))
  {
    TenBytesSuffice();
    ReadEncode(v, MAX_VARINT_BYTES, rest);
  }

  lemma {:induction false} SizeIsLength(v: nat)
    ensures |Encode(v)| == Size(v)
  {
    if v < 128 {
    } else {
      SizeIsLength(v / 128);
    }
  }

  // ----- signed integers ------------------------------------------------------------

  /** int32, int64 and enum values are written sign-extended to 64 bits. */
  function Unsigned(n: int): (u: nat)
    requires -0x8000_0000_0000_0000 <= n < 0x8000_0000_0000_0000
    ensures u < TWO_64
  {
    if n < 0 then n + TWO_64 else n
  }

  function Signed32(v: nat): (n: int)
    ensures MIN_INT <= n <= MAX_INT
  {
    var u := v % TWO_32;
    if u > MAX_INT then u - TWO_32 else u
  }

  function Signed64(v: nat): (n: int)
    ensures -0x8000_0000_0000_0000 <= n < 0x8000_0000_0000_0000
  {
    var u := v % TWO_64;
    if u >= 0x8000_0000_0000_0000 then u - TWO_64 else u
  }

  lemma SignedUnsigned(n: int)
    requires -0x8000_0000_0000_0000 <= n < 0x8000_0000_0000_0000
    ensures Signed64(Unsigned(n)) == n
    ensures MIN_INT <= n <= MAX_INT ==> Signed32(Unsigned(n)) == n
  {
    assert TWO_64 == TWO_32 * TWO_32;
    if MIN_INT <= n < 0 {
      assert Unsigned(n) == (n + TWO_32) + TWO_32 * (TWO_32 - 1);
      assert Unsigned(n) % TWO_32 == n + TWO_32;
    }
  }

  /** A longer varint is cut to the width of its field, as a C++ cast cuts it. */
  lemma CutToWidth(v: nat)
    ensures Signed32(v) % TWO_32 == v % TWO_32 && Signed64(v) % TWO_64 == v % TWO_64
  {
    var u, w := v % TWO_32, v % TWO_64;
    assert (u - TWO_32) % TWO_32 == u && (w - TWO_64) % TWO_64 == w;
  }

  /** The guide's own example: low bits first, and a flag on every byte but the last. */
  lemma ThreeHundred()
    ensures Encode(300) == [172, 2] && Read([172, 2], MAX_VARINT_BYTES) == Some((300, 2))
  {
    assert Encode(2) == [2];
    ReadEncode(300, MAX_VARINT_BYTES, []) by { TenBytesSuffice(); }
    assert [172, 2] + [] == Encode(300) + [];
  }

  /** A negative number always takes ten bytes, so its field takes eleven. */
  lemma NegativesTakeTenBytes(n: int)
    requires -0x8000_0000_0000_0000 <= n < 0
    ensures Size(Unsigned(n)) == MAX_VARINT_BYTES
  {
    TenBytesSuffice();
    assert Pow128(9) == 0x8000_0000_0000_0000 by {
      assert Pow128(3) == 0x20_0000;
      assert Pow128(6) == 128 * 128 * 128 * Pow128(3);
    }
    SizeFromPower(Unsigned(n), 9);
  }

  lemma {:induction false} SizeFromPower(v: nat, k: nat)
    requires Pow128(k) <= v < Pow128(k + 1)
    ensures Size(v) == k + 1
  {
    if k > 0 {
      assert v / 128 >= Pow128(k - 1);
      SizeFromPower(v / 128, k - 1);
      assert Pow128(k) >= 128 by { PowAtLeast(k - 1); }
    }
  }

  lemma {:induction false} PowAtLeast(k: nat)
    ensures Pow128(k) >= 1
  {
    if k > 0 { PowAtLeast(k - 1); }
  }

  // ----- UTF-8 -------------------------------------------------------------------------

  predicate Tail(b: Byte) {
    0x80 <= b <= 0xBF
  }

  predicate ValidUtf8(s: Text) {
    if s == [] then true
    else if s[0] <= 0x7F then ValidUtf8(s[1..])
    else if 0xC2 <= s[0] <= 0xDF then |s| >= 2 && Tail(s[1]) && ValidUtf8(s[2..])
    else if 0xE0 <= s[0] <= 0xEF then
      && |s| >= 3 && Tail(s[1]) && Tail(s[2])
      && (s[0] == 0xE0 ==> s[1] >= 0xA0) && (s[0] == 0xED ==> s[1] <= 0x9F)
      && ValidUtf8(s[3..])
    else if 0xF0 <= s[0] <= 0xF4 then
      && |s| >= 4 && Tail(s[1]) && Tail(s[2]) && Tail(s[3])
      && (s[0] == 0xF0 ==> s[1] >= 0x90) && (s[0] == 0xF4 ==> s[1] <= 0x8F)
      && ValidUtf8(s[4..])
    else false
  }
}
