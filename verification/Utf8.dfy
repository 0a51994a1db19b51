/**
  The UTF-8 check of the generated parsers against the encoding itself (section
  3 of RFC 3629): what passes is exactly the encodings of code point sequences.
 */
module Utf8 {
  import opened Basics
  import opened Varint

  /** Unicode scalar values: no surrogates. */
  predicate IsScalar(c: nat) {
    c < 0xD800 || 0xE000 <= c < 0x11_0000
  }

  /** One code point in one to four bytes, six bits in each after the first. */
  function EncodePoint(c: nat): (s: Text)
    requires IsScalar(c)
    ensures s != []
  {
    if c < 0x80 then [c]
    else if c < 0x800 then [0xC0 + c / 0x40, 0x80 + c % 0x40]
    else if c < 0x1_0000 then [0xE0 + c / 0x1000, 0x80 + c / 0x40 % 0x40, 0x80 + c % 0x40]
    else [0xF0 + c / 0x4_0000, 0x80 + c / 0x1000 % 0x40, 0x80 + c / 0x40 % 0x40, 0x80 + c % 0x40]
  }

  predicate AllScalars(cs: seq<nat>) {
    forall i | 0 <= i < |cs| :: IsScalar(cs[i])
  }

  function EncodePoints(cs: seq<nat>): Text
    requires AllScalars(cs)
  {
    if cs == [] then [] else EncodePoint(cs[0]) + EncodePoints(cs[1..])
  }

  /** The code point of a lead byte and its tail: `d` is what the lead byte carries. */
  function Point2(d: nat, x: nat): nat {
    0x40 * d + x
  }

  function Point3(d: nat, x: nat, y: nat): nat {
    0x40 * Point2(d, x) + y
  }

  function Point4(d: nat, x: nat, y: nat, z: nat): nat {
    0x40 * Point3(d, x, y) + z
  }

  lemma SixBits(c: nat, x: nat)
    requires x < 0x40
    ensures (0x40 * c + x) / 0x40 == c && (0x40 * c + x) % 0x40 == x
  {
  }

  lemma TwelveBits(d: nat, x: nat, y: nat)
    requires x < 0x40 && y < 0x40
    ensures Point3(d, x, y) / 0x1000 == d && Point3(d, x, y) / 0x40 % 0x40 == x && Point3(d, x, y) % 0x40 == y
  {
    SixBits(Point2(d, x), y);
    SixBits(d, x);
  }

  lemma EighteenBits(d: nat, x: nat, y: nat, z: nat)
    requires x < 0x40 && y < 0x40 && z < 0x40
    ensures var c := Point4(d, x, y, z);
            c / 0x4_0000 == d && c / 0x1000 % 0x40 == x && c / 0x40 % 0x40 == y && c % 0x40 == z
  {
    SixBits(Point3(d, x, y), z);
    TwelveBits(d, x, y);
  }

  lemma PointIsValid(c: nat, rest: Text)
    requires IsScalar(c)
    ensures ValidUtf8(EncodePoint(c) + rest) <==> ValidUtf8(rest)
  {
    if c < 0x800 { ShortPoint(c, rest); } else { LongPoint(c, rest); }
  }

  lemma ShortPoint(c: nat, rest: Text)
    requires c < 0x800
    ensures ValidUtf8(EncodePoint(c) + rest) <==> ValidUtf8(rest)
  {
    var s := EncodePoint(c) + rest;
    assert s[|EncodePoint(c)|..] == rest;
  }

  lemma LongPoint(c: nat, rest: Text)
    requires IsScalar(c) && c >= 0x800
    ensures ValidUtf8(EncodePoint(c) + rest) <==> ValidUtf8(rest)
  {
    var s := EncodePoint(c) + rest;
    assert s[|EncodePoint(c)|..] == rest;
  }

  /** A valid text starts with the encoding of a code point. */
  lemma FirstPoint(s: Text) returns (c: nat, n: nat)
    requires s != [] && ValidUtf8(s)
    ensures IsScalar(c) && 0 < n <= |s| && s[..n] == EncodePoint(c) && ValidUtf8(s[n..])
  {
    var lead: nat := s[0];
    if lead <= 0x7F {
      c, n := lead, 1;
    } else if lead <= 0xDF {
      n := 2;
      c := TwoBytes(s);
    } else if lead <= 0xEF {
      n := 3;
      c := ThreeBytes(s);
    } else {
      n := 4;
      c := FourBytes(s);
    }
  }

  lemma TwoBytes(s: Text) returns (c: nat)
    requires s != [] && ValidUtf8(s) && 0x7F < s[0] <= 0xDF
    ensures IsScalar(c) && 2 <= |s| && s[..2] == EncodePoint(c)
  {
    var d: nat, x: nat := s[0] as int - 0xC0, s[1] as int - 0x80;
    c := Point2(d, x);
    SixBits(d, x);
  }

  lemma ThreeBytes(s: Text) returns (c: nat)
    requires s != [] && ValidUtf8(s) && 0xDF < s[0] <= 0xEF
    ensures IsScalar(c) && 3 <= |s| && s[..3] == EncodePoint(c)
  {
    var d: nat, x: nat, y: nat := s[0] as int - 0xE0, s[1] as int - 0x80, s[2] as int - 0x80;
    c := Point3(d, x, y);
    TwelveBits(d, x, y);
  }

  lemma FourBytes(s: Text) returns (c: nat)
    requires s != [] && ValidUtf8(s) && 0xEF < s[0]
    ensures IsScalar(c) && 4 <= |s| && s[..4] == EncodePoint(c)
  {
    var d: nat, x: nat := s[0] as int - 0xF0, s[1] as int - 0x80;
    var y: nat, z: nat := s[2] as int - 0x80, s[3] as int - 0x80;
    c := Point4(d, x, y, z);
    EighteenBits(d, x, y, z);
  }

  lemma {:induction false} EncodedIsValid(cs: seq<nat>)
    requires AllScalars(cs)
    ensures ValidUtf8(EncodePoints(cs))
  {
    if cs == [] {
    } else {
      EncodedIsValid(cs[1..]);
      PointIsValid(cs[0], EncodePoints(cs[1..]));
    }
  }

  lemma {:induction false} Decoded(s: Text) returns (cs: seq<nat>)
    requires ValidUtf8(s)
    ensures AllScalars(cs) && EncodePoints(cs) == s
    decreases |s|
  {
    if s == [] {
      cs := [];
    } else {
      var c, n := FirstPoint(s);
      var rest := Decoded(s[n..]);
      cs := [c] + rest;
      assert cs[1..] == rest && s == s[..n] + s[n..];
    }
  }

  ghost predicate Encodes(cs: seq<nat>, s: Text) {
    AllScalars(cs) && EncodePoints(cs) == s
  }

  /** A text passes the check exactly if it encodes some code points. */
  lemma ValidExactly(s: Text)
    ensures ValidUtf8(s) <==> exists cs :: Encodes(cs, s)
  {
    if ValidUtf8(s) {
      var cs := Decoded(s);
      assert Encodes(cs, s);
    }
    if cs :| Encodes(cs, s) {
      EncodedIsValid(cs);
    }
  }
}
