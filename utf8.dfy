/**
 * UTF-8 for `String.getBytes` and `new String(bytes, UTF_8)`: encoding covers
 * every character, and decoding puts one U+FFFD in place of each maximal
 * ill-formed subpart (Unicode, section 3.9). The JDK can differ on encoded
 * surrogates.
 */
module Utf8 {
  import opened Bytes

  const Replacement: char := 0xFFFD as char

  /** The encoding of one character: one to four bytes by code point range. */
  function EncodeChar(c: char): (r: seq<byte>)
    ensures 1 <= |r| <= 4
    ensures (c as int < 0x80) <==> |r| == 1
  {
    var cp := c as int;
    if cp < 0x80 then [cp]
    else if cp < 0x800 then [0xC0 + cp / 64, 0x80 + cp % 64]
    else if cp < 0x10000 then [0xE0 + cp / 4096, 0x80 + (cp / 64) % 64, 0x80 + cp % 64]
    else [0xF0 + cp / 262144, 0x80 + (cp / 4096) % 64, 0x80 + (cp / 64) % 64, 0x80 + cp % 64]
  }

  /** `s.getBytes(StandardCharsets.UTF_8)` */
  function Encode(s: string): seq<byte>
    decreases |s|
  {
    if s == [] then [] else EncodeChar(s[0]) + Encode(s[1..])
  }

  /** `s.getBytes(StandardCharsets.UTF_8).length` */
  function Utf8Length(s: string): nat {
    |Encode(s)|
  }

  /** Length of the well-formed sequence a lead byte starts, 0 for a byte that cannot lead. */
  function Expected(lead: byte): nat {
    if lead < 0x80 then 1
    else if 0xC2 <= lead <= 0xDF then 2
    else if 0xE0 <= lead <= 0xEF then 3
    else if 0xF0 <= lead <= 0xF4 then 4
    else 0
  }

  /** Bounds of the second byte after a lead byte (Unicode, table 3-7). */
  function SecondLow(lead: byte): byte {
    if lead == 0xE0 then 0xA0 else if lead == 0xF0 then 0x90 else 0x80
  }

  function SecondHigh(lead: byte): byte {
    if lead == 0xED then 0x9F else if lead == 0xF4 then 0x8F else 0xBF
  }

  predicate IsContinuation(b: byte) {
    0x80 <= b <= 0xBF
  }

  /**
   * How many bytes at the start of `bs` begin a well-formed sequence: the
   * whole sequence when it is complete, otherwise its maximal subpart.
   */
  function Matched(bs: seq<byte>): (m: nat)
    requires |bs| >= 1
    ensures m <= Expected(bs[0]) && m <= |bs|
  {
    var n := Expected(bs[0]);
    if n <= 1 then n
    else if |bs| < 2 || !(SecondLow(bs[0]) <= bs[1] <= SecondHigh(bs[0])) then 1
    else if n == 2 then 2
    else if |bs| < 3 || !IsContinuation(bs[2]) then 2
    else if n == 3 then 3
    else if |bs| < 4 || !IsContinuation(bs[3]) then 3
    else 4
  }

  /** The scalar value a complete well-formed sequence stands for. */
  function CodePoint(bs: seq<byte>): (cp: int)
    requires |bs| >= 1 && Expected(bs[0]) >= 1 && Matched(bs) == Expected(bs[0])
    ensures 0 <= cp < 0xD800 || 0xE000 <= cp < 0x110000
  {
    var n := Expected(bs[0]);
    var b0 := bs[0] as int;
    if n == 1 then b0
    else if n == 2 then (b0 - 0xC0) * 64 + (bs[1] as int - 0x80)
    else if n == 3 then (b0 - 0xE0) * 4096 + (bs[1] as int - 0x80) * 64 + (bs[2] as int - 0x80)
    else (b0 - 0xF0) * 262144 + (bs[1] as int - 0x80) * 4096 + (bs[2] as int - 0x80) * 64 + (bs[3] as int - 0x80)
  }

  /** `new String(bs, StandardCharsets.UTF_8)` */
  function Decode(bs: seq<byte>): string
    decreases |bs|
  {
    if bs == [] then []
    else
      var n := Expected(bs[0]);
      var m := Matched(bs);
      if n >= 1 && m == n then [CodePoint(bs) as char] + Decode(bs[n..])
      else [Replacement] + Decode(bs[if m == 0 then 1 else m..])
  }

  // ---------------------------------------------------------------------------
  // Properties

  lemma TwoByteSplit(cp: int)
    requires 0x80 <= cp < 0x800
    ensures 0xC2 <= 0xC0 + cp / 64 <= 0xDF && 0 <= cp % 64 < 64
    ensures (cp / 64) * 64 + cp % 64 == cp
  {
  }

  lemma ThreeByteSplit(cp: int)
    requires 0x800 <= cp < 0x10000
    ensures 0 <= cp / 4096 < 16 && 0 <= (cp / 64) % 64 < 64 && 0 <= cp % 64 < 64
    ensures cp / 4096 == 0 ==> (cp / 64) % 64 >= 0x20
    ensures (cp / 4096) * 4096 + ((cp / 64) % 64) * 64 + cp % 64 == cp
  {
    var q := cp / 64;
    assert q / 64 == cp / 4096;
    assert cp == q * 64 + cp % 64;
    assert q == (q / 64) * 64 + q % 64;
  }

  lemma FourByteSplit(cp: int)
    requires 0x10000 <= cp < 0x110000
    ensures 1 <= cp / 262144 <= 4 || (cp / 262144 == 0 && (cp / 4096) % 64 >= 0x10)
    ensures cp / 262144 == 4 ==> (cp / 4096) % 64 < 0x10
    ensures 0 <= (cp / 4096) % 64 < 64 && 0 <= (cp / 64) % 64 < 64 && 0 <= cp % 64 < 64
    ensures (cp / 262144) * 262144 + ((cp / 4096) % 64) * 4096 + ((cp / 64) % 64) * 64 + cp % 64 == cp
  {
    var q := cp / 64;
    var r := q / 64;
    assert r == cp / 4096;
    assert r / 64 == cp / 262144;
    assert cp == q * 64 + cp % 64;
    assert q == r * 64 + q % 64;
    assert r == (r / 64) * 64 + r % 64;
  }

  lemma EncodeCharDecodes(c: char, rest: seq<byte>)
    ensures var bs := EncodeChar(c) + rest;
            Expected(bs[0]) == |EncodeChar(c)| && Matched(bs) == |EncodeChar(c)| && CodePoint(bs) == c as int
  {
    var cp := c as int;
    var e := EncodeChar(c);
    var bs := e + rest;
    assert bs[..|e|] == e;
    if cp < 0x80 {
    } else if cp < 0x800 {
      TwoByteSplit(cp);
      assert bs[0] == 0xC0 + cp / 64 && bs[1] == 0x80 + cp % 64;
    } else if cp < 0x10000 {
      ThreeByteSplit(cp);
      assert bs[0] == 0xE0 + cp / 4096 && bs[1] == 0x80 + (cp / 64) % 64 && bs[2] == 0x80 + cp % 64;
    } else {
      FourByteSplit(cp);
      assert bs[0] == 0xF0 + cp / 262144 && bs[1] == 0x80 + (cp / 4096) % 64;
      assert bs[2] == 0x80 + (cp / 64) % 64 && bs[3] == 0x80 + cp % 64;
    }
  }

  /** Decoding undoes encoding. */
  lemma {:induction false} DecodeEncode(s: string)
    ensures Decode(Encode(s)) == s
    decreases |s|
  {
    if s != [] {
      var e := EncodeChar(s[0]);
      var bs := Encode(s);
      assert bs == e + Encode(s[1..]);
      EncodeCharDecodes(s[0], Encode(s[1..]));
      assert bs[|e|..] == Encode(s[1..]);
      DecodeEncode(s[1..]);
    }
  }

  /** ASCII text is one byte per character; nothing needs more than four. */
  lemma {:induction false} Utf8LengthBounds(s: string)
    ensures |s| <= Utf8Length(s) <= 4 * |s|
    ensures (forall i :: 0 <= i < |s| ==> s[i] as int < 0x80) ==> Utf8Length(s) == |s|
    decreases |s|
  {
    if s != [] {
      Utf8LengthBounds(s[1..]);
      assert forall i :: 1 <= i < |s| ==> s[1..][i - 1] == s[i];
    }
  }

  /** A stray byte, a truncated sequence and an overlong encoding are each replaced. */
  lemma ReplacementExamples()
    ensures Decode([0xFF]) == [Replacement]
    ensures Decode([0xE2, 0x82]) == [Replacement]
    ensures Decode([0xC0, 0x80]) == [Replacement, Replacement]
    ensures Decode([0x61, 0xED, 0xA0, 0x80]) == ['a', Replacement, Replacement, Replacement]
  {
    assert [0xE2, 0x82][2..] == [];
    assert [0xC0, 0x80][1..] == [0x80];
    assert [0x80][1..] == [];
    var t := [0x61, 0xED, 0xA0, 0x80];
    assert t[1..] == [0xED, 0xA0, 0x80];
    assert t[1..][1..] == [0xA0, 0x80];
    assert t[1..][1..][1..] == [0x80];
  }
}
