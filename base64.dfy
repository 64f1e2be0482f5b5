/**
 * Base64 over the alphabet of section 4 of RFC 4648, as java.util.Base64's
 * basic encoder and decoder apply it. The decoder accepts input with or
 * without padding, rejects every character outside the alphabet, rejects
 * anything after the padding, and does not check the unused low bits of the
 * last unit.
 */
module Base64 {
  import opened Wrappers
  import opened Bytes

  /** Why `Base64.getDecoder().decode` throws IllegalArgumentException. */
  datatype DecodeError =
    | TooShort            // "Input byte[] should at least have 2 bytes for base64 bytes"
    | IllegalCharacter    // "Illegal base64 character"
    | WrongEnding         // "Input byte array has wrong 4-byte ending unit"
    | NotEnoughBits       // "Last unit does not have enough valid bits"
    | IncorrectEndingByte // "Input byte array has incorrect ending byte"

  /** The value of an alphabet character, or -1. */
  function SextetOf(c: char): (v: int)
    ensures -1 <= v < 64
  {
    if 'A' <= c <= 'Z' then c as int - 'A' as int
    else if 'a' <= c <= 'z' then 26 + (c as int - 'a' as int)
    else if '0' <= c <= '9' then 52 + (c as int - '0' as int)
    else if c == '+' then 62
    else if c == '/' then 63
    else -1
  }

  /** The alphabet character of a six-bit value. */
  function CharOf(v: int): (c: char)
    requires 0 <= v < 64
    ensures SextetOf(c) == v && c != '='
  {
    if v < 26 then ('A' as int + v) as char
    else if v < 52 then ('a' as int + (v - 26)) as char
    else if v < 62 then ('0' as int + (v - 52)) as char
    else if v == 62 then '+'
    else '/'
  }

  function Byte1(a: int, b: int): byte
    requires 0 <= a < 64 && 0 <= b < 64
  {
    a * 4 + b / 16
  }

  function Byte2(b: int, c: int): byte
    requires 0 <= b < 64 && 0 <= c < 64
  {
    (b % 16) * 16 + c / 4
  }

  function Byte3(c: int, d: int): byte
    requires 0 <= c < 64 && 0 <= d < 64
  {
    (c % 4) * 64 + d
  }

  /** `Base64.getDecoder().decode(s)` */
  function Decode(s: string): Result<seq<byte>, DecodeError> {
    if |s| == 0 then Ok([])
    else if |s| < 2 then Err(TooShort)
    else DecodeUnits(s)
  }

  /** The decoding loop, one four-character unit at a time. */
  function DecodeUnits(r: string): Result<seq<byte>, DecodeError>
    decreases |r|
  {
    if r == [] then Ok([])
    else if r[0] == '=' then Err(WrongEnding)
    else if SextetOf(r[0]) < 0 then Err(IllegalCharacter)
    else if |r| == 1 || r[1] == '=' then Err(NotEnoughBits)
    else if SextetOf(r[1]) < 0 then Err(IllegalCharacter)
    else
      var a := SextetOf(r[0]);
      var b := SextetOf(r[1]);
      if |r| == 2 then Ok([Byte1(a, b)])
      else if r[2] == '=' then
        if |r| == 3 || r[3] != '=' then Err(WrongEnding)
        else if |r| > 4 then Err(IncorrectEndingByte)
        else Ok([Byte1(a, b)])
      else if SextetOf(r[2]) < 0 then Err(IllegalCharacter)
      else
        var c := SextetOf(r[2]);
        if |r| == 3 then Ok([Byte1(a, b), Byte2(b, c)])
        else if r[3] == '=' then
          if |r| > 4 then Err(IncorrectEndingByte) else Ok([Byte1(a, b), Byte2(b, c)])
        else if SextetOf(r[3]) < 0 then Err(IllegalCharacter)
        else
          var d := SextetOf(r[3]);
          match DecodeUnits(r[4..])
          case Ok(rest) => Ok([Byte1(a, b), Byte2(b, c), Byte3(c, d)] + rest)
          case Err(e) => Err(e)
  }

  /** `Base64.getEncoder().encodeToString(bs)`: padded to a multiple of four characters. */
  function Encode(bs: seq<byte>): (s: string)
    ensures |s| % 4 == 0
    ensures bs != [] ==> |s| >= 4
    decreases |bs|
  {
    if bs == [] then []
    else if |bs| == 1 then [CharOf(bs[0] / 4), CharOf((bs[0] % 4) * 16), '=', '=']
    else if |bs| == 2 then [CharOf(bs[0] / 4), CharOf((bs[0] % 4) * 16 + bs[1] / 16), CharOf((bs[1] % 16) * 4), '=']
    else [CharOf(bs[0] / 4), CharOf((bs[0] % 4) * 16 + bs[1] / 16), CharOf((bs[1] % 16) * 4 + bs[2] / 64), CharOf(bs[2] % 64)] + Encode(bs[3..])
  }

  // ---------------------------------------------------------------------------
  // Properties

  lemma ByteSplits(x: byte, y: byte, z: byte)
    ensures Byte1(x / 4, (x % 4) * 16 + y / 16) == x
    ensures Byte1(x / 4, (x % 4) * 16) == x
    ensures Byte2((x % 4) * 16 + y / 16, (y % 16) * 4 + z / 64) == y
    ensures Byte2((x % 4) * 16 + y / 16, (y % 16) * 4) == y
    ensures Byte3((y % 16) * 4 + z / 64, z % 64) == z
  {
  }

  /** Every character the encoder writes is in the alphabet or is padding. */
  lemma {:induction false} EncodeAlphabet(bs: seq<byte>)
    ensures forall i :: 0 <= i < |Encode(bs)| ==> Encode(bs)[i] == '=' || SextetOf(Encode(bs)[i]) >= 0
    decreases |bs|
  {
    if |bs| >= 3 {
      EncodeAlphabet(bs[3..]);
      var s := Encode(bs);
      assert forall i :: 4 <= i < |s| ==> s[i] == Encode(bs[3..])[i - 4];
    }
  }

  /** Decoding undoes encoding. */
  lemma {:induction false} DecodeEncode(bs: seq<byte>)
    ensures Decode(Encode(bs)) == Ok(bs)
    decreases |bs|
  {
    DecodeUnitsEncode(bs);
  }

  lemma {:induction false} DecodeUnitsEncode(bs: seq<byte>)
    ensures DecodeUnits(Encode(bs)) == Ok(bs)
    decreases |bs|
  {
    if bs == [] {
    } else if |bs| == 1 {
      DecodeOneByteUnit(bs[0]);
      assert bs == [bs[0]];
    } else if |bs| == 2 {
      DecodeTwoByteUnit(bs[0], bs[1]);
      assert bs == [bs[0], bs[1]];
    } else {
      var s := Encode(bs);
      var rest := Encode(bs[3..]);
      assert s == s[..4] + rest;
      DecodeUnitsEncode(bs[3..]);
      DecodeFullUnit(bs[0], bs[1], bs[2], rest);
      assert bs == [bs[0], bs[1], bs[2]] + bs[3..];
    }
  }

  lemma DecodeOneByteUnit(x: byte)
    ensures DecodeUnits(Encode([x])) == Ok([x])
  {
    ByteSplits(x, 0, 0);
    var u := Encode([x]);
    assert SextetOf(u[0]) == x / 4 && SextetOf(u[1]) == (x % 4) * 16;
  }

  lemma DecodeTwoByteUnit(x: byte, y: byte)
    ensures DecodeUnits(Encode([x, y])) == Ok([x, y])
  {
    ByteSplits(x, y, 0);
    var u := Encode([x, y]);
    assert SextetOf(u[0]) == x / 4 && SextetOf(u[1]) == (x % 4) * 16 + y / 16 && SextetOf(u[2]) == (y % 16) * 4;
  }

  lemma DecodeFullUnit(x: byte, y: byte, z: byte, rest: string)
    ensures var r := Encode([x, y, z])[..4] + rest;
            DecodeUnits(r) == match DecodeUnits(rest)
                              case Ok(t) => Ok([x, y, z] + t)
                              case Err(e) => Err(e)
  {
    ByteSplits(x, y, z);
    var u := Encode([x, y, z])[..4];
    assert [x, y, z][3..] == [];
    var a, b, c, d := x / 4, (x % 4) * 16 + y / 16, (y % 16) * 4 + z / 64, z % 64;
    assert u == [CharOf(a), CharOf(b), CharOf(c), CharOf(d)];
    var r := u + rest;
    assert r[0] == CharOf(a) && r[1] == CharOf(b) && r[2] == CharOf(c) && r[3] == CharOf(d);
    assert r[4..] == rest;
  }

  /** Padding is optional, nothing may follow it, and a lone trailing character is rejected. */
  lemma DecoderExamples()
    ensures Decode("YQ==") == Ok([0x61]) && Decode("YQ") == Ok([0x61])
    ensures Decode("YWI=") == Ok([0x61, 0x62]) && Decode("YWI") == Ok([0x61, 0x62])
    ensures Decode("YQ=").Err? && Decode("YQ==YQ==").Err? && Decode("Y").Err? && Decode("YWJjZ").Err?
    ensures Decode("YW Jj").Err? && Decode("=").Err? && Decode("").Ok?
  {
    assert "YQ==YQ=="[2] == '=' && "YQ==YQ=="[3] == '=';
    assert "YWJjZ"[4..] == "Z";
  }

  /** The unused bits of the last unit are not checked: "YR==" decodes like "YQ==". */
  lemma TrailingBitsIgnored()
    ensures Decode("YR==") == Decode("YQ==")
  {
  }
}
