/**
 * Base 64 encoding as defined in section 4 of RFC 4648 (the alphabet
 * `A-Z a-z 0-9 + /`, with `=` padding), which is what Node's
 * `Buffer.toString('base64')` produces for the token segments.
 */
module Base64 {
  import opened Common

  type Byte = b: int | 0 <= b < 256
  type Sextet = v: int | 0 <= v < 64

  const Pad: char := '='

  /** The character of the alphabet for a six-bit value. */
  function EncodeSextet(v: Sextet): (c: char)
    ensures c != Pad && c != '.'
  {
    if v < 26 then (v + 'A' as int) as char
    else if v < 52 then (v - 26 + 'a' as int) as char
    else if v < 62 then (v - 52 + '0' as int) as char
    else if v == 62 then '+'
    else '/'
  }

  /** The six-bit value of an alphabet character; None for any other character. */
  function DecodeSextet(c: char): (r: Option<Sextet>)
    ensures r.Some? ==> EncodeSextet(r.value) == c
  {
    if 'A' <= c <= 'Z' then Some(c as int - 'A' as int)
    else if 'a' <= c <= 'z' then Some(c as int - 'a' as int + 26)
    else if '0' <= c <= '9' then Some(c as int - '0' as int + 52)
    else if c == '+' then Some(62)
    else if c == '/' then Some(63)
    else None
  }

  lemma SextetRoundTrip(v: Sextet)
    ensures DecodeSextet(EncodeSextet(v)) == Some(v)
  {
  }

  /** A final group holding one byte: two characters and two pads. */
  function EncodeOne(b0: Byte): seq<char> {
    [EncodeSextet(b0 / 4), EncodeSextet((b0 % 4) * 16), Pad, Pad]
  }

  /** A final group holding two bytes: three characters and one pad. */
  function EncodeTwo(b0: Byte, b1: Byte): seq<char> {
    [EncodeSextet(b0 / 4), EncodeSextet((b0 % 4) * 16 + b1 / 16), EncodeSextet((b1 % 16) * 4), Pad]
  }

  /** A full group: three bytes as four characters. */
  function EncodeThree(b0: Byte, b1: Byte, b2: Byte): seq<char> {
    [EncodeSextet(b0 / 4), EncodeSextet((b0 % 4) * 16 + b1 / 16),
     EncodeSextet((b1 % 16) * 4 + b2 / 64), EncodeSextet(b2 % 64)]
  }

  /** Encodes bytes; the result is 4 characters per started group of 3 bytes
      and never contains the token delimiter `.`. */
  function Encode(b: seq<Byte>): (s: string)
    ensures |s| == 4 * ((|b| + 2) / 3)
    ensures '.' !in s
    decreases |b|
  {
    if |b| == 0 then []
    else if |b| == 1 then EncodeOne(b[0])
    else if |b| == 2 then EncodeTwo(b[0], b[1])
    else EncodeThree(b[0], b[1], b[2]) + Encode(b[3..])
  }

  function DecodeOne(c0: char, c1: char): Option<seq<Byte>> {
    match (DecodeSextet(c0), DecodeSextet(c1))
    case (Some(v0), Some(v1)) => Some([v0 as int * 4 + v1 as int / 16])
    case _ => None
  }

  function DecodeTwo(c0: char, c1: char, c2: char): Option<seq<Byte>> {
    match (DecodeSextet(c0), DecodeSextet(c1), DecodeSextet(c2))
    case (Some(v0), Some(v1), Some(v2)) =>
      Some([v0 as int * 4 + v1 as int / 16, (v1 as int % 16) * 16 + v2 as int / 4])
    case _ => None
  }

  function DecodeThree(c0: char, c1: char, c2: char, c3: char): Option<seq<Byte>> {
    match (DecodeSextet(c0), DecodeSextet(c1), DecodeSextet(c2), DecodeSextet(c3))
    case (Some(v0), Some(v1), Some(v2), Some(v3)) =>
      Some([v0 as int * 4 + v1 as int / 16, (v1 as int % 16) * 16 + v2 as int / 4, (v2 as int % 4) * 64 + v3 as int])
    case _ => None
  }

  /** Decodes padded base 64; None when the length is not a multiple of 4, a
      character is outside the alphabet, or padding appears before the end. */
  function Decode(s: string): (r: Option<seq<Byte>>)
    ensures r.Some? ==> |s| % 4 == 0
    decreases |s|
  {
    if |s| == 0 then Some([])
    else if |s| < 4 then None
    else if |s| == 4 && s[2] == Pad && s[3] == Pad then DecodeOne(s[0], s[1])
    else if |s| == 4 && s[3] == Pad then DecodeTwo(s[0], s[1], s[2])
    else match DecodeThree(s[0], s[1], s[2], s[3])
      case None => None
      case Some(group) =>
        match Decode(s[4..])
        case None => None
        case Some(rest) => Some(group + rest)
  }

  lemma OneRoundTrip(b0: Byte)
    ensures DecodeOne(EncodeOne(b0)[0], EncodeOne(b0)[1]) == Some([b0])
  {
    SextetRoundTrip(b0 / 4);
    SextetRoundTrip((b0 % 4) * 16);
  }

  lemma TwoRoundTrip(b0: Byte, b1: Byte)
    ensures var g := EncodeTwo(b0, b1); DecodeTwo(g[0], g[1], g[2]) == Some([b0, b1])
  {
    var v1 := (b0 % 4) * 16 + b1 / 16;
    var v2 := (b1 % 16) * 4;
    SextetRoundTrip(b0 / 4);
    SextetRoundTrip(v1);
    SextetRoundTrip(v2);
    assert v1 / 16 == b0 % 4 && v1 % 16 == b1 / 16;
    assert v2 / 4 == b1 % 16;
  }

  lemma ThreeRoundTrip(b0: Byte, b1: Byte, b2: Byte)
    ensures var g := EncodeThree(b0, b1, b2); DecodeThree(g[0], g[1], g[2], g[3]) == Some([b0, b1, b2])
  {
    var v1 := (b0 % 4) * 16 + b1 / 16;
    var v2 := (b1 % 16) * 4 + b2 / 64;
    SextetRoundTrip(b0 / 4);
    SextetRoundTrip(v1);
    SextetRoundTrip(v2);
    SextetRoundTrip(b2 % 64);
    assert v1 / 16 == b0 % 4 && v1 % 16 == b1 / 16;
    assert v2 / 4 == b1 % 16 && v2 % 4 == b2 / 64;
  }

  /** A full leading group followed by a decodable rest decodes group by group. */
  lemma DecodeFullGroup(g: string, rest: string, x: seq<Byte>, y: seq<Byte>)
    requires |g| == 4 && g[3] != Pad
    requires DecodeThree(g[0], g[1], g[2], g[3]) == Some(x)
    requires Decode(rest) == Some(y)
    ensures Decode(g + rest) == Some(x + y)
  {
    var s := g + rest;
    assert s[0] == g[0] && s[1] == g[1] && s[2] == g[2] && s[3] == g[3];
    assert s[4..] == rest;
  }

  lemma DecodeEncodeShort(b: seq<Byte>)
    requires 1 <= |b| <= 2
    ensures Decode(Encode(b)) == Some(b)
  {
    if |b| == 1 {
      var s := EncodeOne(b[0]);
      assert Encode(b) == s;
      OneRoundTrip(b[0]);
      assert Decode(s) == DecodeOne(s[0], s[1]);
      assert b == [b[0]];
    } else {
      var s := EncodeTwo(b[0], b[1]);
      assert Encode(b) == s;
      TwoRoundTrip(b[0], b[1]);
      assert Decode(s) == DecodeTwo(s[0], s[1], s[2]);
      assert b == [b[0], b[1]];
    }
  }

  /** Decoding undoes encoding, for every byte string. */
  lemma {:induction false} DecodeEncode(b: seq<Byte>)
    ensures Decode(Encode(b)) == Some(b)
    decreases |b|
  {
    if 1 <= |b| <= 2 {
      DecodeEncodeShort(b);
    } else if |b| >= 3 {
      var g := EncodeThree(b[0], b[1], b[2]);
      var x: seq<Byte> := [b[0], b[1], b[2]];
      var rest := Encode(b[3..]);
      assert Encode(b) == g + rest;
      assert DecodeThree(g[0], g[1], g[2], g[3]) == Some(x) by {
        ThreeRoundTrip(b[0], b[1], b[2]);
      }
      assert Decode(rest) == Some(b[3..]) by {
        DecodeEncode(b[3..]);
      }
      DecodeFullGroup(g, rest, x, b[3..]);
      assert x + b[3..] == b;
    }
  }
}
