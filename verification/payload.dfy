/**
 * The byte form of the token payload `{id, name, email, role}`. The server
 * writes it with `JSON.stringify` followed by UTF-8 and reads it back with
 * `JSON.parse`; the model replaces that pair with a simpler serialization
 * that, like JSON, is decoded by the inverse of what encoded it: each
 * character becomes the three bytes of its code point, and each field ends
 * with the byte 255, which never begins a code point.
 */
module Payload {
  import opened Common
  import Base64

  /** The claims a token carries: `{ id, name, email, role }`. */
  datatype Claims = Claims(id: string, name: string, email: string, role: string)

  const FieldEnd: Base64.Byte := 255

  /** The numbers that are Unicode scalar values, i.e. that Dafny's `char` holds. */
  predicate IsScalar(n: int) {
    (0 <= n < 0xD800) || (0xE000 <= n < 0x11_0000)
  }

  function CodePointBytes(c: char): (b: seq<Base64.Byte>)
    ensures |b| == 3 && b[0] != FieldEnd
  {
    var n := c as int;
    [n / 65536, (n / 256) % 256, n % 256]
  }

  /** One string field: its characters, then the field terminator. */
  function EncodeText(s: string): (b: seq<Base64.Byte>)
    ensures |b| == 3 * |s| + 1
    decreases |s|
  {
    if s == [] then [FieldEnd] else CodePointBytes(s[0]) + EncodeText(s[1..])
  }

  /** Reads one string field from the front of `b`; returns it and what follows. */
  function DecodeText(b: seq<Base64.Byte>): (r: Option<(string, seq<Base64.Byte>)>)
    ensures r.Some? ==> |r.value.1| < |b|
    decreases |b|
  {
    if |b| == 0 then None
    else if b[0] == FieldEnd then Some(([], b[1..]))
    else if |b| < 3 then None
    else
      var n := b[0] as int * 65536 + b[1] as int * 256 + b[2] as int;
      if !IsScalar(n) then None
      else match DecodeText(b[3..])
        case None => None
        case Some((s, rest)) => Some(([n as char] + s, rest))
  }

  lemma CodePointRoundTrip(c: char)
    ensures var b := CodePointBytes(c); b[0] as int * 65536 + b[1] as int * 256 + b[2] as int == c as int
  {
  }

  /** A field reads back as the string that was written, leaving what followed it. */
  lemma {:induction false} DecodeEncodeText(s: string, rest: seq<Base64.Byte>)
    ensures DecodeText(EncodeText(s) + rest) == Some((s, rest))
    decreases |s|
  {
    var b := EncodeText(s) + rest;
    if s == [] {
      assert b[1..] == rest;
    } else {
      var cb := CodePointBytes(s[0]);
      assert b == cb + (EncodeText(s[1..]) + rest);
      assert b[3..] == EncodeText(s[1..]) + rest;
      CodePointRoundTrip(s[0]);
      DecodeEncodeText(s[1..], rest);
      assert [s[0]] + s[1..] == s;
    }
  }

  /** The payload bytes: the four fields in the order `id, name, email, role`. */
  function Encode(c: Claims): seq<Base64.Byte> {
    EncodeText(c.id) + (EncodeText(c.name) + (EncodeText(c.email) + EncodeText(c.role)))
  }

  /** Reads the four fields back; None when the bytes are not a whole payload. */
  function Decode(b: seq<Base64.Byte>): Option<Claims> {
    match DecodeText(b)
    case None => None
    case Some((id, b1)) =>
      match DecodeText(b1)
      case None => None
      case Some((name, b2)) =>
        match DecodeText(b2)
        case None => None
        case Some((email, b3)) =>
          match DecodeText(b3)
          case None => None
          case Some((role, b4)) => if b4 == [] then Some(Claims(id, name, email, role)) else None
  }

  /** Reading a payload back yields the claims it was written from. */
  lemma DecodeEncode(c: Claims)
    ensures Decode(Encode(c)) == Some(c)
  {
    var tail3 := EncodeText(c.role);
    var tail2 := EncodeText(c.email) + tail3;
    var tail1 := EncodeText(c.name) + tail2;
    DecodeEncodeText(c.id, tail1);
    DecodeEncodeText(c.name, tail2);
    DecodeEncodeText(c.email, tail3);
    DecodeEncodeText(c.role, []);
    assert tail3 + [] == tail3;
  }
}
