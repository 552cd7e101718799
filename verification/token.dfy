/**
 * The unsigned, JWT-like auth token: `createTokenForUser` and
 * `parseUserFromToken` (server.js). A token is
 * `base64(header) + "." + base64(payload) + "."`: the header is the fixed
 * JSON `{"alg":"none","typ":"JWT"}`, the payload the user's
 * `{id, name, email, role}`, and there is no signature.
 */
module Token {
  import opened Common
  import Base64
  import Payload
  import opened Data

  const Dot: char := '.'

  const HeaderJson: string := "{\"alg\":\"none\",\"typ\":\"JWT\"}"

  /** The bytes of an ASCII string (its UTF-8 encoding). */
  function AsciiBytes(s: string): seq<Base64.Byte>
    requires forall i :: 0 <= i < |s| ==> s[i] as int < 128
  {
    seq(|s|, i requires 0 <= i < |s| => s[i] as int)
  }

  /** The first segment of every token. */
  const HeaderSegment: string := Base64.Encode(AsciiBytes(HeaderJson))

  /** The claims a token for `u` carries. */
  function ClaimsOf(u: User): Payload.Claims {
    Payload.Claims(u.id, u.name, u.email, u.role)
  }

  /** `String.prototype.split` with a one-character separator: the pieces
      between separators, so there is always at least one piece. */
  function Split(s: string, sep: char): (parts: seq<string>)
    ensures |parts| >= 1
    ensures forall k :: 0 <= k < |parts| ==> sep !in parts[k]
    decreases |s|
  {
    match FindFirst(s, c => c == sep)
    case None => [s]
    case Some(i) =>
      assert sep !in s[..i] by {
        forall j | 0 <= j < i ensures s[..i][j] != sep {}
      }
      [s[..i]] + Split(s[i + 1..], sep)
  }

  /** `Array.prototype.join` with a one-character separator. */
  function Join(parts: seq<string>, sep: char): string
    requires |parts| >= 1
  {
    if |parts| == 1 then parts[0] else parts[0] + [sep] + Join(parts[1..], sep)
  }

  /** Splitting loses nothing: joining the pieces gives back the string. */
  lemma {:induction false} JoinSplit(s: string, sep: char)
    ensures Join(Split(s, sep), sep) == s
    decreases |s|
  {
    match FindFirst(s, c => c == sep)
    case None =>
    case Some(i) =>
      JoinSplit(s[i + 1..], sep);
      assert s == s[..i] + [sep] + s[i + 1..];
  }

  /** A piece without the separator, followed by the separator, is the first piece. */
  lemma SplitAfterPiece(a: string, rest: string, sep: char)
    requires sep !in a
    ensures Split(a + [sep] + rest, sep) == [a] + Split(rest, sep)
  {
    var s := a + [sep] + rest;
    var f := FindFirst(s, c => c == sep);
    assert s[|a|] == sep;
    assert f == Some(|a|);
    assert s[..|a|] == a && s[|a| + 1..] == rest;
  }

  /** The claims `parseUserFromToken` reads from a token: None for an empty
      token, one with fewer than two pieces, or an undecodable payload. */
  function TokenClaims(token: string): (r: Option<Payload.Claims>)
    ensures token == "" ==> r.None?
    ensures r.Some? ==> |Split(token, Dot)| >= 2 && Base64.Decode(Split(token, Dot)[1]).Some?
    ensures r.Some? ==> Payload.Decode(Base64.Decode(Split(token, Dot)[1]).value) == r
    ensures token != "" && |Split(token, Dot)| >= 2 && Base64.Decode(Split(token, Dot)[1]).Some? ==>
              r == Payload.Decode(Base64.Decode(Split(token, Dot)[1]).value)
  {
    if token == "" then None
    else
      var parts := Split(token, Dot);
      if |parts| < 2 then None
      else match Base64.Decode(parts[1])
        case None => None
        case Some(bytes) => Payload.Decode(bytes)
  }

  /** `createTokenForUser`: header, payload and an empty signature, joined
      by dots. The token splits into exactly those three pieces, and reading
      it back yields exactly the claims it was issued with. */
  function CreateToken(u: User): (t: string)
    ensures Split(t, Dot) == [HeaderSegment, Base64.Encode(Payload.Encode(ClaimsOf(u))), ""]
    ensures TokenClaims(t) == Some(ClaimsOf(u))
  {
    var p := Base64.Encode(Payload.Encode(ClaimsOf(u)));
    var t := HeaderSegment + [Dot] + p + [Dot];
    assert t == HeaderSegment + [Dot] + (p + [Dot] + "");
    SplitAfterPiece(HeaderSegment, p + [Dot] + "", Dot);
    SplitAfterPiece(p, "", Dot);
    assert Split("", Dot) == [""];
    Base64.DecodeEncode(Payload.Encode(ClaimsOf(u)));
    Payload.DecodeEncode(ClaimsOf(u));
    t
  }

  /** `parseUserFromToken`: the stored user named by the token's id claim, or
      None on any failure. Only the id is looked at; the stored user is
      returned, not the claims. */
  function ParseUserFromToken(users: seq<User>, token: string): (r: Option<User>)
    ensures r.Some? ==> r.value in users
    ensures r.Some? <==> TokenClaims(token).Some? &&
                         exists i :: 0 <= i < |users| && users[i].id == TokenClaims(token).value.id
    ensures r.Some? ==> r.value.id == TokenClaims(token).value.id
    ensures TokenClaims(token).Some? ==> r == FindUserById(users, TokenClaims(token).value.id)
  {
    match TokenClaims(token)
    case None => None
    case Some(claims) => FindUserById(users, claims.id)
  }

  /** Parsing a token issued for `u` looks up `u`'s id among the current users:
      with unique ids it returns `u` itself while `u` is stored, and None once
      no user has that id. */
  lemma ParseCreatedToken(users: seq<User>, u: User)
    ensures ParseUserFromToken(users, CreateToken(u)) == FindUserById(users, u.id)
    ensures UserIdsUnique(users) && u in users ==> ParseUserFromToken(users, CreateToken(u)) == Some(u)
    ensures (forall v :: v in users ==> v.id != u.id) ==> ParseUserFromToken(users, CreateToken(u)) == None
  {
    if UserIdsUnique(users) && u in users {
      FindStoredUser(users, u);
    }
  }

  /** A dot-free first piece, the encoded claims and anything after a second
      dot read back as exactly those claims. */
  lemma ClaimsOfPieces(h: string, c: Payload.Claims, rest: string)
    requires Dot !in h
    ensures TokenClaims(h + [Dot] + Base64.Encode(Payload.Encode(c)) + [Dot] + rest) == Some(c)
  {
    var p := Base64.Encode(Payload.Encode(c));
    var t := h + [Dot] + p + [Dot] + rest;
    assert Split(t, Dot)[1] == p by {
      assert t == h + [Dot] + (p + [Dot] + rest);
      SplitAfterPiece(h, p + [Dot] + rest, Dot);
      SplitAfterPiece(p, rest, Dot);
    }
    Base64.DecodeEncode(Payload.Encode(c));
    Payload.DecodeEncode(c);
  }

  /** The signature piece is never checked: replacing the empty signature of
      an issued token by any text still yields the token's user. */
  lemma SignatureIgnored(users: seq<User>, u: User, sig: string)
    ensures ParseUserFromToken(users, CreateToken(u) + sig) == FindUserById(users, u.id)
  {
    var p := Base64.Encode(Payload.Encode(ClaimsOf(u)));
    assert CreateToken(u) + sig == HeaderSegment + [Dot] + p + [Dot] + sig;
    ClaimsOfPieces(HeaderSegment, ClaimsOf(u), sig);
  }

  /** A token without a `.` has one piece and is rejected. */
  lemma UndottedTokenRejected(users: seq<User>, token: string)
    requires Dot !in token
    ensures ParseUserFromToken(users, token) == None
  {
  }
}
