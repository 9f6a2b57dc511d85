/**
 * The account key as a JSON Web Key, its thumbprint, and the pieces of a
 * JWS request: base64url without padding (section 2 of RFC 7515), the JWK
 * members of an RSA key, the thumbprint of section 3 of RFC 7638 and the
 * signing input of section 5.1 of RFC 7515.
 *
 * SHA-256 and json.dumps are library calls; they are parameters here.
 */
module Jose {
  import opened Wrappers
  import opened Base64
  import Text
  import Hex

  /** Client.__b64: the URL-safe encoding without padding. */
  function B64(b: seq<byte>): (r: string)
    ensures DecodeUnpadded(UrlSafe, r) == Some(b)
  {
    DecodeEncodeUnpadded(UrlSafe, b);
    EncodeUnpadded(UrlSafe, b)
  }

  /** B64 is urlsafe_b64encode with every '=' removed, as Client.__b64 computes it. */
  lemma B64Strips(b: seq<byte>)
    ensures B64(b) == Text.Remove(Encode(UrlSafe, b), '=')
  {
    var u := EncodeUnpadded(UrlSafe, b);
    Text.RemoveAppend(u, Padding(|b|), '=');
    NotDigits(UrlSafe);
    UnpaddedDigits(UrlSafe, b);
    Text.RemoveAbsent(u, '=');
    assert Text.Remove("=", '=') == "" && Text.Remove("==", '=') == "";
  }

  /**
   * A text decodes to `b` iff it is B64(b): a member given by what it
   * decodes to is given as a string.
   */
  lemma B64Exact(b: seq<byte>, s: string)
    ensures DecodeUnpadded(UrlSafe, s) == Some(b) <==> s == B64(b)
  {
    DecodeUnique(UrlSafe, s, b);
  }

  /** B64 output holds no '=', '.', '"', '\\' or newline. */
  lemma B64Plain(b: seq<byte>)
    ensures '=' !in B64(b) && '.' !in B64(b) && '"' !in B64(b) && '\\' !in B64(b) && '\n' !in B64(b)
  {
    NotDigits(UrlSafe);
    UnpaddedDigits(UrlSafe, b);
  }

  /** The UTF-8 encoding of one Unicode scalar value. */
  function Utf8Char(c: char): (r: seq<byte>)
    ensures 1 <= |r| <= 4
    ensures (c as int < 128) == (|r| == 1)
  {
    var v := c as int;
    if v < 0x80 then [v]
    else if v < 0x800 then [0xC0 + v / 64, 0x80 + v % 64]
    else if v < 0x10000 then [0xE0 + v / 4096, 0x80 + v / 64 % 64, 0x80 + v % 64]
    else [0xF0 + v / 262144 % 8, 0x80 + v / 4096 % 64, 0x80 + v / 64 % 64, 0x80 + v % 64]
  }

  /** str.encode('utf8'): ASCII text becomes one byte per character, its code. */
  function Utf8(s: string): seq<byte>
  {
    if |s| == 0 then [] else Utf8Char(s[0]) + Utf8(s[1..])
  }

  /** ASCII text encodes to its own code points, one byte per character. */
  lemma {:induction false} Utf8Ascii(s: string)
    requires forall i :: 0 <= i < |s| ==> s[i] as int < 128
    ensures |Utf8(s)| == |s| && forall i :: 0 <= i < |s| ==> Utf8(s)[i] == s[i] as int
    decreases |s|
  {
    if |s| > 0 {
      Utf8Ascii(s[1..]);
    }
  }

  /** The members of an RSA public JWK (section 6.3.1 of RFC 7518). */
  datatype Jwk = Jwk(e: string, kty: string, n: string)

  /** The client's JWS header: {"alg": "RS256", "jwk": {...}}. */
  datatype Header = Header(alg: string, jwk: Jwk)

  /**
   * The JWK built from openssl's text: the exponent in hexadecimal, padded
   * to an even number of digits; the modulus digits with ':' and
   * whitespace removed. None when the modulus digits do not unhexlify.
   * Each member decodes back to the big-endian bytes of its number, and
   * the exponent has no leading zero byte.
   */
  function JwkOf(pubHex: string, pubExp: nat): (r: Option<Jwk>)
    ensures r.Some? <==> Hex.Unhexlify(Hex.StripSeparators(pubHex)).Some?
    ensures r.Some? ==> r.value.kty == "RSA"
    ensures r.Some? ==> DecodeUnpadded(UrlSafe, r.value.n) == Hex.Unhexlify(Hex.StripSeparators(pubHex))
    ensures r.Some? ==> DecodeUnpadded(UrlSafe, r.value.e).Some? &&
                        Hex.BytesValue(DecodeUnpadded(UrlSafe, r.value.e).value) == pubExp &&
                        (pubExp > 0 ==> DecodeUnpadded(UrlSafe, r.value.e).value[0] != 0)
  {
    Hex.ExponentBytes(pubExp);
    var e := Hex.Unhexlify(Hex.PadEven(Hex.ToHex(pubExp)));
    var n := Hex.Unhexlify(Hex.StripSeparators(pubHex));
    if n.None? then None
    else Some(Jwk(B64(e.value), "RSA", B64(n.value)))
  }

  /**
   * json.dumps(jwk, sort_keys=True, separators=(',', ':')) for members that
   * need no escaping: the members in lexicographic order, no whitespace.
   */
  function CanonicalJwk(j: Jwk): string
  {
    "{\"e\":\"" + (j.e + ("\",\"kty\":\"" + (j.kty + ("\",\"n\":\"" + (j.n + "\"}")))))
  }

  predicate Unquoted(s: string) {
    '"' !in s
  }

  lemma FieldBoundary(x1: string, r1: string, x2: string, r2: string)
    requires Unquoted(x1) && Unquoted(x2)
    requires |r1| > 0 && |r2| > 0 && r1[0] == '"' && r2[0] == '"'
    requires x1 + r1 == x2 + r2
    ensures x1 == x2 && r1 == r2
  {
    var s := x1 + r1;
    assert x1 == s[..|x1|] && x2 == s[..|x2|];
  }

  lemma AfterPrefix(p: string, x1: string, r1: string, x2: string, r2: string)
    requires Unquoted(x1) && Unquoted(x2)
    requires |r1| > 0 && |r2| > 0 && r1[0] == '"' && r2[0] == '"'
    requires p + (x1 + r1) == p + (x2 + r2)
    ensures x1 == x2 && r1 == r2
  {
    assert (p + (x1 + r1))[|p|..] == x1 + r1;
    assert (p + (x2 + r2))[|p|..] == x2 + r2;
    FieldBoundary(x1, r1, x2, r2);
  }

  /**
   * Different keys give different thumbprint inputs: the canonical JSON
   * determines every member.
   */
  lemma CanonicalJwkInjective(j1: Jwk, j2: Jwk)
    requires Unquoted(j1.e) && Unquoted(j1.kty) && Unquoted(j1.n)
    requires Unquoted(j2.e) && Unquoted(j2.kty) && Unquoted(j2.n)
    requires CanonicalJwk(j1) == CanonicalJwk(j2)
    ensures j1 == j2
  {
    var p, q, t, z := "{\"e\":\"", "\",\"kty\":\"", "\",\"n\":\"", "\"}";
    var s1, s2 := t + (j1.n + z), t + (j2.n + z);
    var r1, r2 := q + (j1.kty + s1), q + (j2.kty + s2);
    AfterPrefix(p, j1.e, r1, j2.e, r2);
    AfterPrefix(q, j1.kty, s1, j2.kty, s2);
    AfterPrefix(t, j1.n, z, j2.n, z);
  }

  /**
   * The JWK thumbprint of section 3 of RFC 7638: the text that decodes to
   * the SHA-256 of the canonical JSON, 43 characters for a 32-byte digest.
   */
  function Thumbprint(j: Jwk, sha256: seq<byte> -> seq<byte>): (r: string)
    ensures DecodeUnpadded(UrlSafe, r) == Some(sha256(Utf8(CanonicalJwk(j))))
    ensures |sha256(Utf8(CanonicalJwk(j)))| == 32 ==> |r| == 43
    ensures '.' !in r && '=' !in r
  {
    B64Plain(sha256(Utf8(CanonicalJwk(j))));
    UnpaddedLength(UrlSafe, sha256(Utf8(CanonicalJwk(j))));
    B64(sha256(Utf8(CanonicalJwk(j))))
  }

  /** A JSON value, as json.dumps receives it; objects keep insertion order. */
  datatype Json = JStr(str: string) | JList(items: seq<Json>) | JObj(members: seq<(string, Json)>)

  /** The value of the first member named `key`. */
  function Member(j: Json, key: string): Option<Json>
  {
    if j.JObj? then Lookup(j.members, key) else None
  }

  function Lookup(members: seq<(string, Json)>, key: string): Option<Json>
  {
    if |members| == 0 then None
    else if members[0].0 == key then Some(members[0].1)
    else Lookup(members[1..], key)
  }

  function JwkJson(j: Jwk): Json
  {
    JObj([("e", JStr(j.e)), ("kty", JStr(j.kty)), ("n", JStr(j.n))])
  }

  function HeaderJson(h: Header): Json
  {
    JObj([("alg", JStr(h.alg)), ("jwk", JwkJson(h.jwk))])
  }

  /** The protected header: a copy of the header with the nonce added last. */
  function ProtectedJson(h: Header, nonce: string): (r: Json)
  {
    JObj(HeaderJson(h).members + [("nonce", JStr(nonce))])
  }

  /** The protected header holds the header's members unchanged, and the nonce. */
  lemma ProtectedHeader(h: Header, nonce: string)
    ensures Member(ProtectedJson(h, nonce), "alg") == Member(HeaderJson(h), "alg") == Some(JStr(h.alg))
    ensures Member(ProtectedJson(h, nonce), "jwk") == Member(HeaderJson(h), "jwk") == Some(JwkJson(h.jwk))
    ensures Member(ProtectedJson(h, nonce), "nonce") == Some(JStr(nonce))
    ensures Member(HeaderJson(h), "nonce") == None
  {
    var m, hm := ProtectedJson(h, nonce).members, HeaderJson(h).members;
    assert "alg" != "nonce" && "jwk" != "nonce" && "alg" != "jwk";
    assert m[0] == hm[0] == ("alg", JStr(h.alg));
    assert m[1..][0] == hm[1..][0] == ("jwk", JwkJson(h.jwk));
    assert m[1..][1..] == [("nonce", JStr(nonce))];
    assert hm[1..][1..] == [];
    assert Lookup(m[1..], "nonce") == Lookup(m[1..][1..], "nonce") == Some(JStr(nonce));
    assert Lookup(hm[1..], "nonce") == Lookup(hm[1..][1..], "nonce") == None;
    assert Lookup(m[1..], "jwk") == Some(JwkJson(h.jwk)) == Lookup(hm[1..], "jwk");
    assert Lookup(m, "jwk") == Lookup(m[1..], "jwk");
    assert Lookup(hm, "jwk") == Lookup(hm[1..], "jwk");
  }

  /** The base64url text of a JSON value's serialisation. */
  function Encoded(j: Json, dumps: Json -> string): string
  {
    B64(Utf8(dumps(j)))
  }

  /** The JWS signing input: protected64 "." payload64. */
  function SigningInput(protected64: string, payload64: string): string
  {
    protected64 + "." + payload64
  }

  /**
   * A JWS signing input splits at its one '.' into the encoded protected
   * header and payload, which decode back to the serialised JSON.
   */
  lemma SigningInputParts(protected: Json, payload: Json, dumps: Json -> string)
    ensures Text.Split(SigningInput(Encoded(protected, dumps), Encoded(payload, dumps)), ".")
              == [Encoded(protected, dumps), Encoded(payload, dumps)]
    ensures DecodeUnpadded(UrlSafe, Encoded(protected, dumps)) == Some(Utf8(dumps(protected)))
    ensures DecodeUnpadded(UrlSafe, Encoded(payload, dumps)) == Some(Utf8(dumps(payload)))
  {
    var p, q := Encoded(protected, dumps), Encoded(payload, dumps);
    B64Plain(Utf8(dumps(protected)));
    B64Plain(Utf8(dumps(payload)));
    assert Text.Join([p, q], ".") == SigningInput(p, q);
    Text.SplitJoin([p, q], ".");
  }

  /** The JSON body POSTed to the CA. */
  datatype Envelope = Envelope(header: Header, protected64: string, payload64: string, signature64: string)
}
