/**
 * Base 64 encoding as in section 4 (standard alphabet) and section 5
 * (URL- and filename-safe alphabet) of RFC 4648, with a decoder that is
 * the encoder's inverse.
 */
module Base64 {
  import opened Wrappers
  import Text
  import opened Seqs

  type byte = b: int | 0 <= b < 256

  /** Section 4 (`+`, `/`) or section 5 (`-`, `_`) of RFC 4648. */
  datatype Alphabet = Standard | UrlSafe

  /** The character that encodes the 6-bit value `v`. */
  function Digit(a: Alphabet, v: int): (c: char)
    requires 0 <= v < 64
    ensures Value(a, c) == Some(v)
  {
    if v < 26 then ('A' as int + v) as char
    else if v < 52 then ('a' as int + v - 26) as char
    else if v < 62 then ('0' as int + v - 52) as char
    else if v == 62 then (if a == UrlSafe then '-' else '+')
    else (if a == UrlSafe then '_' else '/')
  }

  /** The 6-bit value a character of the alphabet encodes; None for any other character. */
  function Value(a: Alphabet, c: char): (r: Option<int>)
    ensures r.Some? ==> 0 <= r.value < 64
  {
    if 'A' <= c <= 'Z' then Some(c as int - 'A' as int)
    else if 'a' <= c <= 'z' then Some(c as int - 'a' as int + 26)
    else if '0' <= c <= '9' then Some(c as int - '0' as int + 52)
    else if c == (if a == UrlSafe then '-' else '+') then Some(62)
    else if c == (if a == UrlSafe then '_' else '/') then Some(63)
    else None
  }

  predicate IsDigit(a: Alphabet, c: char) {
    Value(a, c).Some?
  }

  /** The characters Base 64 output never contains, whichever alphabet is used. */
  lemma NotDigits(a: Alphabet)
    ensures !IsDigit(a, '=') && !IsDigit(a, '.') && !IsDigit(a, '"') && !IsDigit(a, '\n') && !IsDigit(a, '\\')
  {
  }

  /** The four characters of one 3-byte group. */
  function Quad(a: Alphabet, x: byte, y: byte, z: byte): string
  {
    [Digit(a, x / 4), Digit(a, x % 4 * 16 + y / 16), Digit(a, y % 16 * 4 + z / 64), Digit(a, z % 64)]
  }

  /**
   * The encoding without its `=` padding: 4 characters per 3 bytes, then
   * 2 characters for a trailing byte or 3 for a trailing pair.
   */
  function EncodeUnpadded(a: Alphabet, b: seq<byte>): string
    decreases |b|
  {
    if |b| == 0 then []
    else if |b| == 1 then [Digit(a, b[0] / 4), Digit(a, b[0] % 4 * 16)]
    else if |b| == 2 then [Digit(a, b[0] / 4), Digit(a, b[0] % 4 * 16 + b[1] / 16), Digit(a, b[1] % 16 * 4)]
    else Quad(a, b[0], b[1], b[2]) + EncodeUnpadded(a, b[3..])
  }

  /** The encoding holds only characters of the alphabet. */
  lemma {:induction false} UnpaddedDigits(a: Alphabet, b: seq<byte>)
    ensures forall i :: 0 <= i < |EncodeUnpadded(a, b)| ==> IsDigit(a, EncodeUnpadded(a, b)[i])
    decreases |b|
  {
    if |b| >= 3 {
      var q := Quad(a, b[0], b[1], b[2]);
      var rest := EncodeUnpadded(a, b[3..]);
      UnpaddedDigits(a, b[3..]);
      assert EncodeUnpadded(a, b) == q + rest;
      forall i | 0 <= i < |q + rest| ensures IsDigit(a, (q + rest)[i]) {
        if i >= 4 {
          assert (q + rest)[i] == rest[i - 4];
        }
      }
    }
  }

  /** Four characters per whole group of three bytes, two or three for the bytes left over. */
  lemma {:induction false} UnpaddedLength(a: Alphabet, b: seq<byte>)
    ensures |EncodeUnpadded(a, b)| == (4 * |b| + 2) / 3
    decreases |b|
  {
    if |b| >= 3 {
      UnpaddedLength(a, b[3..]);
      assert (4 * |b| + 2) / 3 == 4 + (4 * |b[3..]| + 2) / 3;
    }
  }

  function Padding(n: nat): (r: string)
  {
    if n % 3 == 1 then "==" else if n % 3 == 2 then "=" else ""
  }

  /** The padding fills the unpadded length up to a whole number of 4-character groups. */
  lemma PaddedLength(n: nat)
    ensures (4 * n + 2) / 3 + |Padding(n)| == 4 * ((n + 2) / 3)
    ensures ((4 * n + 2) / 3 + |Padding(n)|) % 4 == 0
  {
    var q := n / 3;
    assert n == 3 * q + n % 3;
    if n % 3 == 0 {
      assert (4 * n + 2) / 3 == 4 * q && (n + 2) / 3 == q;
    } else if n % 3 == 1 {
      assert (4 * n + 2) / 3 == 4 * q + 2 && (n + 2) / 3 == q + 1;
    } else {
      assert (4 * n + 2) / 3 == 4 * q + 3 && (n + 2) / 3 == q + 1;
    }
  }

  /** The padded encoding of RFC 4648 (Python's b64encode and urlsafe_b64encode). */
  function Encode(a: Alphabet, b: seq<byte>): (r: string)
    ensures |r| % 4 == 0 && |r| == 4 * ((|b| + 2) / 3)
  {
    UnpaddedLength(a, b);
    PaddedLength(|b|);
    var r := EncodeUnpadded(a, b) + Padding(|b|);
    assert |r| == (4 * |b| + 2) / 3 + |Padding(|b|)|;
    r
  }

  /**
   * Decodes an unpadded encoding; None when a character is outside the
   * alphabet, one is left over, or the last character of a final group
   * of 2 or 3 carries bits the encoder sets to zero (section 3.5 of
   * RFC 4648), so that each byte string has exactly one encoding.
   */
  function DecodeUnpadded(a: Alphabet, s: string): (r: Option<seq<byte>>)
    decreases |s|
  {
    if |s| == 0 then Some([])
    else if |s| == 1 then None
    else
      var v0, v1 := Value(a, s[0]), Value(a, s[1]);
      if v0.None? || v1.None? then None
      else if |s| == 2 then
        if v1.value % 16 != 0 then None else Some([v0.value * 4 + v1.value / 16])
      else
        var v2 := Value(a, s[2]);
        if v2.None? then None
        else if |s| == 3 then
          if v2.value % 4 != 0 then None else Some([v0.value * 4 + v1.value / 16, v1.value % 16 * 16 + v2.value / 4])
        else
          var v3 := Value(a, s[3]);
          if v3.None? then None
          else match DecodeUnpadded(a, s[4..])
            case None => None
            case Some(rest) =>
              Some([v0.value * 4 + v1.value / 16, v1.value % 16 * 16 + v2.value / 4, v2.value % 4 * 64 + v3.value] + rest)
  }

  /** Decodes a padded encoding by dropping its `=` characters first. */
  function Decode(a: Alphabet, s: string): Option<seq<byte>>
  {
    DecodeUnpadded(a, Text.Remove(s, '='))
  }

  lemma GroupBits(x: byte, y: byte, z: byte)
    ensures (x / 4) * 4 + (x % 4 * 16 + y / 16) / 16 == x
    ensures (x % 4 * 16 + y / 16) % 16 * 16 + (y % 16 * 4 + z / 64) / 4 == y
    ensures (y % 16 * 4 + z / 64) % 4 * 64 + z % 64 == z
  {
    assert (x % 4 * 16 + y / 16) / 16 == x % 4;
    assert (x % 4 * 16 + y / 16) % 16 == y / 16;
    assert (y % 16 * 4 + z / 64) / 4 == y % 16;
    assert (y % 16 * 4 + z / 64) % 4 == z / 64;
  }

  lemma DecodeSingle(a: Alphabet, x: byte)
    ensures DecodeUnpadded(a, EncodeUnpadded(a, [x])) == Some([x])
  {
    GroupBits(x, 0, 0);
  }

  /** The character a value decodes from is the one that encodes it. */
  lemma DigitValue(a: Alphabet, c: char, v: int)
    requires Value(a, c) == Some(v)
    ensures Digit(a, v) == c
  {
  }

  /** The bytes four 6-bit values decode to encode back to those values. */
  lemma ValueBits(v0: int, v1: int, v2: int, v3: int)
    requires 0 <= v0 < 64 && 0 <= v1 < 64 && 0 <= v2 < 64 && 0 <= v3 < 64
    ensures var x, y, z := v0 * 4 + v1 / 16, v1 % 16 * 16 + v2 / 4, v2 % 4 * 64 + v3;
            x / 4 == v0 && x % 4 == v1 / 16 && y / 16 == v1 % 16 && y % 16 == v2 / 4 &&
            z / 64 == v2 % 4 && z % 64 == v3
  {
  }

  lemma DecodePair(a: Alphabet, x: byte, y: byte)
    ensures DecodeUnpadded(a, EncodeUnpadded(a, [x, y])) == Some([x, y])
  {
    var v0, v1, v2 := x / 4, x % 4 * 16 + y / 16, y % 16 * 4;
    var c := [Digit(a, v0), Digit(a, v1), Digit(a, v2)];
    assert EncodeUnpadded(a, [x, y]) == c;
    DecodeTriple(a, c, v0, v1, v2);
    GroupBits(x, y, 0);
    assert v2 / 4 == (y % 16 * 4 + 0 / 64) / 4;
  }

  /** Three characters of the alphabet decode to two bytes. */
  lemma DecodeTriple(a: Alphabet, c: seq<char>, v0: int, v1: int, v2: int)
    requires |c| == 3 && Value(a, c[0]) == Some(v0) && Value(a, c[1]) == Some(v1) && Value(a, c[2]) == Some(v2)
    requires v2 % 4 == 0
    ensures DecodeUnpadded(a, c) == Some([v0 * 4 + v1 / 16, v1 % 16 * 16 + v2 / 4])
  {
  }

  /** Four characters of the alphabet decode to three bytes, ahead of whatever the rest decodes to. */
  lemma DecodeGroup(a: Alphabet, c: seq<char>, v0: int, v1: int, v2: int, v3: int, x: byte, y: byte, z: byte,
                    rest: string, tail: seq<byte>)
    requires |c| == 4
    requires Value(a, c[0]) == Some(v0) && Value(a, c[1]) == Some(v1)
    requires Value(a, c[2]) == Some(v2) && Value(a, c[3]) == Some(v3)
    requires v0 * 4 + v1 / 16 == x && v1 % 16 * 16 + v2 / 4 == y && v2 % 4 * 64 + v3 == z
    requires DecodeUnpadded(a, rest) == Some(tail)
    ensures DecodeUnpadded(a, c + rest) == Some([x, y, z] + tail)
  {
    var s := c + rest;
    assert s[0] == c[0] && s[1] == c[1] && s[2] == c[2] && s[3] == c[3];
    assert s[4..] == rest;
  }

  lemma DecodeQuad(a: Alphabet, x: byte, y: byte, z: byte, rest: string, tail: seq<byte>)
    requires DecodeUnpadded(a, rest) == Some(tail)
    ensures DecodeUnpadded(a, Quad(a, x, y, z) + rest) == Some([x, y, z] + tail)
  {
    GroupBits(x, y, z);
    DecodeGroup(a, Quad(a, x, y, z), x / 4, x % 4 * 16 + y / 16, y % 16 * 4 + z / 64, z % 64, x, y, z, rest, tail);
  }

  /** Decoding inverts the unpadded encoding. */
  lemma {:induction false} DecodeEncodeUnpadded(a: Alphabet, b: seq<byte>)
    ensures DecodeUnpadded(a, EncodeUnpadded(a, b)) == Some(b)
    decreases |b|
  {
    if |b| == 1 {
      DecodeSingle(a, b[0]);
      Single(b);
    } else if |b| == 2 {
      DecodePair(a, b[0], b[1]);
      Pair(b);
    } else if |b| >= 3 {
      DecodeEncodeUnpadded(a, b[3..]);
      DecodeQuad(a, b[0], b[1], b[2], EncodeUnpadded(a, b[3..]), b[3..]);
      Group(b);
    }
  }

  /**
   * The other direction: a text that decodes was produced by the encoder,
   * so a byte string has exactly one unpadded encoding.
   */
  lemma {:induction false} EncodeDecodeUnpadded(a: Alphabet, s: string, b: seq<byte>)
    requires DecodeUnpadded(a, s) == Some(b)
    ensures EncodeUnpadded(a, b) == s
    decreases |s|
  {
    if |s| == 2 {
      EncodeTwo(a, s, b);
    } else if |s| == 3 {
      EncodeThree(a, s, b);
    } else if |s| >= 4 {
      var rest := DecodeUnpadded(a, s[4..]).value;
      EncodeDecodeUnpadded(a, s[4..], rest);
      EncodeGroup(a, s, b, rest);
    }
  }

  lemma EncodeTwo(a: Alphabet, s: string, b: seq<byte>)
    requires |s| == 2 && DecodeUnpadded(a, s) == Some(b)
    ensures EncodeUnpadded(a, b) == s
  {
    var v0, v1 := Value(a, s[0]).value, Value(a, s[1]).value;
    DigitValue(a, s[0], v0);
    DigitValue(a, s[1], v1);
    ValueBits(v0, v1, 0, 0);
    assert b == [v0 * 4 + v1 / 16];
    Pair(s);
  }

  lemma EncodeThree(a: Alphabet, s: string, b: seq<byte>)
    requires |s| == 3 && DecodeUnpadded(a, s) == Some(b)
    ensures EncodeUnpadded(a, b) == s
  {
    var v0, v1, v2 := Value(a, s[0]).value, Value(a, s[1]).value, Value(a, s[2]).value;
    assert v2 % 4 == 0 && b == [v0 * 4 + v1 / 16, v1 % 16 * 16 + v2 / 4];
    TripleOf(a, s, v0, v1, v2);
  }

  /** Three characters whose last carries no leftover bits encode the two bytes they decode to. */
  lemma TripleOf(a: Alphabet, c: string, v0: int, v1: int, v2: int)
    requires |c| == 3 && v2 % 4 == 0
    requires Value(a, c[0]) == Some(v0) && Value(a, c[1]) == Some(v1) && Value(a, c[2]) == Some(v2)
    ensures EncodeUnpadded(a, [v0 * 4 + v1 / 16, v1 % 16 * 16 + v2 / 4]) == c
  {
    DigitValue(a, c[0], v0);
    DigitValue(a, c[1], v1);
    DigitValue(a, c[2], v2);
    ValueBits(v0, v1, v2, 0);
    Triple(c);
  }

  lemma EncodeGroup(a: Alphabet, s: string, b: seq<byte>, rest: seq<byte>)
    requires |s| >= 4 && DecodeUnpadded(a, s) == Some(b)
    requires DecodeUnpadded(a, s[4..]) == Some(rest) && EncodeUnpadded(a, rest) == s[4..]
    ensures EncodeUnpadded(a, b) == s
  {
    var c := s[..4];
    assert s == c + s[4..];
    assert c[0] == s[0] && c[1] == s[1] && c[2] == s[2] && c[3] == s[3];
    var v0, v1, v2, v3 := Value(a, c[0]).value, Value(a, c[1]).value, Value(a, c[2]).value, Value(a, c[3]).value;
    var x: byte, y: byte, z: byte := v0 * 4 + v1 / 16, v1 % 16 * 16 + v2 / 4, v2 % 4 * 64 + v3;
    DecodeGroup(a, c, v0, v1, v2, v3, x, y, z, s[4..], rest);
    var group: seq<byte> := [x, y, z] + rest;
    assert b == group;
    EncodeCons3(a, x, y, z, rest);
    QuadOf(a, c, v0, v1, v2, v3, x, y, z);
    assert EncodeUnpadded(a, group) == c + s[4..];
  }

  /** Four characters of the alphabet are the Quad of the three bytes they decode to. */
  lemma QuadOf(a: Alphabet, c: string, v0: int, v1: int, v2: int, v3: int, x: byte, y: byte, z: byte)
    requires |c| == 4
    requires Value(a, c[0]) == Some(v0) && Value(a, c[1]) == Some(v1)
    requires Value(a, c[2]) == Some(v2) && Value(a, c[3]) == Some(v3)
    requires x == v0 * 4 + v1 / 16 && y == v1 % 16 * 16 + v2 / 4 && z == v2 % 4 * 64 + v3
    ensures Quad(a, x, y, z) == c
  {
    DigitValue(a, c[0], v0);
    DigitValue(a, c[1], v1);
    DigitValue(a, c[2], v2);
    DigitValue(a, c[3], v3);
    ValueBits(v0, v1, v2, v3);
  }

  lemma EncodeCons3(a: Alphabet, x: byte, y: byte, z: byte, rest: seq<byte>)
    ensures EncodeUnpadded(a, [x, y, z] + rest) == Quad(a, x, y, z) + EncodeUnpadded(a, rest)
  {
    ConsTail3(x, y, z, rest);
  }

  /** Decoding is one-to-one on the texts that decode: each byte string has one encoding. */
  lemma DecodeUnique(a: Alphabet, s: string, b: seq<byte>)
    ensures DecodeUnpadded(a, s) == Some(b) <==> s == EncodeUnpadded(a, b)
  {
    if DecodeUnpadded(a, s) == Some(b) {
      EncodeDecodeUnpadded(a, s, b);
    }
    if s == EncodeUnpadded(a, b) {
      DecodeEncodeUnpadded(a, b);
    }
  }

  /** Decoding inverts the padded encoding. */
  lemma DecodeEncode(a: Alphabet, b: seq<byte>)
    ensures Decode(a, Encode(a, b)) == Some(b)
  {
    var u := EncodeUnpadded(a, b);
    Text.RemoveAppend(u, Padding(|b|), '=');
    NotDigits(a);
    UnpaddedDigits(a, b);
    Text.RemoveAbsent(u, '=');
    assert Text.Remove(Padding(|b|), '=') == "" by {
      assert Text.Remove("=", '=') == "";
      assert Text.Remove("==", '=') == "";
    }
    assert Text.Remove(Encode(a, b), '=') == u;
    DecodeEncodeUnpadded(a, b);
  }
}
