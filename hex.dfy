/**
 * Hexadecimal text: Python's "{0:x}".format(n), binascii.unhexlify, and the
 * removal of the ':' and whitespace separators that openssl prints between
 * the bytes of an RSA modulus.
 */
module Hex {
  import opened Wrappers
  import opened Base64
  import opened Seqs

  /** The lower-case hexadecimal digit for `d`. */
  function HexDigit(d: int): (c: char)
    requires 0 <= d < 16
    ensures HexValue(c) == Some(d)
  {
    if d < 10 then ('0' as int + d) as char else ('a' as int + d - 10) as char
  }

  /** The value of a hexadecimal digit of either case, as unhexlify accepts them. */
  function HexValue(c: char): (r: Option<int>)
    ensures r.Some? ==> 0 <= r.value < 16
    ensures r == Some(0) ==> c == '0'
  {
    if '0' <= c <= '9' then Some(c as int - '0' as int)
    else if 'a' <= c <= 'f' then Some(c as int - 'a' as int + 10)
    else if 'A' <= c <= 'F' then Some(c as int - 'A' as int + 10)
    else None
  }

  predicate IsHex(s: string) {
    forall i :: 0 <= i < |s| ==> HexValue(s[i]).Some?
  }

  /** The number a string of hexadecimal digits denotes, most significant digit first. */
  function HexNumber(s: string): nat
    requires IsHex(s)
  {
    if |s| == 0 then 0 else HexNumber(s[..|s| - 1]) * 16 + HexValue(s[|s| - 1]).value
  }

  /** The number a byte string denotes, most significant byte first. */
  function BytesValue(b: seq<byte>): nat
  {
    if |b| == 0 then 0 else BytesValue(b[..|b| - 1]) * 256 + b[|b| - 1]
  }

  /**
   * Python's "{0:x}".format(n): lower-case hexadecimal digits with no
   * leading zero ("0" for zero), denoting `n`.
   */
  function ToHex(n: nat): (r: string)
    ensures |r| >= 1 && IsHex(r) && HexNumber(r) == n
    ensures n > 0 ==> r[0] != '0'
    decreases n
  {
    if n < 16 then [HexDigit(n)]
    else
      var r := ToHex(n / 16) + [HexDigit(n % 16)];
      assert r[..|r| - 1] == ToHex(n / 16);
      r
  }

  /** A leading "0" for an odd number of digits, as the client does before unhexlify. */
  function PadEven(s: string): (r: string)
  {
    if |s| % 2 == 1 then "0" + s else s
  }

  lemma {:induction false} LeadingZero(s: string)
    requires IsHex(s)
    ensures IsHex("0" + s) && HexNumber("0" + s) == HexNumber(s)
    decreases |s|
  {
    var t := "0" + s;
    assert IsHex(t) by {
      forall i | 0 <= i < |t| ensures HexValue(t[i]).Some? {
        if i > 0 { assert t[i] == s[i - 1]; }
      }
    }
    if |s| > 0 {
      var p := s[..|s| - 1];
      LeadingZero(p);
      assert t[..|t| - 1] == "0" + p;
    }
  }

  /**
   * binascii.unhexlify: each pair of hexadecimal digits becomes one byte;
   * None (Python raises) for an odd length or a character that is not a digit.
   */
  function Unhexlify(s: string): (r: Option<seq<byte>>)
    decreases |s|
  {
    if |s| % 2 == 1 then None
    else if |s| == 0 then Some([])
    else
      var hi, lo := HexValue(s[|s| - 2]), HexValue(s[|s| - 1]);
      var rest := Unhexlify(s[..|s| - 2]);
      if hi.None? || lo.None? || rest.None? then None
      else Some(rest.value + [hi.value * 16 + lo.value])
  }

  /** unhexlify succeeds exactly on an even number of hexadecimal digits. */
  lemma {:induction false} UnhexlifyDefined(s: string)
    ensures Unhexlify(s).Some? <==> |s| % 2 == 0 && IsHex(s)
    decreases |s|
  {
    if |s| % 2 == 0 && |s| > 0 {
      var p := s[..|s| - 2];
      UnhexlifyDefined(p);
      if IsHex(s) {
        forall i | 0 <= i < |p| ensures HexValue(p[i]).Some? { assert p[i] == s[i]; }
      }
      if IsHex(p) && HexValue(s[|s| - 2]).Some? && HexValue(s[|s| - 1]).Some? {
        forall i | 0 <= i < |s| ensures HexValue(s[i]).Some? {
          if i < |p| { assert s[i] == p[i]; }
        }
      }
    }
  }

  /** The bytes unhexlify produces, two digits each, denote the number the digits denote. */
  lemma {:induction false} UnhexlifyValue(s: string)
    requires Unhexlify(s).Some?
    ensures IsHex(s) && |Unhexlify(s).value| * 2 == |s| && BytesValue(Unhexlify(s).value) == HexNumber(s)
    decreases |s|
  {
    UnhexlifyDefined(s);
    if |s| > 0 {
      var p := s[..|s| - 2];
      UnhexlifyValue(p);
      var hi, lo := HexValue(s[|s| - 2]).value, HexValue(s[|s| - 1]).value;
      var rest := Unhexlify(p).value;
      var b := rest + [hi * 16 + lo];
      assert Unhexlify(s).value == b;
      assert b[..|b| - 1] == rest;
      assert BytesValue(b) == BytesValue(rest) * 256 + hi * 16 + lo;
      assert s[..|s| - 1][..|s| - 2] == p;
      assert s[..|s| - 1][|s| - 2] == s[|s| - 2];
      assert HexNumber(s) == (HexNumber(p) * 16 + hi) * 16 + lo;
    }
  }

  /** The first byte unhexlify produces comes from the first two digits. */
  lemma {:induction false} UnhexlifyFirst(s: string)
    requires |s| >= 2 && Unhexlify(s).Some?
    ensures HexValue(s[0]).Some? && HexValue(s[1]).Some? && |Unhexlify(s).value| > 0
    ensures Unhexlify(s).value[0] == HexValue(s[0]).value * 16 + HexValue(s[1]).value
    decreases |s|
  {
    UnhexlifyValue(s);
    if |s| > 2 {
      var p := s[..|s| - 2];
      UnhexlifyFirst(p);
      assert p[0] == s[0] && p[1] == s[1];
    }
  }

  /**
   * The JWK exponent bytes: "{0:x}" of the exponent, padded to even length
   * and unhexlified, always decode, denote the exponent, and (for a
   * non-zero exponent) have no leading zero byte.
   */
  lemma ExponentBytes(e: nat)
    ensures Unhexlify(PadEven(ToHex(e))).Some?
    ensures BytesValue(Unhexlify(PadEven(ToHex(e))).value) == e
    ensures e > 0 ==> Unhexlify(PadEven(ToHex(e))).value[0] != 0
  {
    EvenDigits(ToHex(e));
    UnhexlifyDigits(PadEven(ToHex(e)));
    if e > 0 {
      LeadByte(ToHex(e));
    }
  }

  /** Padding to even length keeps the digits hexadecimal and the number they denote. */
  lemma EvenDigits(h: string)
    requires IsHex(h)
    ensures IsHex(PadEven(h)) && HexNumber(PadEven(h)) == HexNumber(h) && |PadEven(h)| % 2 == 0
  {
    if |h| % 2 == 1 {
      LeadingZero(h);
    }
  }

  /** An even number of hexadecimal digits unhexlifies to bytes that denote the same number. */
  lemma UnhexlifyDigits(s: string)
    requires |s| % 2 == 0 && IsHex(s)
    ensures Unhexlify(s).Some? && BytesValue(Unhexlify(s).value) == HexNumber(s)
  {
    UnhexlifyDefined(s);
    UnhexlifyValue(s);
  }

  /** Digits with no leading zero, padded to even length, give a first byte that is not zero. */
  lemma LeadByte(h: string)
    requires |h| >= 1 && IsHex(h) && h[0] != '0' && Unhexlify(PadEven(h)).Some?
    ensures Unhexlify(PadEven(h)).value[0] != 0
  {
    var s := PadEven(h);
    if |h| % 2 == 1 {
      assert |s| >= 2 && s[1] == h[0];
    }
    UnhexlifyFirst(s);
  }

  /** The characters re.sub(r"(\s|:)", "", ...) removes: ':' and ASCII whitespace. */
  predicate IsSeparator(c: char) {
    c == ':' || c == ' ' || c == '\t' || c == '\n' || c == '\r' || c as int == 11 || c as int == 12
  }

  function StripSeparators(s: string): string
  {
    if |s| == 0 then ""
    else (if IsSeparator(s[0]) then "" else [s[0]]) + StripSeparators(s[1..])
  }

  /** No separator survives the stripping. */
  lemma {:induction false} StripLeavesNone(s: string)
    ensures forall i :: 0 <= i < |StripSeparators(s)| ==> !IsSeparator(StripSeparators(s)[i])
    decreases |s|
  {
    if |s| > 0 {
      StripLeavesNone(s[1..]);
      var head, rest := if IsSeparator(s[0]) then "" else [s[0]], StripSeparators(s[1..]);
      assert StripSeparators(s) == head + rest;
      forall i | 0 <= i < |head + rest| ensures !IsSeparator((head + rest)[i]) {
        if i >= |head| {
          assert (head + rest)[i] == rest[i - |head|];
        }
      }
    }
  }

  lemma {:induction false} StripAppend(a: string, b: string)
    ensures StripSeparators(a + b) == StripSeparators(a) + StripSeparators(b)
    decreases |a|
  {
    if |a| == 0 {
      assert a + b == b;
    } else {
      assert (a + b)[1..] == a[1..] + b;
      StripAppend(a[1..], b);
    }
  }

  /** One byte as openssl prints it: two lower-case digits. */
  function HexPair(x: byte): string
  {
    [HexDigit(x / 16), HexDigit(x % 16)]
  }

  /** openssl's rendering of a byte string: each byte's digits followed by its own run of separators. */
  function Render(b: seq<byte>, seps: seq<string>): string
    requires |seps| == |b|
  {
    if |b| == 0 then "" else Render(b[..|b| - 1], seps[..|b| - 1]) + HexPair(b[|b| - 1]) + seps[|b| - 1]
  }

  predicate AllSeparators(s: string) {
    forall i :: 0 <= i < |s| ==> IsSeparator(s[i])
  }

  lemma {:induction false} StripAllSeparators(s: string)
    requires AllSeparators(s)
    ensures StripSeparators(s) == ""
    decreases |s|
  {
    if |s| > 0 {
      StripAllSeparators(s[1..]);
    }
  }

  lemma UnhexlifyAppendPair(s: string, p: seq<byte>, x: byte)
    requires Unhexlify(s) == Some(p)
    ensures Unhexlify(s + HexPair(x)) == Some(p + [x])
  {
    var t := s + HexPair(x);
    assert t[..|t| - 2] == s;
    assert t[|t| - 2] == HexDigit(x / 16) && t[|t| - 1] == HexDigit(x % 16);
    assert x / 16 * 16 + x % 16 == x;
  }

  lemma StripPair(x: byte)
    ensures StripSeparators(HexPair(x)) == HexPair(x)
  {
    var pair := HexPair(x);
    assert !IsSeparator(pair[0]) && !IsSeparator(pair[1]);
    assert pair[1..] == [pair[1]] && pair[1..][1..] == "";
    assert StripSeparators(pair[1..]) == [pair[1]];
    assert pair == [pair[0]] + [pair[1]];
  }

  /**
   * Whatever separators openssl puts between the bytes of the modulus,
   * stripping them and unhexlifying gives back exactly those bytes.
   */
  lemma {:induction false} ModulusBytes(b: seq<byte>, seps: seq<string>)
    requires |seps| == |b|
    requires forall i :: 0 <= i < |seps| ==> AllSeparators(seps[i])
    ensures Unhexlify(StripSeparators(Render(b, seps))) == Some(b)
    decreases |b|
  {
    if |b| > 0 {
      var n := |b|;
      var p, ps := b[..n - 1], seps[..n - 1];
      assert forall i :: 0 <= i < |ps| ==> AllSeparators(ps[i]) by {
        forall i | 0 <= i < |ps| ensures AllSeparators(ps[i]) { assert ps[i] == seps[i]; }
      }
      ModulusBytes(p, ps);
      ModulusLast(b, seps);
    }
  }

  /** The step of ModulusBytes, for the last byte of `b`. */
  lemma ModulusLast(b: seq<byte>, seps: seq<string>)
    requires |seps| == |b| > 0 && AllSeparators(seps[|b| - 1])
    requires Unhexlify(StripSeparators(Render(b[..|b| - 1], seps[..|b| - 1]))) == Some(b[..|b| - 1])
    ensures Unhexlify(StripSeparators(Render(b, seps))) == Some(b)
  {
    var n := |b|;
    var p, ps, x := b[..n - 1], seps[..n - 1], b[n - 1];
    var head := Render(p, ps);
    assert Render(b, seps) == head + HexPair(x) + seps[n - 1];
    ModulusStep(head, p, x, seps[n - 1]);
    SnocLast(b);
  }

  /** One more byte and its separators add that byte to what the rendering unhexlifies to. */
  lemma ModulusStep(head: string, p: seq<byte>, x: byte, sep: string)
    requires Unhexlify(StripSeparators(head)) == Some(p) && AllSeparators(sep)
    ensures Unhexlify(StripSeparators(head + HexPair(x) + sep)) == Some(p + [x])
  {
    var pair := HexPair(x);
    StripAppend(head + pair, sep);
    StripAppend(head, pair);
    StripAllSeparators(sep);
    StripPair(x);
    assert StripSeparators(head + pair + sep) == StripSeparators(head) + pair;
    UnhexlifyAppendPair(StripSeparators(head), p, x);
  }
}
