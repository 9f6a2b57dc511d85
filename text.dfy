/**
 * The string operations the client and the configuration manager use:
 * Python's str.split, str.join, str.rsplit(sep, 1), str.rpartition,
 * str.replace(c, ""), str.startswith, ASCII upper/lower case and
 * textwrap.wrap applied to text without whitespace.
 */
module Text {
  import opened Wrappers

  /** `sep` occurs in `s` at position `j`. */
  predicate OccursAt(s: string, sep: string, j: int) {
    0 <= j && j + |sep| <= |s| && s[j..j + |sep|] == sep
  }

  ghost predicate Contains(s: string, sep: string) {
    exists j :: OccursAt(s, sep, j)
  }

  predicate StartsWith(s: string, prefix: string) {
    |prefix| <= |s| && s[..|prefix|] == prefix
  }

  /** Position of the leftmost occurrence of `sep` in `s` (Python's str.find). */
  function IndexOf(s: string, sep: string): (r: Option<nat>)
    requires sep != []
    ensures r.Some? ==> OccursAt(s, sep, r.value)
    ensures r.Some? ==> forall j :: 0 <= j < r.value ==> !OccursAt(s, sep, j)
    ensures r.None? ==> forall j :: !OccursAt(s, sep, j)
    decreases |s|
  {
    if |s| < |sep| then None
    else if s[..|sep|] == sep then Some(0)
    else
      var rest := IndexOf(s[1..], sep);
      OccursShift(s, sep);
      match rest
      case None => None
      case Some(i) => Some(i + 1)
  }

  lemma OccursShift(s: string, sep: string)
    requires |s| >= 1
    ensures forall j {:trigger OccursAt(s, sep, j)} :: 1 <= j ==> (OccursAt(s, sep, j) <==> OccursAt(s[1..], sep, j - 1))
  {
    forall j | 1 <= j ensures OccursAt(s, sep, j) <==> OccursAt(s[1..], sep, j - 1) {
      if j + |sep| <= |s| {
        var x, y := s[j..j + |sep|], s[1..][j - 1..j - 1 + |sep|];
        assert forall t :: 0 <= t < |sep| ==> x[t] == y[t];
        assert x == y;
      }
    }
  }

  /** `xs` joined with `sep` between consecutive elements (Python's sep.join(xs)). */
  function Join(xs: seq<string>, sep: string): string
  {
    if |xs| == 0 then ""
    else if |xs| == 1 then xs[0]
    else xs[0] + sep + Join(xs[1..], sep)
  }

  /**
   * Python's s.split(sep) for a non-empty separator: the pieces between
   * the non-overlapping leftmost occurrences of `sep`. Joining the pieces
   * with `sep` gives back `s`, and no piece contains `sep`.
   */
  function Split(s: string, sep: string): (r: seq<string>)
    requires sep != []
    ensures |r| >= 1
    ensures forall k :: 0 <= k < |r| ==> !Contains(r[k], sep)
    ensures Join(r, sep) == s
    decreases |s|
  {
    match IndexOf(s, sep)
    case None => [s]
    case Some(i) =>
      var head, tail := s[..i], s[i + |sep|..];
      assert !Contains(head, sep) by {
        forall j | OccursAt(head, sep, j) ensures false {
          assert s[j..j + |sep|] == head[j..j + |sep|];
          assert OccursAt(s, sep, j);
        }
      }
      var rest := Split(tail, sep);
      assert s == head + sep + tail;
      [head] + rest
  }

  /**
   * The pieces of a split are recovered from their join, when the
   * separator's first character occurs in none of them.
   */
  lemma {:induction false} SplitJoin(xs: seq<string>, sep: string)
    requires |xs| >= 1 && sep != []
    requires forall k :: 0 <= k < |xs| ==> sep[0] !in xs[k]
    ensures Split(Join(xs, sep), sep) == xs
    decreases |xs|
  {
    var s := Join(xs, sep);
    if |xs| == 1 {
      NotContainsHead(s, sep);
    } else {
      var tail := Join(xs[1..], sep);
      assert s == xs[0] + sep + tail;
      FirstOccurrence(xs[0], sep, tail);
      assert s[|xs[0]| + |sep|..] == tail;
      SplitJoin(xs[1..], sep);
      assert [xs[0]] + xs[1..] == xs;
    }
  }

  lemma FirstOccurrence(a: string, sep: string, b: string)
    requires sep != [] && sep[0] !in a
    ensures IndexOf(a + sep + b, sep) == Some(|a|)
  {
    var s := a + sep + b;
    assert s[|a|..|a| + |sep|] == sep;
    assert OccursAt(s, sep, |a|);
    forall j | 0 <= j < |a| ensures !OccursAt(s, sep, j) {
      if j + |sep| <= |s| {
        assert s[j..j + |sep|][0] == a[j];
      }
    }
  }

  /** A string that lacks the separator's first character is not split. */
  lemma NotContainsHead(s: string, sep: string)
    requires sep != [] && sep[0] !in s
    ensures !Contains(s, sep) && Split(s, sep) == [s]
  {
    forall j ensures !OccursAt(s, sep, j) {
      if 0 <= j && j + |sep| <= |s| {
        assert s[j..j + |sep|][0] == s[j];
      }
    }
  }

  /** A character of `s` is an occurrence of the one-character separator. */
  lemma CharContains(s: string, c: char)
    requires c in s
    ensures Contains(s, [c])
  {
    var j :| 0 <= j < |s| && s[j] == c;
    assert s[j..j + 1] == [c];
    assert OccursAt(s, [c], j);
  }

  lemma NotContainsChar(s: string, c: char)
    requires c !in s
    ensures !Contains(s, [c])
  {
    forall j ensures !OccursAt(s, [c], j) {
      if 0 <= j < |s| {
        assert s[j..j + 1] == [s[j]];
      }
    }
  }

  /** Position of the rightmost `c` in `s` (Python's str.rfind). */
  function LastIndexOf(s: string, c: char): (r: Option<nat>)
    ensures r.Some? ==> r.value < |s| && s[r.value] == c && c !in s[r.value + 1..]
    ensures r.None? ==> c !in s
  {
    if |s| == 0 then None
    else if s[|s| - 1] == c then Some(|s| - 1)
    else
      var r := LastIndexOf(s[..|s| - 1], c);
      assert s == s[..|s| - 1] + [s[|s| - 1]];
      r
  }

  /** Python's s.rsplit(c, 1)[0]: everything before the last `c`, or all of `s`. */
  function BeforeLast(s: string, c: char): string
  {
    match LastIndexOf(s, c)
    case None => s
    case Some(i) => s[..i]
  }

  lemma BeforeLastOf(stem: string, c: char, ext: string)
    requires c !in ext
    ensures BeforeLast(stem + [c] + ext, c) == stem
  {
    var s := stem + [c] + ext;
    assert s[|stem|] == c;
    assert s[|stem| + 1..] == ext;
    assert s[..|stem|] == stem;
  }

  /** Python's s.rpartition(c) as (head, tail): the separator itself is dropped. */
  function RPartition(s: string, c: char): (r: (string, string))
    ensures c !in r.1
    ensures c in s ==> s == r.0 + [c] + r.1
    ensures c !in s ==> r == ("", s)
  {
    match LastIndexOf(s, c)
    case None => ("", s)
    case Some(i) =>
      assert s == s[..i] + [c] + s[i + 1..];
      (s[..i], s[i + 1..])
  }

  /** Python's s.replace([c], ""): `s` with every `c` removed. */
  function Remove(s: string, c: char): (r: string)
    ensures c !in r
    ensures |r| <= |s|
  {
    if |s| == 0 then ""
    else (if s[0] == c then "" else [s[0]]) + Remove(s[1..], c)
  }

  lemma {:induction false} RemoveAppend(a: string, b: string, c: char)
    ensures Remove(a + b, c) == Remove(a, c) + Remove(b, c)
    decreases |a|
  {
    if |a| > 0 {
      assert (a + b)[1..] == a[1..] + b;
      RemoveAppend(a[1..], b, c);
    } else {
      assert a + b == b;
    }
  }

  lemma {:induction false} RemoveAbsent(s: string, c: char)
    requires c !in s
    ensures Remove(s, c) == s
    decreases |s|
  {
    if |s| > 0 {
      RemoveAbsent(s[1..], c);
    }
  }

  /** The concatenation of a sequence of strings. */
  function Concat(xs: seq<string>): string
  {
    if |xs| == 0 then "" else xs[0] + Concat(xs[1..])
  }

  /**
   * textwrap.wrap(s, width) for a string `s` without whitespace: the
   * consecutive pieces of `width` characters, the last one possibly shorter;
   * an empty string gives no lines.
   */
  function Chunks(s: string, width: nat): (r: seq<string>)
    requires width > 0
    ensures Concat(r) == s
    ensures forall k :: 0 <= k < |r| ==> 0 < |r[k]| <= width
    ensures forall k :: 0 <= k < |r| - 1 ==> |r[k]| == width
    decreases |s|
  {
    if |s| == 0 then []
    else if |s| <= width then [s]
    else
      var rest := Chunks(s[width..], width);
      assert s == s[..width] + s[width..];
      [s[..width]] + rest
  }

  /** Removing the `c` separators from a join gives the concatenation of the pieces. */
  lemma {:induction false} RemoveJoin(xs: seq<string>, c: char)
    requires forall k :: 0 <= k < |xs| ==> c !in xs[k]
    ensures Remove(Join(xs, [c]), c) == Concat(xs)
    decreases |xs|
  {
    if |xs| == 1 {
      RemoveAbsent(xs[0], c);
    } else if |xs| > 1 {
      RemoveAppend(xs[0] + [c], Join(xs[1..], [c]), c);
      RemoveAppend(xs[0], [c], c);
      RemoveAbsent(xs[0], c);
      RemoveJoin(xs[1..], c);
    }
  }

  predicate IsAsciiLower(c: char) { 'a' <= c <= 'z' }
  predicate IsAsciiUpper(c: char) { 'A' <= c <= 'Z' }

  /**
   * str.upper() on ASCII letters; other characters are kept. Lowering
   * the result gives what lowering the input gives, so each lower-case
   * letter became the upper-case form of that same letter.
   */
  function Upper(s: string): (r: string)
    ensures |r| == |s|
    ensures forall i :: 0 <= i < |s| ==> !IsAsciiLower(r[i])
    ensures forall i :: 0 <= i < |s| && !IsAsciiLower(s[i]) ==> r[i] == s[i]
    ensures Lower(r) == Lower(s)
  {
    var r := seq(|s|, i requires 0 <= i < |s| =>
      if IsAsciiLower(s[i]) then (s[i] as int - 32) as char else s[i]);
    assert forall i :: 0 <= i < |s| ==> Lower(r)[i] == Lower(s)[i];
    r
  }

  /** str.lower() on ASCII letters; other characters are kept. */
  function Lower(s: string): (r: string)
    ensures |r| == |s|
    ensures forall i :: 0 <= i < |s| ==> !IsAsciiUpper(r[i])
    ensures forall i :: 0 <= i < |s| && !IsAsciiUpper(s[i]) ==> r[i] == s[i]
  {
    seq(|s|, i requires 0 <= i < |s| =>
      if IsAsciiUpper(s[i]) then (s[i] as int + 32) as char else s[i])
  }
}
