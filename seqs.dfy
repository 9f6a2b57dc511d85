/**
 * Small facts about sequence shapes and concatenation. Stated once, in
 * their own module, so that proofs elsewhere can cite them instead of
 * asking the solver for sequence extensionality in a large context.
 */
module Seqs {
  lemma Single<T>(s: seq<T>)
    requires |s| == 1
    ensures s == [s[0]]
  {
  }

  lemma Pair<T>(s: seq<T>)
    requires |s| == 2
    ensures s == [s[0], s[1]]
  {
  }

  lemma Triple<T>(s: seq<T>)
    requires |s| == 3
    ensures s == [s[0], s[1], s[2]]
  {
  }

  lemma ConsTail3<T>(x: T, y: T, z: T, r: seq<T>)
    ensures ([x, y, z] + r)[3..] == r
    ensures ([x, y, z] + r)[0] == x && ([x, y, z] + r)[1] == y && ([x, y, z] + r)[2] == z
  {
  }

  lemma Group<T>(s: seq<T>)
    requires |s| >= 3
    ensures s == [s[0], s[1], s[2]] + s[3..]
  {
  }

  lemma SnocLast<T>(s: seq<T>)
    requires |s| > 0
    ensures s[..|s| - 1] + [s[|s| - 1]] == s
  {
  }

  lemma ConsTail<T>(x: T, r: seq<T>)
    ensures ([x] + r)[1..] == r
  {
  }

  lemma PairCons<T>(x: T, y: T, r: seq<T>)
    ensures [x] + ([y] + r) == [x, y] + r
    ensures ([x, y] + r)[1..][1..] == r
  {
  }

  lemma Assoc2<T>(t: seq<T>, a: seq<T>, b: seq<T>)
    ensures t + a + b == t + (a + b)
  {
  }

  lemma Assoc3<T>(t: seq<T>, a: seq<T>, b: seq<T>, c: seq<T>)
    ensures t + a + b + c == t + (a + b + c)
  {
  }

  lemma Assoc4<T>(t: seq<T>, a: seq<T>, b: seq<T>, c: seq<T>, d: seq<T>)
    ensures t + a + b + c + d == t + (a + b + c + d)
  {
  }

  lemma PairAssoc<T>(t: seq<T>, x: T, y: T, r: seq<T>)
    ensures t + ([x, y] + r) == t + [x] + [y] + r
  {
    assert [x, y] == [x] + [y];
  }
}
