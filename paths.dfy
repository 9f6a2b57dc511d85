/**
 * The three posixpath operations the client and the configuration manager
 * use on file names: join, dirname and abspath (without normpath).
 */
module Paths {
  import opened Wrappers
  import Text

  predicate IsAbs(p: string) {
    |p| > 0 && p[0] == '/'
  }

  /**
   * posixpath.join(a, b): `b` when it is absolute; otherwise `b` appended
   * to `a`, with a '/' between them unless `a` is empty or ends with one.
   */
  function Join(a: string, b: string): (r: string)
    ensures IsAbs(b) ==> r == b
    ensures !IsAbs(b) && a != [] && a[|a| - 1] != '/' ==> r == a + "/" + b
    ensures !IsAbs(b) && (a == [] || a[|a| - 1] == '/') ==> r == a + b
    ensures !IsAbs(b) ==> Text.StartsWith(r, a)
  {
    if IsAbs(b) then b
    else if a == [] || a[|a| - 1] == '/' then a + b
    else a + "/" + b
  }

  /** posixpath.abspath(p) relative to the working directory `cwd`, without normpath. */
  function AbsPath(cwd: string, p: string): (r: string)
    ensures IsAbs(cwd) ==> IsAbs(r)
    ensures IsAbs(p) ==> r == p
    ensures !IsAbs(p) && cwd != [] && cwd[|cwd| - 1] != '/' ==> r == cwd + "/" + p
    ensures !IsAbs(p) && (cwd == [] || cwd[|cwd| - 1] == '/') ==> r == cwd + p
  {
    Join(cwd, p)
  }

  predicate AllSlashes(s: string) {
    forall i :: 0 <= i < |s| ==> s[i] == '/'
  }

  /** `s` without its trailing '/' characters (str.rstrip('/')). */
  function RStripSlashes(s: string): (r: string)
    ensures |r| <= |s| && r == s[..|r|]
    ensures r == [] || r[|r| - 1] != '/'
    ensures AllSlashes(s[|r|..])
  {
    if s == [] || s[|s| - 1] != '/' then s
    else RStripSlashes(s[..|s| - 1])
  }

  /**
   * posixpath.dirname(p): everything up to the last '/', with trailing
   * slashes removed unless the head consists of slashes only.
   */
  function Dirname(p: string): string
  {
    var i := match Text.LastIndexOf(p, '/') case None => 0 case Some(k) => k + 1;
    var head := p[..i];
    if head != [] && !AllSlashes(head) then RStripSlashes(head) else head
  }

  /** The directory of a file joined onto a directory is that directory. */
  lemma DirnameJoin(dir: string, name: string)
    requires dir != [] && dir[|dir| - 1] != '/'
    requires '/' !in name
    ensures Dirname(Join(dir, name)) == dir
  {
    var p := dir + "/" + name;
    assert Join(dir, name) == p;
    assert p[|dir|] == '/' && p[|dir| + 1..] == name;
    assert Text.LastIndexOf(p, '/') == Some(|dir|);
    var head := p[..|dir| + 1];
    assert head == dir + "/";
    assert !AllSlashes(head) by {
      assert head[|dir| - 1] == dir[|dir| - 1];
    }
    assert head[..|dir|] == dir;
    assert RStripSlashes(head) == RStripSlashes(dir);
  }

  /** A file name without '/' sits in the current directory. */
  lemma DirnameBare(name: string)
    requires '/' !in name
    ensures Dirname(name) == ""
  {
  }
}
