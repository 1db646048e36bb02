/**
 * The parts of Python's `os.path` the generator uses on POSIX paths:
 * joining, the final component, the directory part and the extension.
 */
module Paths {
  import opened Strings

  /** `os.path.join(a, b)`: an absolute `b` wins, an empty `a` or one ending in `/` adds no separator. */
  function PathJoin(a: string, b: string): string {
    if b != [] && b[0] == '/' then b
    else if a == [] || a[|a| - 1] == '/' then a + b
    else a + "/" + b
  }

  /** `os.path.basename`: what follows the last `/`. */
  function Basename(p: string): (r: string)
    ensures '/' !in r && EndsWith(p, r)
  {
    if p == [] || p[|p| - 1] == '/' then []
    else
      var r := Basename(p[..|p| - 1]) + [p[|p| - 1]];
      assert p[|p| - |r|..] == p[..|p| - 1][|p| - |r|..] + [p[|p| - 1]];
      r
  }

  /** The position of the last `.` in `s`, if any. */
  function LastDot(s: string): (r: Option<nat>)
    ensures r.Some? ==> r.value < |s| && s[r.value] == '.' && '.' !in s[r.value + 1..]
    ensures r.None? ==> '.' !in s
  {
    if s == [] then None
    else if s[|s| - 1] == '.' then Some(|s| - 1)
    else
      var r := LastDot(s[..|s| - 1]);
      assert r.Some? ==> s[r.value + 1..] == s[..|s| - 1][r.value + 1..] + [s[|s| - 1]];
      assert r.None? ==> s == s[..|s| - 1] + [s[|s| - 1]];
      r
  }

  /**
   * `os.path.splitext(name)[0]`: the name without its last extension; dots
   * that only lead the name are not an extension.
   */
  function Stem(name: string): string {
    match LastDot(name)
      case None => name
      case Some(d) => if exists j :: 0 <= j < d && name[j] != '.' then name[..d] else name
  }

  /** The position just after the last `/` of `p` (0 when there is none). */
  function AfterLastSlash(p: string): (r: nat)
    ensures r <= |p| && '/' !in p[r..]
    ensures r > 0 ==> p[r - 1] == '/'
  {
    if p == [] || p[|p| - 1] == '/' then |p|
    else
      var r := AfterLastSlash(p[..|p| - 1]);
      assert p[r..] == p[..|p| - 1][r..] + [p[|p| - 1]];
      r
  }

  /** Whether `s` is made of slashes only. */
  predicate AllSlashes(s: string) {
    forall i :: 0 <= i < |s| ==> s[i] == '/'
  }

  /**
   * `os.path.split(p)[0]`: everything before the final component, with
   * trailing slashes dropped unless the head is nothing but slashes.
   */
  function Head(p: string): string {
    var h := p[..AfterLastSlash(p)];
    if h != [] && !AllSlashes(h) then RStripChar(h, '/') else h
  }

  /** The base name is exactly the tail `os.path.split` leaves after the head's slashes. */
  lemma {:induction false} BasenameIsTail(p: string)
    ensures Basename(p) == p[AfterLastSlash(p)..]
    decreases |p|
  {
    if p != [] && p[|p| - 1] != '/' {
      BasenameIsTail(p[..|p| - 1]);
      assert p[AfterLastSlash(p)..] == p[..|p| - 1][AfterLastSlash(p)..] + [p[|p| - 1]];
    }
  }
}
