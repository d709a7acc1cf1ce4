/**
  POSIX path handling as Python's `posixpath` does it (`join`, `dirname`,
  `basename`), plus the set of directories that `os.makedirs` leaves behind.
  Paths are plain strings; no normalisation of `.`, `..` or repeated slashes.
*/
module Paths {
  import opened Text

  /** `os.path.join(a, b)`: an absolute `b` replaces `a`, otherwise one slash separates them. */
  function JoinPath(a: string, b: string): (r: string)
    ensures |r| >= |b|
  {
    if b != [] && b[0] == '/' then b
    else if a == [] || a[|a| - 1] == '/' then a + b
    else a + ['/'] + b
  }

  /**
    The joined path ends with `b`; it starts with `a` and is longer than `a`
    when `b` is a non-empty relative path, and it is `b` when `b` is absolute.
  */
  lemma JoinPathShape(a: string, b: string)
    ensures var r := JoinPath(a, b);
      && EndsWith(r, b)
      && (!(b != [] && b[0] == '/') ==> StartsWith(r, a) && |r| >= |a| + |b|)
      && (b != [] && b[0] == '/' ==> r == b)
  {
    var r := JoinPath(a, b);
    if !(b != [] && b[0] == '/') {
      var sep := if a == [] || a[|a| - 1] == '/' then [] else ['/'];
      assert r == a + sep + b;
      assert r[..|a|] == a;
      assert r[|r| - |b|..] == b;
    }
  }

  /** The index of the last `/` in `p`, or -1 when there is none. */
  function LastSlash(p: string): (i: int)
    ensures -1 <= i < |p|
  {
    if p == [] then -1
    else if p[|p| - 1] == '/' then |p| - 1
    else LastSlash(p[..|p| - 1])
  }

  /** `LastSlash` finds a slash, and no slash follows it. */
  lemma {:induction false} LastSlashIsLast(p: string)
    ensures LastSlash(p) >= 0 ==> p[LastSlash(p)] == '/'
    ensures forall k :: LastSlash(p) < k < |p| ==> p[k] != '/'
    decreases |p|
  {
    if p != [] && p[|p| - 1] != '/' {
      LastSlashIsLast(p[..|p| - 1]);
    }
  }

  /** `os.path.basename(p)`: the text after the last slash. */
  function Basename(p: string): (r: string)
    ensures '/' !in r
    ensures EndsWith(p, r)
  {
    LastSlashIsLast(p);
    p[LastSlash(p) + 1..]
  }

  predicate AllSlashes(s: string) {
    forall k :: 0 <= k < |s| ==> s[k] == '/'
  }

  /**
    `os.path.dirname(p)`: everything up to the last slash, with trailing
    slashes removed unless the head consists of slashes only.
  */
  function Dirname(p: string): (r: string)
    ensures |r| <= |p|
  {
    var head := p[..LastSlash(p) + 1];
    if head != [] && !AllSlashes(head) then TrimEnd(head, {'/'}) else head
  }

  /**
    The directory name is a prefix of the path that stops before the base
    name, and only slashes separate the two; a path without a slash has an
    empty directory name.
  */
  lemma DirnameShape(p: string)
    ensures var r := Dirname(p);
      && |r| <= |p| - |Basename(p)| && r == p[..|r|]
      && (forall k :: |r| <= k < |p| - |Basename(p)| ==> p[k] == '/')
      && ('/' !in p ==> r == [])
  {
    LastSlashIsLast(p);
  }

  /**
    The directories that exist after `os.makedirs(p)`: `p` itself and each
    parent that `dirname` reaches from it.
  */
  function Ancestors(p: string): (r: set<string>)
    ensures p in r
    decreases |p|
  {
    var parent := Dirname(p);
    if parent == [] || |parent| >= |p| then {p}
    else {p} + Ancestors(parent)
  }

  /** The parents of a directory that `os.makedirs(p)` leaves behind are among them too. */
  lemma {:induction false} AncestorsClosed(p: string)
    ensures forall q :: q in Ancestors(p) ==> Ancestors(q) <= Ancestors(p)
    decreases |p|
  {
    var parent := Dirname(p);
    if parent != [] && |parent| < |p| {
      AncestorsClosed(parent);
    }
  }

  /** Every directory that `os.makedirs(p)` creates is a prefix of `p`, no longer than `p`. */
  lemma {:induction false} AncestorsArePrefixes(p: string)
    ensures forall q :: q in Ancestors(p) ==> StartsWith(p, q)
    decreases |p|
  {
    var parent := Dirname(p);
    if parent != [] && |parent| < |p| {
      DirnameShape(p);
      AncestorsArePrefixes(parent);
      forall q | q in Ancestors(parent)
        ensures StartsWith(p, q)
      {
        assert p[..|q|] == parent[..|q|];
      }
    }
  }
}
