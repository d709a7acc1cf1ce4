/** Option, the result of lookups and of parses that may fail. */
module Wrappers {
  datatype Option<+T> = None | Some(value: T)
}

/**
  The handful of Python string operations that pmos-backup relies on
  (`in`, `startswith`, `endswith`, `split`, `join`, `strip`), written over
  `seq<char>`. Each function states what it means in its contract; the
  lemmas give the round trips between splitting and joining.
*/
module Text {
  import opened Wrappers

  /** A sequence of at least two elements is its front followed by its last two. */
  lemma LastTwo<T>(s: seq<T>)
    requires |s| >= 2
    ensures s == s[..|s| - 2] + [s[|s| - 2]] + [s[|s| - 1]]
  {
  }

  /** Concatenation is associative. */
  lemma AppendAssociative<T>(p: seq<T>, x: seq<T>, y: seq<T>)
    ensures p + x + y == p + (x + y)
  {
  }

  /** Python's `s.startswith(p)`. */
  predicate StartsWith(s: string, p: string) {
    |p| <= |s| && s[..|p|] == p
  }

  /** Python's `s.endswith(p)`. */
  predicate EndsWith(s: string, p: string) {
    |p| <= |s| && s[|s| - |p|..] == p
  }

  /** Python's `t in s` for strings: `t` occurs somewhere in `s`. */
  predicate Contains(s: string, t: string)
    decreases |s|
  {
    StartsWith(s, t) || (s != [] && Contains(s[1..], t))
  }

  /** Contains means "occurs at some offset". */
  lemma {:induction false} ContainsAt(s: string, t: string, i: nat)
    requires i + |t| <= |s| && s[i..i + |t|] == t
    ensures Contains(s, t)
    decreases i
  {
    if i == 0 {
      assert s[..|t|] == t;
    } else {
      assert s[1..][i - 1..i - 1 + |t|] == s[i..i + |t|];
      ContainsAt(s[1..], t, i - 1);
    }
  }

  /** Anything that contains `t` still contains it after text is added on either side. */
  lemma {:induction false} ContainsInfix(a: string, m: string, b: string, t: string)
    requires Contains(m, t)
    ensures Contains(a + m + b, t)
    decreases |m|
  {
    var i := OffsetOf(m, t);
    assert (a + m + b)[|a| + i..|a| + i + |t|] == m[i..i + |t|];
    ContainsAt(a + m + b, t, |a| + i);
  }

  /** An offset at which `t` occurs in `s`, when `Contains(s, t)`. */
  function OffsetOf(s: string, t: string): (i: nat)
    requires Contains(s, t)
    ensures i + |t| <= |s| && s[i..i + |t|] == t
    decreases |s|
  {
    if StartsWith(s, t) then 0
    else
      var j := OffsetOf(s[1..], t);
      assert s[1..][j..j + |t|] == s[j + 1..j + 1 + |t|];
      j + 1
  }

  /**
    Python's `s.split(c, maxsplit=1)` unpacked into two names: the text
    before the first `c` and the text after it, or None when `c` does not
    occur (the unpacking raises ValueError then).
  */
  function SplitFirst(s: string, c: char): (r: Option<(string, string)>)
    ensures r.None? <==> c !in s
    ensures r.Some? ==> |r.value.1| < |s|
  {
    if s == [] then None
    else if s[0] == c then Some(([], s[1..]))
    else
      match SplitFirst(s[1..], c)
      case None => None
      case Some(parts) => Some(([s[0]] + parts.0, parts.1))
  }

  /** The split puts back together to `s`, and its head holds no `c`. */
  lemma {:induction false} SplitFirstShape(s: string, c: char)
    ensures var r := SplitFirst(s, c);
      r.Some? ==> s == r.value.0 + [c] + r.value.1 && c !in r.value.0
    decreases |s|
  {
    if s != [] && s[0] == c {
      assert s == [] + [c] + s[1..];
    } else if s != [] {
      SplitFirstShape(s[1..], c);
      var r := SplitFirst(s[1..], c);
      if r.Some? {
        var a, b := r.value.0, r.value.1;
        assert s == [s[0]] + s[1..];
        AppendAssociative([s[0]], a + [c], b);
        AppendAssociative([s[0]], a, [c]);
      }
    }
  }

  /** A string has only one decomposition around a `c` whose head lacks `c`. */
  lemma {:induction false} FirstSeparatorUnique(a: string, b: string, a': string, b': string, c: char)
    requires a + [c] + b == a' + [c] + b'
    requires c !in a && c !in a'
    ensures a == a' && b == b'
    decreases |a|
  {
    var s := a + [c] + b;
    assert s[|a|] == c && s[|a'|] == c;
    if a != [] && a' != [] {
      assert (a + [c] + b)[0] == (a' + [c] + b')[0];
      assert (a + [c] + b)[1..] == a[1..] + [c] + b;
      assert (a' + [c] + b')[1..] == a'[1..] + [c] + b';
      FirstSeparatorUnique(a[1..], b, a'[1..], b', c);
      assert a == [a[0]] + a[1..] && a' == [a'[0]] + a'[1..];
    } else if a == [] && a' == [] {
      assert b == (a + [c] + b)[1..] && b' == (a' + [c] + b')[1..];
    }
  }

  /** The split at the first `c` is the only decomposition whose head lacks `c`. */
  lemma SplitFirstUnique(s: string, c: char, a: string, b: string)
    requires s == a + [c] + b && c !in a
    ensures SplitFirst(s, c) == Some((a, b))
  {
    var r := SplitFirst(s, c);
    SplitFirstShape(s, c);
    FirstSeparatorUnique(a, b, r.value.0, r.value.1, c);
  }

  /** Python's `s.split(c)` for a one-character separator. */
  function Split(s: string, c: char): (parts: seq<string>)
    ensures |parts| >= 1
    ensures forall k :: 0 <= k < |parts| ==> c !in parts[k]
    decreases |s|
  {
    match SplitFirst(s, c)
    case None => [s]
    case Some(parts) =>
      SplitFirstShape(s, c);
      [parts.0] + Split(parts.1, c)
  }

  /** Splitting at every `c` gives one piece more than there are `c`s. */
  lemma {:induction false} SplitCount(s: string, c: char)
    ensures |Split(s, c)| == multiset(s)[c] + 1
    decreases |s|
  {
    match SplitFirst(s, c)
    case None =>
      assert c !in multiset(s);
    case Some(parts) =>
      SplitFirstShape(s, c);
      assert c !in multiset(parts.0);
      SplitCount(parts.1, c);
      assert multiset(s) == multiset(parts.0) + multiset{c} + multiset(parts.1);
  }

  /** A string with one `c` splits into the text before and after it. */
  lemma SplitPair(a: string, b: string, c: char)
    requires c !in a && c !in b
    ensures Split(a + [c] + b, c) == [a, b]
  {
    SplitFirstUnique(a + [c] + b, c, a, b);
  }

  /** Python's `c.join(parts)`. */
  function Join(parts: seq<string>, c: char): string
  {
    if |parts| == 0 then []
    else if |parts| == 1 then parts[0]
    else parts[0] + [c] + Join(parts[1..], c)
  }

  /** Joining the pieces of a split gives back the original string. */
  lemma {:induction false} JoinSplit(s: string, c: char)
    ensures Join(Split(s, c), c) == s
    decreases |s|
  {
    match SplitFirst(s, c)
    case None =>
    case Some(parts) =>
      SplitFirstShape(s, c);
      JoinSplit(parts.1, c);
      assert Split(s, c) == [parts.0] + Split(parts.1, c);
  }

  /** Splitting a join of separator-free pieces gives back the pieces. */
  lemma {:induction false} SplitJoin(parts: seq<string>, c: char)
    requires |parts| >= 1
    requires forall k :: 0 <= k < |parts| ==> c !in parts[k]
    ensures Split(Join(parts, c), c) == parts
    decreases |parts|
  {
    if |parts| > 1 {
      var first, rest := parts[0], parts[1..];
      var joined := Join(rest, c);
      assert Join(parts, c) == first + [c] + joined;
      assert c !in first;
      SplitFirstUnique(Join(parts, c), c, first, joined);
      assert forall k :: 0 <= k < |rest| ==> rest[k] == parts[k + 1];
      SplitJoin(rest, c);
      assert Split(Join(parts, c), c) == [first] + rest;
      assert [first] + rest == parts;
    } else {
      assert c !in parts[0];
    }
  }

  /** Joining one more piece puts a separator in front of it. */
  lemma {:induction false} JoinSnoc(parts: seq<string>, last: string, c: char)
    requires |parts| >= 1
    ensures Join(parts + [last], c) == Join(parts, c) + [c] + last
    decreases |parts|
  {
    if |parts| > 1 {
      assert (parts + [last])[1..] == parts[1..] + [last];
      JoinSnoc(parts[1..], last, c);
    }
  }

  /** The characters for which Python's `str.isspace` holds, restricted to the Latin-1 range. */
  const Whitespace: set<char> :=
    {' ', '\t', '\n', '\U{0B}', '\U{0C}', '\r', '\U{1C}', '\U{1D}', '\U{1E}', '\U{1F}', '\U{85}', '\U{A0}'}

  /** Python's `str.isspace` on one character. */
  predicate IsSpace(ch: char) {
    ch in Whitespace
  }

  /** Python's `s.rstrip(chars)`: drop every trailing character in `drop`. */
  function TrimEnd(s: string, drop: set<char>): (r: string)
    ensures |r| <= |s| && r == s[..|r|]
    ensures r == [] || r[|r| - 1] !in drop
    ensures forall k :: |r| <= k < |s| ==> s[k] in drop
  {
    if s != [] && s[|s| - 1] in drop then TrimEnd(s[..|s| - 1], drop) else s
  }

  /** Python's `s.lstrip(chars)`: drop every leading character in `drop`. */
  function TrimStart(s: string, drop: set<char>): (r: string)
    ensures |r| <= |s| && r == s[|s| - |r|..]
    ensures r == [] || r[0] !in drop
    ensures forall k :: 0 <= k < |s| - |r| ==> s[k] in drop
  {
    if s != [] && s[0] in drop then TrimStart(s[1..], drop) else s
  }

  /** Trailing characters from `drop` after a string that does not end in one are all removed. */
  lemma {:induction false} TrimEndAppend(s: string, t: string, drop: set<char>)
    requires s == [] || s[|s| - 1] !in drop
    requires forall k :: 0 <= k < |t| ==> t[k] in drop
    ensures TrimEnd(s + t, drop) == s
    decreases |t|
  {
    if t == [] {
      assert s + t == s;
    } else {
      assert (s + t)[..|s + t| - 1] == s + t[..|t| - 1];
      TrimEndAppend(s, t[..|t| - 1], drop);
    }
  }

  /** Leading characters from `drop` before a string that does not start with one are all removed. */
  lemma {:induction false} TrimStartPrepend(t: string, s: string, drop: set<char>)
    requires s == [] || s[0] !in drop
    requires forall k :: 0 <= k < |t| ==> t[k] in drop
    ensures TrimStart(t + s, drop) == s
    decreases |t|
  {
    if t == [] {
      assert t + s == s;
    } else {
      assert (t + s)[1..] == t[1..] + s;
      TrimStartPrepend(t[1..], s, drop);
    }
  }

  /** Python's `s.strip()` (whitespace on both ends). */
  function Strip(s: string): (r: string)
    ensures r == [] || (!IsSpace(r[0]) && !IsSpace(r[|r| - 1]))
  {
    var r := TrimStart(TrimEnd(s, Whitespace), Whitespace);
    assert r != [] ==> r[|r| - 1] == TrimEnd(s, Whitespace)[|TrimEnd(s, Whitespace)| - 1];
    r
  }

  /** Python's `s.rstrip()`. */
  function RStrip(s: string): (r: string)
    ensures r == [] || !IsSpace(r[|r| - 1])
    ensures |r| <= |s| && r == s[..|r|] && forall k :: |r| <= k < |s| ==> IsSpace(s[k])
  {
    TrimEnd(s, Whitespace)
  }

  /** Python's `s.strip(ch)` for one character. */
  function StripChar(s: string, ch: char): (r: string)
    ensures r == [] || (r[0] != ch && r[|r| - 1] != ch)
  {
    var r := TrimStart(TrimEnd(s, {ch}), {ch});
    assert r != [] ==> r[|r| - 1] == TrimEnd(s, {ch})[|TrimEnd(s, {ch})| - 1];
    r
  }

  /** Stripping removes exactly the characters around a core that neither starts nor ends with one. */
  lemma StripAround(before: string, core: string, after: string, drop: set<char>)
    requires core != [] && core[0] !in drop && core[|core| - 1] !in drop
    requires forall k :: 0 <= k < |before| ==> before[k] in drop
    requires forall k :: 0 <= k < |after| ==> after[k] in drop
    ensures TrimStart(TrimEnd(before + core + after, drop), drop) == core
  {
    assert before + core + after == (before + core) + after;
    TrimEndAppend(before + core, after, drop);
    TrimStartPrepend(before, core, drop);
  }

  /** A character absent from the end of a string occurs in it as often as in the rest. */
  lemma CountBefore(s: string, n: nat, c: char)
    requires n <= |s| && forall k :: n <= k < |s| ==> s[k] != c
    ensures multiset(s)[c] == multiset(s[..n])[c]
  {
    var tail := s[n..];
    assert s == s[..n] + tail;
    assert c !in tail by {
      forall k | 0 <= k < |tail|
        ensures tail[k] != c
      {
        assert tail[k] == s[n + k];
      }
    }
  }

  /** Stripping a character from a core enclosed in one copy of it on each side gives back the core. */
  lemma StripCharEnclosed(core: string, ch: char)
    requires core != [] && core[0] != ch && core[|core| - 1] != ch
    ensures StripChar([ch] + core + [ch], ch) == core
  {
    StripAround([ch], core, [ch], {ch});
  }

  /** Python's `a < b` on strings: code point by code point, a proper prefix first. */
  predicate LexLess(a: string, b: string)
    decreases |a|
  {
    if a == [] then b != []
    else if b == [] then false
    else if a[0] != b[0] then a[0] < b[0]
    else LexLess(a[1..], b[1..])
  }

  /** `a <= b` in Python's string order. */
  predicate LexLessEq(a: string, b: string) {
    a == b || LexLess(a, b)
  }

  lemma {:induction false} LexLessIrreflexive(a: string)
    ensures !LexLess(a, a)
    decreases |a|
  {
    if a != [] {
      LexLessIrreflexive(a[1..]);
    }
  }

  /** Two different strings are ordered one way or the other. */
  lemma {:induction false} LexLessTotal(a: string, b: string)
    requires a != b
    ensures LexLess(a, b) || LexLess(b, a)
    decreases |a|
  {
    if a != [] && b != [] && a[0] == b[0] {
      assert a == [a[0]] + a[1..] && b == [b[0]] + b[1..];
      LexLessTotal(a[1..], b[1..]);
    }
  }

  lemma {:induction false} LexLessAsymmetric(a: string, b: string)
    requires LexLess(a, b)
    ensures !LexLess(b, a)
    decreases |a|
  {
    if a != [] && b != [] && a[0] == b[0] {
      LexLessAsymmetric(a[1..], b[1..]);
    }
  }

  lemma {:induction false} LexLessTransitive(a: string, b: string, c: string)
    requires LexLess(a, b) && LexLess(b, c)
    ensures LexLess(a, c)
    decreases |a|
  {
    if a != [] && b != [] && c != [] && a[0] == b[0] && b[0] == c[0] {
      LexLessTransitive(a[1..], b[1..], c[1..]);
    }
  }
}
