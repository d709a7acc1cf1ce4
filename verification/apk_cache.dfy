/**
  The package cache index of pmos_backup/state.py (`parse_apk_cache`): every
  `*.apk` file under /etc/apk/cache is filed under the package name its file
  name encodes, `<name>-<version>-<release>.apk`.
*/
module ApkCache {
  import opened Text
  import opened Paths

  /**
    The package name encoded in a cache file name: split on `-`, drop the
    last two pieces (version and release) and join the rest with `-`. A name
    with fewer than three pieces yields the empty name, as Python's `[0:-2]`
    slice of a short list is empty.
  */
  function PackageName(fname: string): string {
    var parts := Split(fname, '-');
    Join(parts[..if |parts| >= 2 then |parts| - 2 else 0], '-')
  }

  /** The package a cache path belongs to. */
  function PathPackage(path: string): string {
    PackageName(Basename(path))
  }

  /** Splitting `s + [c] + t` at every `c`, when `t` has none, adds `t` as the last piece. */
  lemma {:induction false} SplitAppend(s: string, t: string, c: char)
    requires c !in t
    ensures Split(s + [c] + t, c) == Split(s, c) + [t]
    decreases |s|
  {
    match SplitFirst(s, c)
    case None =>
      SplitFirstUnique(s + [c] + t, c, s, t);
      SplitJoin([t], c);
    case Some(parts) =>
      var a, b := parts.0, parts.1;
      SplitFirstShape(s, c);
      assert s + [c] + t == a + [c] + (b + [c] + t);
      SplitFirstUnique(s + [c] + t, c, a, b + [c] + t);
      SplitAppend(b, t, c);
  }

  /**
    The name recovered from `<name>-<version>-<release>` is `<name>`, whatever
    dashes `<name>` itself contains, provided version and release have none.
  */
  lemma PackageNameOfFileName(name: string, version: string, release: string)
    requires '-' !in version && '-' !in release
    ensures PackageName(name + "-" + version + "-" + release) == name
  {
    var fname := name + "-" + version + "-" + release;
    SplitAppend(name + "-" + version, release, '-');
    SplitAppend(name, version, '-');
    assert fname == name + "-" + version + "-" + release;
    var parts := Split(fname, '-');
    assert parts == Split(name, '-') + [version] + [release];
    assert parts[..|parts| - 2] == Split(name, '-');
    JoinSplit(name, '-');
  }

  /**
    Conversely, a file name with at least two dashes is its package name
    followed by two dash-free pieces; with fewer dashes the name is empty.
  */
  lemma PackageNameShape(fname: string)
    ensures var parts := Split(fname, '-');
      && (|parts| >= 3 ==>
            fname == PackageName(fname) + "-" + parts[|parts| - 2] + "-" + parts[|parts| - 1]
            && '-' !in parts[|parts| - 2] && '-' !in parts[|parts| - 1])
      && (|parts| < 3 ==> PackageName(fname) == "")
  {
    var parts := Split(fname, '-');
    var n := |parts|;
    if n >= 3 {
      var front, version, release := parts[..n - 2], parts[n - 2], parts[n - 1];
      assert PackageName(fname) == Join(front, '-');
      assert '-' !in version && '-' !in release;
      JoinSplit(fname, '-');
      LastTwo(parts);
      JoinSnoc(front, version, '-');
      JoinSnoc(front + [version], release, '-');
    } else {
      assert parts[..0] == [];
    }
  }

  /** The paths whose key is `name`, in listing order (the list `parse_apk_cache` builds for it). */
  function FiledUnder(paths: seq<string>, key: string -> string, name: string): (r: seq<string>)
    ensures |r| <= |paths|
  {
    if paths == [] then []
    else
      var last := paths[|paths| - 1];
      FiledUnder(paths[..|paths| - 1], key, name) + (if key(last) == name then [last] else [])
  }

  /** The keys that at least one path has. */
  function KeysOf(paths: seq<string>, key: string -> string): set<string> {
    set p | p in paths :: key(p)
  }

  /** `index` files exactly the paths of `paths` under their keys, each list in listing order. */
  ghost predicate IsIndexOf(index: map<string, seq<string>>, paths: seq<string>, key: string -> string) {
    && index.Keys == KeysOf(paths, key)
    && forall n :: n in index ==> index[n] == FiledUnder(paths, key, n)
  }

  /** The index `parse_apk_cache` returns, as a value. */
  function CacheIndex(paths: seq<string>): (index: map<string, seq<string>>)
    ensures IsIndexOf(index, paths, PathPackage)
  {
    map n | n in KeysOf(paths, PathPackage) :: FiledUnder(paths, PathPackage, n)
  }

  /**
    `parse_apk_cache`: one pass over the cache listing, creating the list for
    a name on first sight and appending the path to it.
  */
  method ParseApkCache(paths: seq<string>) returns (index: map<string, seq<string>>)
    ensures index.Keys == KeysOf(paths, PathPackage)
    ensures forall n :: n in index ==> index[n] == FiledUnder(paths, PathPackage, n)
  {
    index := map[];
    for i := 0 to |paths|
      invariant IsIndexOf(index, paths[..i], PathPackage)
    {
      var path := paths[i];
      var fname := Basename(path);
      var pkgname := PackageName(fname);
      IndexStepAt(index, paths, PathPackage, i);
      // A name seen for the first time starts an empty list; the path is appended to it
      var list := if pkgname in index then index[pkgname] else [];
      index := index[pkgname := list + [path]];
    }
    assert paths[..|paths|] == paths;
  }

  /** The exact index of a listing is unique: it is `CacheIndex`. */
  lemma IndexIsCacheIndex(index: map<string, seq<string>>, paths: seq<string>)
    requires IsIndexOf(index, paths, PathPackage)
    ensures index == CacheIndex(paths)
  {
    var expected := CacheIndex(paths);
    assert index.Keys == expected.Keys;
    forall n | n in index
      ensures index[n] == expected[n]
    {
    }
  }

  /** A key no path has files nothing. */
  lemma {:induction false} FiledUnderEmpty(paths: seq<string>, key: string -> string, name: string)
    requires name !in KeysOf(paths, key)
    ensures FiledUnder(paths, key, name) == []
    decreases |paths|
  {
    if paths != [] {
      var init := paths[..|paths| - 1];
      assert KeysOf(init, key) <= KeysOf(paths, key);
      FiledUnderEmpty(init, key, name);
    }
  }

  /** One more path adds its key, and only that key. */
  lemma KeysOfSnoc(done: seq<string>, p: string, key: string -> string)
    ensures KeysOf(done + [p], key) == KeysOf(done, key) + {key(p)}
  {
    assert forall q :: q in done + [p] <==> q in done || q == p;
  }

  /** One more path is filed at the end of its own key's list, and of no other. */
  lemma FiledUnderSnoc(done: seq<string>, p: string, key: string -> string, name: string)
    ensures FiledUnder(done + [p], key, name) == FiledUnder(done, key, name) + (if key(p) == name then [p] else [])
  {
    assert (done + [p])[..|done|] == done;
  }

  /** One iteration of the loop in `parse_apk_cache` keeps the index exact. */
  lemma IndexStep(index: map<string, seq<string>>, done: seq<string>, p: string, key: string -> string)
    requires IsIndexOf(index, done, key)
    ensures var name := key(p);
      var list := if name in index then index[name] else [];
      IsIndexOf(index[name := list + [p]], done + [p], key)
  {
    var name := key(p);
    var list := if name in index then index[name] else [];
    if name !in index {
      FiledUnderEmpty(done, key, name);
    }
    assert list == FiledUnder(done, key, name);
    var index' := index[name := list + [p]];
    KeysOfSnoc(done, p, key);
    assert index'.Keys == index.Keys + {name};
    forall n | n in index'
      ensures index'[n] == FiledUnder(done + [p], key, n)
    {
      FiledUnderSnoc(done, p, key, n);
      if n != name {
        assert index'[n] == index[n];
      }
    }
  }

  /** `IndexStep` for the `i`th path, as the loop meets it. */
  lemma IndexStepAt(index: map<string, seq<string>>, paths: seq<string>, key: string -> string, i: nat)
    requires i < |paths| && IsIndexOf(index, paths[..i], key)
    ensures var name := key(paths[i]);
      var list := if name in index then index[name] else [];
      IsIndexOf(index[name := list + [paths[i]]], paths[..i + 1], key)
  {
    assert paths[..i + 1] == paths[..i] + [paths[i]];
    IndexStep(index, paths[..i], paths[i], key);
  }

  /** How often `x` occurs in `xs`. */
  function Count(xs: seq<string>, x: string): nat {
    multiset(xs)[x]
  }

  /**
    Every cache path is filed exactly once: under its own package name as
    often as it was listed, and under no other name.
  */
  lemma {:induction false} FiledOnce(paths: seq<string>, key: string -> string, p: string, name: string)
    ensures Count(FiledUnder(paths, key, name), p) == if key(p) == name then Count(paths, p) else 0
    decreases |paths|
  {
    if paths != [] {
      var init, last := paths[..|paths| - 1], paths[|paths| - 1];
      FiledOnce(init, key, p, name);
      assert paths == init + [last];
    }
  }

  /** A path is filed under `name` exactly when it is listed and its key is `name`. */
  lemma {:induction false} FiledUnderMembers(paths: seq<string>, key: string -> string, name: string, p: string)
    ensures p in FiledUnder(paths, key, name) <==> p in paths && key(p) == name
    decreases |paths|
  {
    if paths != [] {
      var init := paths[..|paths| - 1];
      FiledUnderMembers(init, key, name, p);
      assert paths == init + [paths[|paths| - 1]];
    }
  }
}
