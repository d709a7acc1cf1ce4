/**
  The two-level tree of archive categories on the restore page of
  pmos_backup/window.py (`on_restore_file_set`). Size keys are `<top>` or
  `<top>.<sub>`; every top-level key gets an entry, in order of first
  appearance, and every `<sub>` is listed under its `<top>` in the sorted
  order of the full keys.
*/
module CategoryTree {
  import opened Wrappers
  import opened Text

  // ---------------------------------------------------------------------
  // Python's `sorted` on strings

  /** Every element is at most every later one, in Python's string order. */
  predicate Sorted(s: seq<string>) {
    forall i, j :: 0 <= i < j < |s| ==> LexLessEq(s[i], s[j])
  }

  lemma LexLessEqTransitive(a: string, b: string, c: string)
    requires LexLessEq(a, b) && LexLessEq(b, c)
    ensures LexLessEq(a, c)
  {
    if a != b && b != c {
      LexLessTransitive(a, b, c);
    }
  }

  /** `x` inserted before the first element it does not exceed. */
  function Insert(x: string, s: seq<string>): (r: seq<string>)
    ensures |r| == |s| + 1
    decreases |s|
  {
    if s == [] || LexLessEq(x, s[0]) then [x] + s
    else [s[0]] + Insert(x, s[1..])
  }

  /** Inserting adds exactly `x`. */
  lemma {:induction false} InsertMultiset(x: string, s: seq<string>)
    ensures multiset(Insert(x, s)) == multiset(s) + multiset{x}
    decreases |s|
  {
    if !(s == [] || LexLessEq(x, s[0])) {
      InsertMultiset(x, s[1..]);
      assert s == [s[0]] + s[1..];
    }
  }

  /** A first element at most every later one, in front of a sorted list, keeps it sorted. */
  lemma ConsSorted(a: string, t: seq<string>)
    requires Sorted(t) && forall k :: 0 <= k < |t| ==> LexLessEq(a, t[k])
    ensures Sorted([a] + t)
  {
    var r := [a] + t;
    forall i, j | 0 <= i < j < |r|
      ensures LexLessEq(r[i], r[j])
    {
      if i > 0 {
        assert r[i] == t[i - 1] && r[j] == t[j - 1];
      } else {
        assert r[j] == t[j - 1];
      }
    }
  }

  /** Inserting into a sorted list keeps it sorted and adds exactly `x`. */
  lemma {:induction false} InsertSorted(x: string, s: seq<string>)
    requires Sorted(s)
    ensures Sorted(Insert(x, s)) && multiset(Insert(x, s)) == multiset(s) + multiset{x}
    decreases |s|
  {
    InsertMultiset(x, s);
    if s == [] || LexLessEq(x, s[0]) {
      forall k | 0 <= k < |s|
        ensures LexLessEq(x, s[k])
      {
        if k > 0 {
          LexLessEqTransitive(x, s[0], s[k]);
        }
      }
      ConsSorted(x, s);
    } else {
      var tail := s[1..];
      var rest := Insert(x, tail);
      assert Sorted(tail) by {
        forall i, j | 0 <= i < j < |tail|
          ensures LexLessEq(tail[i], tail[j])
        {
          assert tail[i] == s[i + 1] && tail[j] == s[j + 1];
        }
      }
      InsertSorted(x, tail);
      InsertMultiset(x, tail);
      LexLessTotal(x, s[0]);
      forall k | 0 <= k < |rest|
        ensures LexLessEq(s[0], rest[k])
      {
        assert rest[k] in multiset(rest);
        if rest[k] != x {
          assert rest[k] in multiset(tail);
          var m :| 0 <= m < |tail| && tail[m] == rest[k];
          assert s[m + 1] == rest[k];
        }
      }
      ConsSorted(s[0], rest);
    }
  }

  /** Python's `sorted(keys)`, as an insertion sort. */
  function SortKeys(keys: seq<string>): (r: seq<string>)
    ensures |r| == |keys|
    decreases |keys|
  {
    if keys == [] then []
    else Insert(keys[|keys| - 1], SortKeys(keys[..|keys| - 1]))
  }

  /** `sorted` returns the same keys, in order. */
  lemma {:induction false} SortKeysSorted(keys: seq<string>)
    ensures Sorted(SortKeys(keys)) && multiset(SortKeys(keys)) == multiset(keys)
    decreases |keys|
  {
    if keys != [] {
      var init, last := keys[..|keys| - 1], keys[|keys| - 1];
      SortKeysSorted(init);
      InsertSorted(last, SortKeys(init));
      assert keys == init + [last];
    }
  }

  // ---------------------------------------------------------------------
  // Top-level keys

  /** The part of a size key before its first dot; the whole key when it has none. */
  function Prefix(key: string): (top: string)
    ensures '.' !in top && StartsWith(key, top)
    ensures top == key <==> '.' !in key
  {
    SplitFirstShape(key, '.');
    match SplitFirst(key, '.')
    case None => key
    case Some(parts) =>
      assert key[..|parts.0|] == parts.0;
      parts.0
  }

  /** `key.split('.', maxsplit=1)[0]` when the key has a dot. */
  lemma PrefixCases(key: string)
    ensures Prefix(key) == if '.' in key then SplitFirst(key, '.').value.0 else key
  {
    SplitFirstShape(key, '.');
  }

  /** The top-level keys of a list of size keys. */
  function PrefixSet(keys: seq<string>): set<string> {
    set key | key in keys :: Prefix(key)
  }

  /** The top-level keys in order of first appearance, as the first loop inserts them into the tree. */
  function TopKeys(keys: seq<string>): seq<string>
    decreases |keys|
  {
    if keys == [] then []
    else
      var init, top := keys[..|keys| - 1], Prefix(keys[|keys| - 1]);
      TopKeys(init) + (if top in TopKeys(init) then [] else [top])
  }

  /** One more key adds its top-level key unless that is already there. */
  lemma TopKeysSnoc(keys: seq<string>, key: string)
    ensures TopKeys(keys + [key]) == TopKeys(keys) + (if Prefix(key) in TopKeys(keys) then [] else [Prefix(key)])
    ensures PrefixSet(keys + [key]) == PrefixSet(keys) + {Prefix(key)}
  {
    assert (keys + [key])[..|keys|] == keys;
  }

  /** The tree has an entry for the prefix of every size key and for nothing else. */
  lemma {:induction false} TopKeysMembers(keys: seq<string>)
    ensures forall top :: top in TopKeys(keys) <==> top in PrefixSet(keys)
    decreases |keys|
  {
    if keys != [] {
      var init := keys[..|keys| - 1];
      TopKeysMembers(init);
      assert keys == init + [keys[|keys| - 1]];
      TopKeysSnoc(init, keys[|keys| - 1]);
    }
  }

  /** No top-level key is entered twice. */
  lemma {:induction false} TopKeysDistinct(keys: seq<string>)
    ensures forall i, j :: 0 <= i < j < |TopKeys(keys)| ==> TopKeys(keys)[i] != TopKeys(keys)[j]
    decreases |keys|
  {
    if keys != [] {
      TopKeysDistinct(keys[..|keys| - 1]);
    }
  }

  // ---------------------------------------------------------------------
  // Subkeys

  /** The subkey that `key` lists under `top`, if any. */
  function SubkeyOf(key: string, top: string): seq<string> {
    match SplitFirst(key, '.')
    case None => []
    case Some(parts) => if parts.0 == top then [parts.1] else []
  }

  /** The subkeys listed under `top`, in the order of `keys`. */
  function Subkeys(keys: seq<string>, top: string): seq<string>
    decreases |keys|
  {
    if keys == [] then []
    else Subkeys(keys[..|keys| - 1], top) + SubkeyOf(keys[|keys| - 1], top)
  }

  /** One key lists `sub` under `top` exactly when it is `<top>.<sub>` and `top` has no dot. */
  lemma SubkeyOfMeaning(key: string, top: string, sub: string)
    ensures sub in SubkeyOf(key, top) <==> key == top + "." + sub && '.' !in top
  {
    SplitFirstShape(key, '.');
    if key == top + "." + sub && '.' !in top {
      SplitFirstUnique(key, '.', top, sub);
    }
  }

  /**
    `sub` is listed under `top` exactly when `<top>.<sub>` is a size key;
    the split is at the first dot, so `sub` may itself hold dots.
  */
  lemma {:induction false} SubkeysMeaning(keys: seq<string>, top: string, sub: string)
    ensures sub in Subkeys(keys, top) <==> top + "." + sub in keys && '.' !in top
    decreases |keys|
  {
    if keys != [] {
      var init, last := keys[..|keys| - 1], keys[|keys| - 1];
      SubkeysMeaning(init, top, sub);
      SubkeyOfMeaning(last, top, sub);
      assert keys == init + [last];
    }
  }

  /** Python's `<` ignores a common prefix. */
  lemma {:induction false} LexLessCommonPrefix(p: string, a: string, b: string)
    requires LexLess(p + a, p + b)
    ensures LexLess(a, b)
    decreases |p|
  {
    if p != [] {
      assert (p + a)[1..] == p[1..] + a && (p + b)[1..] == p[1..] + b;
      LexLessCommonPrefix(p[1..], a, b);
    } else {
      assert p + a == a && p + b == b;
    }
  }

  /** Appending an element no smaller than every other keeps a list sorted. */
  lemma SortedSnoc(s: seq<string>, x: string)
    requires Sorted(s) && forall y :: y in s ==> LexLessEq(y, x)
    ensures Sorted(s + [x])
  {
    forall i, j | 0 <= i < j < |s + [x]|
      ensures LexLessEq((s + [x])[i], (s + [x])[j])
    {
      assert (s + [x])[i] == s[i];
      if j == |s| {
        assert s[i] in s;
      }
    }
  }

  /** Subkeys taken from sorted size keys are themselves sorted. */
  lemma {:induction false} SubkeysSorted(keys: seq<string>, top: string)
    requires Sorted(keys)
    ensures Sorted(Subkeys(keys, top))
    decreases |keys|
  {
    if keys != [] {
      var init, last := keys[..|keys| - 1], keys[|keys| - 1];
      assert Sorted(init);
      SubkeysSorted(init, top);
      var before := Subkeys(init, top);
      match SplitFirst(last, '.')
      case None =>
        assert before + [] == before;
      case Some(parts) =>
        if parts.0 == top {
          var sub := parts.1;
          SubkeyOfMeaning(last, top, sub);
          forall y | y in before
            ensures LexLessEq(y, sub)
          {
            SubkeysMeaning(init, top, y);
            var m :| 0 <= m < |init| && init[m] == top + "." + y;
            assert LexLessEq(keys[m], keys[|keys| - 1]);
            if y != sub {
              assert (top + "." + y)[|top| + 1..] == y && (top + "." + sub)[|top| + 1..] == sub;
              LexLessCommonPrefix(top + ".", y, sub);
            }
          }
          SortedSnoc(before, sub);
        } else {
          assert before + [] == before;
        }
    }
  }

  // ---------------------------------------------------------------------
  // The two loops

  /** The first `done` keys, handed to the first loop, leave one empty entry per top-level key. */
  predicate TopsOf(order: seq<string>, tree: map<string, seq<string>>, done: seq<string>) {
    && order == TopKeys(done)
    && tree.Keys == PrefixSet(done)
    && forall top :: top in tree ==> tree[top] == []
  }

  /** `TopKeysMembers` for one top-level key. */
  lemma TopKeyMember(keys: seq<string>, top: string)
    ensures top in TopKeys(keys) <==> top in PrefixSet(keys)
  {
    TopKeysMembers(keys);
  }

  /** One iteration of the first loop. */
  lemma TopsStep(order: seq<string>, tree: map<string, seq<string>>, done: seq<string>, key: string)
    requires TopsOf(order, tree, done)
    ensures var top := Prefix(key);
      TopsOf(if top in tree then order else order + [top],
             if top in tree then tree else tree[top := []], done + [key])
  {
    var top := Prefix(key);
    TopKeyMember(done, top);
    TopKeysSnoc(done, key);
    if top in tree {
      TopsKnown(order, tree, done, key);
    } else {
      TopsNew(order, tree, done, key);
    }
  }

  /** A key whose top-level key is already in the tree changes neither the order nor the tree. */
  lemma TopsKnown(order: seq<string>, tree: map<string, seq<string>>, done: seq<string>, key: string)
    requires TopsOf(order, tree, done) && Prefix(key) in tree
    requires TopKeys(done + [key]) == order + (if Prefix(key) in order then [] else [Prefix(key)])
    requires PrefixSet(done + [key]) == PrefixSet(done) + {Prefix(key)}
    requires Prefix(key) in order <==> Prefix(key) in PrefixSet(done)
    ensures TopsOf(order, tree, done + [key])
  {
    assert order + [] == order;
  }

  /** A key with a new top-level key appends it to the order and gives it an empty list. */
  lemma TopsNew(order: seq<string>, tree: map<string, seq<string>>, done: seq<string>, key: string)
    requires TopsOf(order, tree, done) && Prefix(key) !in tree
    requires TopKeys(done + [key]) == order + (if Prefix(key) in order then [] else [Prefix(key)])
    requires PrefixSet(done + [key]) == PrefixSet(done) + {Prefix(key)}
    requires Prefix(key) in order <==> Prefix(key) in PrefixSet(done)
    ensures TopsOf(order + [Prefix(key)], tree[Prefix(key) := []], done + [key])
  {
    var top := Prefix(key);
    assert tree[top := []].Keys == tree.Keys + {top};
  }

  /** `TopsStep` for the `i`th key, as the first loop meets it. */
  lemma TopsStepAt(order: seq<string>, tree: map<string, seq<string>>, keys: seq<string>, i: nat)
    requires i < |keys| && TopsOf(order, tree, keys[..i])
    ensures var top := Prefix(keys[i]);
      TopsOf(if top in tree then order else order + [top],
             if top in tree then tree else tree[top := []], keys[..i + 1])
  {
    assert keys[..i + 1] == keys[..i] + [keys[i]];
    TopsStep(order, tree, keys[..i], keys[i]);
  }

  /** The sorted keys `done`, handed to the second loop, list their subkeys under every top-level key of `keys`. */
  predicate SubsOf(tree: map<string, seq<string>>, keys: seq<string>, done: seq<string>) {
    && tree.Keys == PrefixSet(keys)
    && forall top :: top in tree ==> tree[top] == Subkeys(done, top)
  }

  /** One iteration of the second loop: a key with a dot appends its subkey to its top-level key's list. */
  lemma SubsStep(tree: map<string, seq<string>>, keys: seq<string>, done: seq<string>, key: string)
    requires SubsOf(tree, keys, done)
    requires '.' in key ==> SplitFirst(key, '.').value.0 in tree
    ensures var r := SplitFirst(key, '.');
      SubsOf(if r.Some? then tree[r.value.0 := tree[r.value.0] + [r.value.1]] else tree, keys, done + [key])
  {
    var r := SplitFirst(key, '.');
    var tree' := if r.Some? then tree[r.value.0 := tree[r.value.0] + [r.value.1]] else tree;
    assert tree'.Keys == tree.Keys;
    forall top | top in tree'
      ensures tree'[top] == Subkeys(done + [key], top)
    {
      SubkeysSnoc(done, key, top);
      if r.None? || r.value.0 != top {
        var before := Subkeys(done, top);
        assert before + [] == before;
      }
    }
  }

  /** One more key adds its subkey at the end of its own top-level key's list, and to no other. */
  lemma SubkeysSnoc(done: seq<string>, key: string, top: string)
    ensures var r := SplitFirst(key, '.');
      Subkeys(done + [key], top) == Subkeys(done, top) + (if r.Some? && r.value.0 == top then [r.value.1] else [])
  {
    assert (done + [key])[..|done|] == done;
  }

  /** `SubsStep` for the `j`th key, as the second loop meets it, when its top-level key is one of the tree's. */
  lemma SubsStepAt(tree: map<string, seq<string>>, keys: seq<string>, sorted: seq<string>, j: nat)
    requires j < |sorted| && SubsOf(tree, keys, sorted[..j]) && Prefix(sorted[j]) in PrefixSet(keys)
    ensures var key := sorted[j];
      var r := SplitFirst(key, '.');
      && ('.' in key ==> r.value.0 in tree)
      && SubsOf(if r.Some? then tree[r.value.0 := tree[r.value.0] + [r.value.1]] else tree, keys, sorted[..j + 1])
  {
    var key := sorted[j];
    assert sorted[..j + 1] == sorted[..j] + [key];
    PrefixCases(key);
    SubsStep(tree, keys, sorted[..j], key);
  }

  /** Every sorted key has its top-level key among those of the unsorted keys. */
  lemma SortedKeyPrefix(keys: seq<string>, j: nat)
    requires j < |keys|
    ensures Prefix(SortKeys(keys)[j]) in PrefixSet(keys)
  {
    SortKeysSorted(keys);
    assert SortKeys(keys)[j] in multiset(keys);
  }

  /** The first loop: an empty entry for every top-level key, in order of first appearance. */
  method StartTree(keys: seq<string>) returns (order: seq<string>, tree: map<string, seq<string>>)
    ensures TopsOf(order, tree, keys)
  {
    order, tree := [], map[];
    for i := 0 to |keys|
      invariant TopsOf(order, tree, keys[..i])
    {
      var key := keys[i];
      PrefixCases(key);
      if '.' in key {
        key := SplitFirst(key, '.').value.0;
      }
      TopsStepAt(order, tree, keys, i);
      if key !in tree {
        tree := tree[key := []];
        order := order + [key];
      }
    }
    assert keys[..|keys|] == keys;
  }

  /** The second loop: every subkey under its top-level key, in the sorted order of the full keys. */
  method FillTree(tree0: map<string, seq<string>>, keys: seq<string>) returns (tree: map<string, seq<string>>)
    requires SubsOf(tree0, keys, [])
    ensures SubsOf(tree, keys, SortKeys(keys))
  {
    tree := tree0;
    var sorted := SortKeys(keys);
    for j := 0 to |sorted|
      invariant SubsOf(tree, keys, sorted[..j])
    {
      var key := sorted[j];
      SortedKeyPrefix(keys, j);
      SubsStepAt(tree, keys, sorted, j);
      if '.' !in key {
        continue;
      }
      var parts := SplitFirst(key, '.').value;
      tree := tree[parts.0 := tree[parts.0] + [parts.1]];
    }
    assert sorted[..|sorted|] == sorted;
  }

  /**
    The tree that `on_restore_file_set` builds (pmos_backup/window.py,
    lines 281-291): the top-level keys in insertion order, and the subkeys
    listed under each.
  */
  method BuildTree(keys: seq<string>) returns (order: seq<string>, tree: map<string, seq<string>>)
    ensures order == TopKeys(keys)
    ensures tree.Keys == PrefixSet(keys)
    ensures forall top :: top in tree ==> tree[top] == Subkeys(SortKeys(keys), top)
    ensures tree == Tree(keys)
  {
    order, tree := StartTree(keys);
    tree := FillTree(tree, keys);
  }

  /** The tree as a value: every top-level key with its subkeys. */
  function Tree(keys: seq<string>): map<string, seq<string>> {
    map top | top in PrefixSet(keys) :: Subkeys(SortKeys(keys), top)
  }

  /** A top-level key without subkeys is itself a size key. */
  lemma {:induction false} LoneTopIsKey(keys: seq<string>, top: string)
    requires top in PrefixSet(keys) && Subkeys(SortKeys(keys), top) == []
    ensures top in keys
  {
    var key :| key in keys && Prefix(key) == top;
    if '.' in key {
      SplitFirstShape(key, '.');
      var sub := SplitFirst(key, '.').value.1;
      SortKeysSorted(keys);
      assert key in multiset(SortKeys(keys));
      SubkeysMeaning(SortKeys(keys), top, sub);
    }
  }

  // ---------------------------------------------------------------------
  // The keys looked up for each check box

  /** Python's `str.lower` on ASCII letters; other characters are kept. */
  function Lower(s: string): (r: string)
    ensures |r| == |s|
    ensures forall i :: 0 <= i < |s| ==> r[i] == if 'A' <= s[i] <= 'Z' then (s[i] as int + 32) as char else s[i]
  {
    if s == [] then []
    else
      var c := s[0];
      [if 'A' <= c <= 'Z' then (c as int + 32) as char else c] + Lower(s[1..])
  }

  /** The key of a subkey's check box as written: the subkey is lower-cased. */
  function DetailKeyAsWritten(top: string, sub: string): string {
    top + "." + Lower(sub)
  }

  /** The key of a subkey's check box: the size key the subkey came from. */
  function DetailKey(top: string, sub: string): string {
    top + "." + sub
  }

  /** The keys of the check boxes for one top-level key: its own, or one per subkey. */
  function Marks(top: string, subs: seq<string>, detail: (string, string) -> string): (marks: seq<string>)
    ensures |marks| == if subs == [] then 1 else |subs|
  {
    if subs == [] then [top] else seq(|subs|, i requires 0 <= i < |subs| => detail(top, subs[i]))
  }

  /**
    The keys whose sizes and contents the widget loop of
    `on_restore_file_set` looks up, in the order of the tree.
  */
  function MarkKeys(order: seq<string>, tree: map<string, seq<string>>, detail: (string, string) -> string): seq<string>
    requires forall top :: top in order ==> top in tree
    decreases |order|
  {
    if order == [] then []
    else
      var last := order[|order| - 1];
      MarkKeys(order[..|order| - 1], tree, detail) + Marks(last, tree[last], detail)
  }

  /** The keys looked up with `DetailKey` are all size keys, so no lookup raises KeyError. */
  lemma {:induction false} MarkKeysPresent(keys: seq<string>, order: seq<string>)
    requires forall top :: top in order ==> top in PrefixSet(keys)
    ensures forall top :: top in order ==> top in Tree(keys)
    ensures forall m :: m in MarkKeys(order, Tree(keys), DetailKey) ==> m in keys
    decreases |order|
  {
    if order != [] {
      var last := order[|order| - 1];
      MarkKeysPresent(keys, order[..|order| - 1]);
      var subs := Tree(keys)[last];
      if subs == [] {
        LoneTopIsKey(keys, last);
      } else {
        SortKeysSorted(keys);
        forall i | 0 <= i < |subs|
          ensures DetailKey(last, subs[i]) in keys
        {
          SubkeysMeaning(SortKeys(keys), last, subs[i]);
          assert DetailKey(last, subs[i]) in multiset(SortKeys(keys));
        }
      }
    }
  }

  /** The tree of a single size key `<top>.<sub>`. */
  lemma SingleKeyTree(top: string, sub: string)
    requires '.' !in top
    ensures var key := top + "." + sub;
      TopKeys([key]) == [top] && Tree([key]) == map[top := [sub]]
  {
    var key := top + "." + sub;
    SplitFirstUnique(key, '.', top, sub);
    assert Prefix(key) == top;
    assert [key][..0] == [];
    assert SortKeys([key]) == [key];
    assert Subkeys([key], top) == [sub];
    assert PrefixSet([key]) == {top};
  }

  /** The check boxes of a single size key `<top>.<sub>`: one, for the subkey. */
  lemma SingleKeyMarks(top: string, sub: string, detail: (string, string) -> string)
    requires '.' !in top
    ensures TopKeys([top + "." + sub]) == [top] && top in Tree([top + "." + sub])
      && MarkKeys(TopKeys([top + "." + sub]), Tree([top + "." + sub]), detail) == [detail(top, sub)]
  {
    SingleKeyTree(top, sub);
    assert [top][..0] == [];
  }

  /**
    As written, a subkey holding a capital letter breaks the restore page:
    its check box looks up the lower-cased key, which is not a size key.
  */
  lemma DetailKeyAsWrittenMisses(top: string, sub: string)
    requires '.' !in top && Lower(sub) != sub
    ensures var key := top + "." + sub;
      && TopKeys([key]) == [top] && top in Tree([key])
      && MarkKeys(TopKeys([key]), Tree([key]), DetailKeyAsWritten) == [top + "." + Lower(sub)]
      && top + "." + Lower(sub) !in [key]
  {
    SingleKeyMarks(top, sub, DetailKeyAsWritten);
    assert (top + "." + Lower(sub))[|top| + 1..] == Lower(sub);
    assert (top + "." + sub)[|top| + 1..] == sub;
  }

  /** The home directory of a user `Alice`, size key `homedir.Alice`, is such a subkey. */
  lemma CapitalUserMisses()
    ensures '.' !in "homedir" && Lower("Alice") != "Alice"
  {
    assert Lower("Alice")[0] == 'a';
  }
}
