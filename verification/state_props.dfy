/**
  What `save_system_state` computes, stated without the collector's working
  state: which audit entries are selected, which sizes are summed, which
  files are copied where, which sideloaded packages are reported missing,
  and in which order the progress reports come.
*/
module StateProperties {
  import opened Wrappers
  import opened Text
  import opened Paths
  import opened Audit
  import opened ApkCache
  import opened State

  // ---------------------------------------------------------------------
  // Reference definitions

  /** Every audit line has the space that `split(' ', maxsplit=1)` needs. */
  predicate WellFormed(lines: seq<string>) {
    forall line :: line in lines ==> ' ' in line
  }

  /** An audit record that the collector acts on: status A or U, and no bytecode in the system audit. */
  predicate Selects(scope: Scope, rec: ChangeRecord) {
    Actionable(rec) && !(scope == System && Contains(rec.path, PyCacheMarker))
  }

  /** The path of one audit line, when the collector acts on it. */
  function Picked(scope: Scope, line: string): seq<string> {
    match ParseAuditLine(line)
    case None => []
    case Some(rec) => if Selects(scope, rec) then [rec.path] else []
  }

  /** The paths (relative to `/`) of the records that the collector acts on, in audit order. */
  function Selection(scope: Scope, lines: seq<string>): seq<string>
    decreases |lines|
  {
    if lines == [] then []
    else Selection(scope, lines[..|lines| - 1]) + Picked(scope, lines[|lines| - 1])
  }

  /** `os.path.join('/', path)` for every path. */
  function Rooted(paths: seq<string>): seq<string>
    decreases |paths|
  {
    if paths == [] then []
    else Rooted(paths[..|paths| - 1]) + [JoinPath("/", paths[|paths| - 1])]
  }

  /** Every path exists (`os.stat` would find it). */
  predicate AllExist(paths: seq<string>, sizes: map<string, nat>) {
    forall p :: p in paths ==> p in sizes
  }

  /** The total size of the paths that exist; a missing path adds nothing. */
  function SumExisting(paths: seq<string>, sizes: map<string, nat>): nat
    decreases |paths|
  {
    if paths == [] then 0
    else
      var last := paths[|paths| - 1];
      SumExisting(paths[..|paths| - 1], sizes) + (if last in sizes then sizes[last] else 0)
  }

  /** The copies among the effects, as (source, target) pairs in order. */
  function CopiesOf(effects: seq<Effect>): seq<(string, string)>
    decreases |effects|
  {
    if effects == [] then []
    else
      var last := effects[|effects| - 1];
      CopiesOf(effects[..|effects| - 1]) + (if last.Copy? then [(last.source, last.target)] else [])
  }

  /** The progress percentages among the effects, in order. */
  function ProgressOf(effects: seq<Effect>): seq<nat>
    decreases |effects|
  {
    if effects == [] then []
    else
      var last := effects[|effects| - 1];
      ProgressOf(effects[..|effects| - 1]) + (if last.Progress? then [last.percent] else [])
  }

  /** Each selected audit path copied from under `/` to the same place under the state directory. */
  function Planned(statedir: string, paths: seq<string>): seq<(string, string)>
    decreases |paths|
  {
    if paths == [] then []
    else
      var last := paths[|paths| - 1];
      Planned(statedir, paths[..|paths| - 1]) + [(JoinPath("/", last), JoinPath(statedir, last))]
  }

  /** Each cached package file copied into the cache directory under its own file name. */
  function CacheCopies(cachedir: string, paths: seq<string>): seq<(string, string)>
    decreases |paths|
  {
    if paths == [] then []
    else
      var last := paths[|paths| - 1];
      CacheCopies(cachedir, paths[..|paths| - 1]) + [(last, JoinPath(cachedir, Basename(last)))]
  }

  /** The sideloaded package a world line names, if it names one. */
  function LineNames(line: string): seq<string> {
    if Contains(line, SideloadMarker) then [SideloadName(line)] else []
  }

  /** The names of the sideloaded packages in /etc/apk/world, in file order. */
  function SideloadNames(world: seq<string>): seq<string>
    decreases |world|
  {
    if world == [] then []
    else SideloadNames(world[..|world| - 1]) + LineNames(world[|world| - 1])
  }

  /** One error message per name that the cache index lacks, in order. */
  function MissingMessages(names: seq<string>, index: map<string, seq<string>>): seq<string>
    decreases |names|
  {
    if names == [] then []
    else
      var last := names[|names| - 1];
      MissingMessages(names[..|names| - 1], index) + (if last in index then [] else [NotInCacheMessage(last)])
  }

  /** The cache files of every name that the cache index has, name after name. */
  function FilesOf(names: seq<string>, index: map<string, seq<string>>): seq<string>
    decreases |names|
  {
    if names == [] then []
    else
      var last := names[|names| - 1];
      FilesOf(names[..|names| - 1], index) + (if last in index then index[last] else [])
  }

  /** The ways an audit pass can raise: a line without a space, or (system audit) a missing source. */
  predicate Fatal(scope: Scope, sizes: map<string, nat>, lines: seq<string>, f: Failure) {
    || (f.MalformedAuditLine? && f.line in lines && ' ' !in f.line)
    || (scope == System && f.MissingSystemFile? && f.path in Rooted(Selection(System, lines)) && f.path !in sizes)
  }

  /** The first path that does not exist, if any: the cached file whose copy raises. */
  function FirstMissing(paths: seq<string>, sizes: map<string, nat>): Option<string>
    decreases |paths|
  {
    if paths == [] then None
    else
      var first := FirstMissing(paths[..|paths| - 1], sizes);
      if first.Some? then first
      else if paths[|paths| - 1] in sizes then None
      else Some(paths[|paths| - 1])
  }

  /** A set of directories as a file system has it: the parents of a directory are directories. */
  predicate Closed(dirs: set<string>) {
    forall d :: d in dirs ==> Ancestors(d) <= dirs
  }

  /** The directories that copying the selected audit paths into the state directory leaves behind (lines 60-61 and 82-83). */
  function MadeDirs(statedir: string, paths: seq<string>): set<string>
    decreases |paths|
  {
    if paths == [] then {}
    else MadeDirs(statedir, paths[..|paths| - 1]) + Ancestors(Dirname(JoinPath(statedir, paths[|paths| - 1])))
  }

  /**
    The cache directory is already there when line 93 makes it: it existed
    before the call, or the copy of an audit path under `cache/` made it.
  */
  predicate CacheDirTaken(statedir: string, env: Env) {
    var cachedir := JoinPath(statedir, CacheDirName);
    || cachedir in env.dirs
    || cachedir in MadeDirs(statedir, Selection(Config, env.backupAudit))
    || cachedir in MadeDirs(statedir, Selection(System, env.systemAudit))
  }

  // ---------------------------------------------------------------------
  // Algebra of the reference definitions

  /** The first missing path of two runs is that of the first run, or else that of the second. */
  lemma {:induction false} FirstMissingAppend(a: seq<string>, b: seq<string>, sizes: map<string, nat>)
    ensures FirstMissing(a + b, sizes) == if FirstMissing(a, sizes).Some? then FirstMissing(a, sizes) else FirstMissing(b, sizes)
    decreases |b|
  {
    if b != [] {
      var init := b[..|b| - 1];
      assert (a + b)[..|a + b| - 1] == a + init;
      FirstMissingAppend(a, init, sizes);
    } else {
      assert a + b == a;
    }
  }

  /** No path is missing exactly when all exist; a missing one is the first path that does not exist. */
  lemma {:induction false} FirstMissingMeaning(paths: seq<string>, sizes: map<string, nat>)
    ensures FirstMissing(paths, sizes).None? <==> AllExist(paths, sizes)
    ensures FirstMissing(paths, sizes).Some? ==>
      exists k :: 0 <= k < |paths| && paths[k] == FirstMissing(paths, sizes).value && paths[k] !in sizes && AllExist(paths[..k], sizes)
    decreases |paths|
  {
    if paths != [] {
      var init, last := paths[..|paths| - 1], paths[|paths| - 1];
      FirstMissingMeaning(init, sizes);
      assert paths == init + [last];
      if FirstMissing(init, sizes).Some? {
        var k :| 0 <= k < |init| && init[k] == FirstMissing(init, sizes).value && init[k] !in sizes && AllExist(init[..k], sizes);
        assert paths[k] == init[k] && paths[..k] == init[..k];
      } else if last !in sizes {
        assert paths[..|paths| - 1] == init;
      }
    }
  }

  lemma {:induction false} MadeDirsAppend(statedir: string, a: seq<string>, b: seq<string>)
    ensures MadeDirs(statedir, a + b) == MadeDirs(statedir, a) + MadeDirs(statedir, b)
    decreases |b|
  {
    if b != [] {
      var init := b[..|b| - 1];
      assert (a + b)[..|a + b| - 1] == a + init;
      MadeDirsAppend(statedir, a, init);
    } else {
      assert a + b == a;
    }
  }

  lemma {:induction false} SumExistingAppend(a: seq<string>, b: seq<string>, sizes: map<string, nat>)
    ensures SumExisting(a + b, sizes) == SumExisting(a, sizes) + SumExisting(b, sizes)
    decreases |b|
  {
    if b != [] {
      var init := b[..|b| - 1];
      assert (a + b)[..|a + b| - 1] == a + init;
      SumExistingAppend(a, init, sizes);
    } else {
      assert a + b == a;
    }
  }

  /** When every path exists, the existing-only sum is the plain sum over all of them. */
  lemma {:induction false} SumExistingAll(paths: seq<string>, sizes: map<string, nat>)
    requires AllExist(paths, sizes)
    ensures SumExisting(paths, sizes) == if paths == [] then 0 else SumExisting(paths[..|paths| - 1], sizes) + sizes[paths[|paths| - 1]]
  {
    if paths != [] {
      assert paths[|paths| - 1] in paths;
    }
  }

  lemma {:induction false} CopiesOfAppend(a: seq<Effect>, b: seq<Effect>)
    ensures CopiesOf(a + b) == CopiesOf(a) + CopiesOf(b)
    decreases |b|
  {
    if b != [] {
      var init := b[..|b| - 1];
      assert (a + b)[..|a + b| - 1] == a + init;
      CopiesOfAppend(a, init);
    } else {
      assert a + b == a;
    }
  }

  lemma {:induction false} ProgressOfAppend(a: seq<Effect>, b: seq<Effect>)
    ensures ProgressOf(a + b) == ProgressOf(a) + ProgressOf(b)
    decreases |b|
  {
    if b != [] {
      var init := b[..|b| - 1];
      assert (a + b)[..|a + b| - 1] == a + init;
      ProgressOfAppend(a, init);
    } else {
      assert a + b == a;
    }
  }

  lemma {:induction false} RootedAppend(a: seq<string>, b: seq<string>)
    ensures Rooted(a + b) == Rooted(a) + Rooted(b)
    decreases |b|
  {
    if b != [] {
      var init := b[..|b| - 1];
      assert (a + b)[..|a + b| - 1] == a + init;
      RootedAppend(a, init);
    } else {
      assert a + b == a;
    }
  }

  lemma {:induction false} PlannedAppend(statedir: string, a: seq<string>, b: seq<string>)
    ensures Planned(statedir, a + b) == Planned(statedir, a) + Planned(statedir, b)
    decreases |b|
  {
    if b != [] {
      var init := b[..|b| - 1];
      assert (a + b)[..|a + b| - 1] == a + init;
      PlannedAppend(statedir, a, init);
    } else {
      assert a + b == a;
    }
  }

  lemma {:induction false} CacheCopiesAppend(cachedir: string, a: seq<string>, b: seq<string>)
    ensures CacheCopies(cachedir, a + b) == CacheCopies(cachedir, a) + CacheCopies(cachedir, b)
    decreases |b|
  {
    if b != [] {
      var init := b[..|b| - 1];
      assert (a + b)[..|a + b| - 1] == a + init;
      CacheCopiesAppend(cachedir, a, init);
    } else {
      assert a + b == a;
    }
  }

  lemma {:induction false} MissingMessagesAppend(a: seq<string>, b: seq<string>, index: map<string, seq<string>>)
    ensures MissingMessages(a + b, index) == MissingMessages(a, index) + MissingMessages(b, index)
    decreases |b|
  {
    if b != [] {
      var init := b[..|b| - 1];
      assert (a + b)[..|a + b| - 1] == a + init;
      MissingMessagesAppend(a, init, index);
    } else {
      assert a + b == a;
    }
  }

  lemma {:induction false} FilesOfAppend(a: seq<string>, b: seq<string>, index: map<string, seq<string>>)
    ensures FilesOf(a + b, index) == FilesOf(a, index) + FilesOf(b, index)
    decreases |b|
  {
    if b != [] {
      var init := b[..|b| - 1];
      assert (a + b)[..|a + b| - 1] == a + init;
      FilesOfAppend(a, init, index);
    } else {
      assert a + b == a;
    }
  }

  // ---------------------------------------------------------------------
  // The audit passes

  /** Clean input for a measure pass: well formed, and in the system audit every selected source exists. */
  predicate MeasureClean(scope: Scope, sizes: map<string, nat>, lines: seq<string>) {
    WellFormed(lines) && (scope == System ==> AllExist(Rooted(Selection(System, lines)), sizes))
  }

  /**
    An audit line `<status> <path>` is acted on exactly when its status is
    `A` or `U` and, in the system audit, its path does not contain
    `__pycache__` (pmos_backup/state.py, lines 52-53 and 69-75).
  */
  lemma PickedLine(scope: Scope, status: string, path: string)
    requires ' ' !in status
    ensures Picked(scope, status + " " + path)
         == if (status == "A" || status == "U") && !(scope == System && Contains(path, PyCacheMarker)) then [path] else []
  {
    ParsePrinted(status, path);
  }

  /** One measure step: a line without a space raises, and so does a selected system source that is missing. */
  lemma AuditMeasureStep(scope: Scope, statedir: string, sizes: map<string, nat>, acc: Acc, line: string)
    requires acc.failure.None?
    ensures var r := AuditStep(scope, true, statedir, sizes, acc, line);
      && r.dirs == acc.dirs && r.effects == acc.effects && r.errors == acc.errors
      && (r.failure.None? <==> ' ' in line && (scope == System ==> AllExist(Rooted(Picked(scope, line)), sizes)))
      && (r.failure.Some? ==>
            || r.failure == Some(MalformedAuditLine(line))
            || (scope == System && r.failure.value.MissingSystemFile?
                && r.failure.value.path in Rooted(Picked(scope, line)) && r.failure.value.path !in sizes))
  {
    match ParseAuditLine(line)
    case None =>
    case Some(rec) =>
      if Selects(scope, rec) {
        assert Rooted([rec.path]) == [JoinPath("/", rec.path)];
      }
  }

  /** One measure step that does not raise adds the size of the selected source, when it exists. */
  lemma AuditMeasureStepSize(scope: Scope, statedir: string, sizes: map<string, nat>, acc: Acc, line: string)
    requires acc.failure.None?
    requires AuditStep(scope, true, statedir, sizes, acc, line).failure.None?
    ensures AuditStep(scope, true, statedir, sizes, acc, line).size == acc.size + SumExisting(Rooted(Picked(scope, line)), sizes)
  {
    match ParseAuditLine(line)
    case None =>
    case Some(rec) =>
      if Selects(scope, rec) {
        var source := JoinPath("/", rec.path);
        assert Rooted([rec.path]) == [source];
        assert SumExisting([source], sizes) == if source in sizes then sizes[source] else 0;
      }
  }

  /**
    Measure mode (pmos_backup/state.py, lines 47-58 and 64-79): nothing is
    created or copied, and the pass raises exactly when a line has no space
    or, in the system audit, a selected source is missing. Otherwise the size
    is the sum over the selected sources that exist.
  */
  lemma AuditMeasure(scope: Scope, statedir: string, sizes: map<string, nat>, acc0: Acc, lines: seq<string>)
    requires acc0.failure.None?
    ensures var r := AuditPass(scope, true, statedir, sizes, acc0, lines);
      && r.dirs == acc0.dirs && r.effects == acc0.effects && r.errors == acc0.errors
      && (r.failure.None? <==> MeasureClean(scope, sizes, lines))
      && (r.failure.None? ==> r.size == acc0.size + SumExisting(Rooted(Selection(scope, lines)), sizes))
      && (r.failure.Some? ==> Fatal(scope, sizes, lines, r.failure.value))
  {
    AuditMeasureQuiet(scope, statedir, sizes, acc0, lines);
    AuditMeasureFailure(scope, statedir, sizes, acc0, lines);
    if AuditPass(scope, true, statedir, sizes, acc0, lines).failure.None? {
      AuditMeasureSize(scope, statedir, sizes, acc0, lines);
    }
  }

  /** A measure pass makes no directory, records no effect and adds no error message. */
  lemma {:induction false} AuditMeasureQuiet(scope: Scope, statedir: string, sizes: map<string, nat>, acc0: Acc, lines: seq<string>)
    ensures var r := AuditPass(scope, true, statedir, sizes, acc0, lines);
      r.dirs == acc0.dirs && r.effects == acc0.effects && r.errors == acc0.errors
    decreases |lines|
  {
    if lines != [] {
      var init := lines[..|lines| - 1];
      AuditMeasureQuiet(scope, statedir, sizes, acc0, init);
      var before := AuditPass(scope, true, statedir, sizes, acc0, init);
      if before.failure.None? {
        AuditMeasureStep(scope, statedir, sizes, before, lines[|lines| - 1]);
      }
    }
  }

  /** A measure pass raises exactly when its input is not clean, and then for a reason `Fatal` names. */
  lemma {:induction false} AuditMeasureFailure(scope: Scope, statedir: string, sizes: map<string, nat>, acc0: Acc, lines: seq<string>)
    requires acc0.failure.None?
    ensures var r := AuditPass(scope, true, statedir, sizes, acc0, lines);
      && (r.failure.None? <==> MeasureClean(scope, sizes, lines))
      && (r.failure.Some? ==> Fatal(scope, sizes, lines, r.failure.value))
    decreases |lines|
  {
    if lines != [] {
      var init := lines[..|lines| - 1];
      AuditMeasureFailure(scope, statedir, sizes, acc0, init);
      var before := AuditPass(scope, true, statedir, sizes, acc0, init);
      if before.failure.None? {
        AuditMeasureLast(scope, statedir, sizes, before, lines);
      } else {
        MeasureCleanSnoc(scope, sizes, lines);
        FatalSnoc(scope, sizes, lines, before.failure.value);
      }
    }
  }

  /** The last line of clean earlier lines raises exactly when the whole input is not clean, for a reason `Fatal` names. */
  lemma AuditMeasureLast(scope: Scope, statedir: string, sizes: map<string, nat>, before: Acc, lines: seq<string>)
    requires lines != [] && before.failure.None?
    requires MeasureClean(scope, sizes, lines[..|lines| - 1])
    ensures var r := AuditStep(scope, true, statedir, sizes, before, lines[|lines| - 1]);
      && (r.failure.None? <==> MeasureClean(scope, sizes, lines))
      && (r.failure.Some? ==> Fatal(scope, sizes, lines, r.failure.value))
  {
    var line := lines[|lines| - 1];
    AuditMeasureStep(scope, statedir, sizes, before, line);
    MeasureCleanSnoc(scope, sizes, lines);
    var r := AuditStep(scope, true, statedir, sizes, before, line);
    if r.failure.Some? && r.failure.value.MissingSystemFile? {
      PickedSelected(scope, lines, r.failure.value.path);
    }
  }

  /** Input is clean when its earlier lines are and its last line neither lacks a space nor names a missing source. */
  lemma MeasureCleanSnoc(scope: Scope, sizes: map<string, nat>, lines: seq<string>)
    requires lines != []
    ensures var init, line := lines[..|lines| - 1], lines[|lines| - 1];
      (MeasureClean(scope, sizes, lines)
       <==> MeasureClean(scope, sizes, init) && ' ' in line && (scope == System ==> AllExist(Rooted(Picked(scope, line)), sizes)))
  {
    var init, line := lines[..|lines| - 1], lines[|lines| - 1];
    assert lines == init + [line];
    var a, b := Selection(scope, init), Picked(scope, line);
    RootedAppend(a, b);
    assert WellFormed(lines) <==> WellFormed(init) && ' ' in line;
    assert AllExist(Rooted(a + b), sizes) <==> AllExist(Rooted(a), sizes) && AllExist(Rooted(b), sizes);
  }

  /** A reason to raise on the earlier lines stays one with a line more. */
  lemma FatalSnoc(scope: Scope, sizes: map<string, nat>, lines: seq<string>, f: Failure)
    requires lines != [] && Fatal(scope, sizes, lines[..|lines| - 1], f)
    ensures Fatal(scope, sizes, lines, f)
  {
    var init := lines[..|lines| - 1];
    assert f.MalformedAuditLine? && f.line in init ==> f.line in lines;
    RootedAppend(Selection(scope, init), Picked(scope, lines[|lines| - 1]));
  }

  /** The sources of the last line are among those selected from all the lines. */
  lemma PickedSelected(scope: Scope, lines: seq<string>, p: string)
    requires lines != [] && p in Rooted(Picked(scope, lines[|lines| - 1]))
    ensures p in Rooted(Selection(scope, lines))
  {
    RootedAppend(Selection(scope, lines[..|lines| - 1]), Picked(scope, lines[|lines| - 1]));
  }

  /** A measure pass that does not raise adds the sizes of the selected sources that exist. */
  lemma {:induction false} AuditMeasureSize(scope: Scope, statedir: string, sizes: map<string, nat>, acc0: Acc, lines: seq<string>)
    requires acc0.failure.None?
    requires AuditPass(scope, true, statedir, sizes, acc0, lines).failure.None?
    ensures AuditPass(scope, true, statedir, sizes, acc0, lines).size == acc0.size + SumExisting(Rooted(Selection(scope, lines)), sizes)
    decreases |lines|
  {
    if lines != [] {
      var init, line := lines[..|lines| - 1], lines[|lines| - 1];
      var before := AuditPass(scope, true, statedir, sizes, acc0, init);
      AuditMeasureSize(scope, statedir, sizes, acc0, init);
      var a, b := Selection(scope, init), Picked(scope, line);
      RootedAppend(a, b);
      AuditMeasureStepSize(scope, statedir, sizes, before, line);
      SumExistingAppend(Rooted(a), Rooted(b), sizes);
    }
  }

  /** Copying into a directory creates it first when missing, and records exactly one copy. */
  lemma CopyIntoEffects(acc: Acc, source: string, target: string)
    ensures var r := CopyInto(acc, source, target);
      && CopiesOf(r.effects) == CopiesOf(acc.effects) + [(source, target)]
      && ProgressOf(r.effects) == ProgressOf(acc.effects)
      && acc.dirs <= r.dirs && Dirname(target) in r.dirs
      && r.errors == acc.errors && r.size == acc.size && r.failure == acc.failure
  {
    var d := Dirname(target);
    var r := CopyInto(acc, source, target);
    if d in acc.dirs {
      assert r.effects == acc.effects + [Copy(source, target)];
      CopiesOfAppend(acc.effects, [Copy(source, target)]);
      ProgressOfAppend(acc.effects, [Copy(source, target)]);
    } else {
      var tail := [MakeDirs(d), Copy(source, target)];
      assert r.effects == acc.effects + tail;
      assert r.dirs == acc.dirs + Ancestors(d);
      CopiesOfAppend(acc.effects, tail);
      ProgressOfAppend(acc.effects, tail);
      assert tail[..1] == [MakeDirs(d)];
    }
  }

  /** One capture step: a line without a space raises, a selected line is copied into the state directory. */
  lemma AuditCaptureStep(scope: Scope, statedir: string, sizes: map<string, nat>, acc: Acc, line: string)
    requires acc.failure.None?
    ensures var r := AuditStep(scope, false, statedir, sizes, acc, line);
      && acc.dirs <= r.dirs && r.errors == acc.errors && r.size == acc.size
      && ProgressOf(r.effects) == ProgressOf(acc.effects)
      && (r.failure.None? <==> ' ' in line)
      && (r.failure.Some? ==> r.failure == Some(MalformedAuditLine(line)))
      && (r.failure.None? ==> CopiesOf(r.effects) == CopiesOf(acc.effects) + Planned(statedir, Picked(scope, line)))
      && (r.failure.None? ==> forall p :: p in Picked(scope, line) ==> Dirname(JoinPath(statedir, p)) in r.dirs)
  {
    match ParseAuditLine(line)
    case None =>
    case Some(rec) =>
      if Selects(scope, rec) {
        CopyIntoEffects(acc, JoinPath("/", rec.path), JoinPath(statedir, rec.path));
      }
  }

  /**
    Capture mode (pmos_backup/state.py, lines 47-62 and 64-84): the pass
    raises exactly when a line has no space, and it never reports progress,
    adds an error message or counts bytes.
  */
  lemma {:induction false} AuditCapture(scope: Scope, statedir: string, sizes: map<string, nat>, acc0: Acc, lines: seq<string>)
    requires acc0.failure.None?
    ensures var r := AuditPass(scope, false, statedir, sizes, acc0, lines);
      && acc0.dirs <= r.dirs && r.errors == acc0.errors && r.size == acc0.size
      && ProgressOf(r.effects) == ProgressOf(acc0.effects)
      && (r.failure.None? <==> WellFormed(lines))
      && (r.failure.Some? ==> r.failure.value.MalformedAuditLine? && r.failure.value.line in lines && ' ' !in r.failure.value.line)
    decreases |lines|
  {
    if lines != [] {
      var init, line := lines[..|lines| - 1], lines[|lines| - 1];
      assert lines == init + [line];
      AuditCapture(scope, statedir, sizes, acc0, init);
      var before := AuditPass(scope, false, statedir, sizes, acc0, init);
      if before.failure.None? {
        AuditCaptureStep(scope, statedir, sizes, before, line);
      }
    }
  }

  /** The last line of a capture pass that does not raise copies what it selects. */
  lemma AuditCaptureLast(scope: Scope, statedir: string, sizes: map<string, nat>, acc0: Acc, lines: seq<string>)
    requires acc0.failure.None? && lines != []
    requires AuditPass(scope, false, statedir, sizes, acc0, lines).failure.None?
    ensures var before := AuditPass(scope, false, statedir, sizes, acc0, lines[..|lines| - 1]);
      && before.failure.None?
      && CopiesOf(AuditPass(scope, false, statedir, sizes, acc0, lines).effects)
         == CopiesOf(before.effects) + Planned(statedir, Picked(scope, lines[|lines| - 1]))
  {
    var before := AuditPass(scope, false, statedir, sizes, acc0, lines[..|lines| - 1]);
    AuditCaptureStep(scope, statedir, sizes, before, lines[|lines| - 1]);
  }

  /**
    A capture pass that does not raise has copied every selected path from
    under `/` to the same place under the state directory, in audit order.
  */
  lemma {:induction false} AuditCaptureCopies(scope: Scope, statedir: string, sizes: map<string, nat>, acc0: Acc, lines: seq<string>)
    requires acc0.failure.None?
    requires AuditPass(scope, false, statedir, sizes, acc0, lines).failure.None?
    ensures CopiesOf(AuditPass(scope, false, statedir, sizes, acc0, lines).effects)
         == CopiesOf(acc0.effects) + Planned(statedir, Selection(scope, lines))
    decreases |lines|
  {
    if lines != [] {
      var init := lines[..|lines| - 1];
      AuditCaptureLast(scope, statedir, sizes, acc0, lines);
      AuditCaptureCopies(scope, statedir, sizes, acc0, init);
      PlannedAppend(statedir, Selection(scope, init), Picked(scope, lines[|lines| - 1]));
    }
  }

  /** After a capture pass that does not raise, the directory of every copy target exists. */
  lemma {:induction false} AuditCaptureDirs(scope: Scope, statedir: string, sizes: map<string, nat>, acc0: Acc, lines: seq<string>)
    requires acc0.failure.None?
    requires AuditPass(scope, false, statedir, sizes, acc0, lines).failure.None?
    ensures forall p :: p in Selection(scope, lines) ==> Dirname(JoinPath(statedir, p)) in AuditPass(scope, false, statedir, sizes, acc0, lines).dirs
    decreases |lines|
  {
    if lines != [] {
      var init, line := lines[..|lines| - 1], lines[|lines| - 1];
      assert lines == init + [line];
      var before := AuditPass(scope, false, statedir, sizes, acc0, init);
      assert before.failure.None?;
      AuditCaptureDirs(scope, statedir, sizes, acc0, init);
      AuditCaptureStep(scope, statedir, sizes, before, line);
    }
  }

  /** `os.makedirs` of a missing directory adds it and its parents; on a closed set exactly those, and the set stays closed. */
  lemma MakeDirsIfMissingDirs(acc: Acc, d: string)
    ensures var r := MakeDirsIfMissing(acc, d);
      && acc.dirs <= r.dirs <= acc.dirs + Ancestors(d)
      && (Closed(acc.dirs) ==> r.dirs == acc.dirs + Ancestors(d) && Closed(r.dirs))
  {
    AncestorsClosed(d);
  }

  /** `os.makedirs` of a new directory adds it and its parents, and keeps a closed set closed. */
  lemma MakeDirsFreshDirs(acc: Acc, d: string)
    ensures var r := MakeDirsFresh(acc, d);
      && (r.failure == acc.failure ==> acc.dirs <= r.dirs <= acc.dirs + Ancestors(d))
      && (r.failure == acc.failure && Closed(acc.dirs) ==> r.dirs == acc.dirs + Ancestors(d) && Closed(r.dirs))
  {
    AncestorsClosed(d);
  }

  /** One capture step leaves behind the directories of the copy it makes, and no other. */
  lemma AuditCaptureStepDirs(scope: Scope, statedir: string, sizes: map<string, nat>, acc: Acc, line: string)
    requires acc.failure.None?
    ensures var r := AuditStep(scope, false, statedir, sizes, acc, line);
      && r.dirs <= acc.dirs + MadeDirs(statedir, Picked(scope, line))
      && (Closed(acc.dirs) ==> r.dirs == acc.dirs + MadeDirs(statedir, Picked(scope, line)) && Closed(r.dirs))
  {
    match ParseAuditLine(line)
    case None =>
    case Some(rec) =>
      if Selects(scope, rec) {
        MakeDirsIfMissingDirs(acc, Dirname(JoinPath(statedir, rec.path)));
        assert [rec.path][..0] == [];
      }
  }

  /**
    A capture pass that does not raise leaves behind at most the
    directories of its copy targets and their parents; on a closed set
    exactly those, and the set stays closed.
  */
  lemma {:induction false} AuditCaptureMadeDirs(scope: Scope, statedir: string, sizes: map<string, nat>, acc0: Acc, lines: seq<string>)
    requires acc0.failure.None?
    requires AuditPass(scope, false, statedir, sizes, acc0, lines).failure.None?
    ensures var r := AuditPass(scope, false, statedir, sizes, acc0, lines);
      && r.dirs <= acc0.dirs + MadeDirs(statedir, Selection(scope, lines))
      && (Closed(acc0.dirs) ==> r.dirs == acc0.dirs + MadeDirs(statedir, Selection(scope, lines)) && Closed(r.dirs))
    decreases |lines|
  {
    if lines != [] {
      var init, line := lines[..|lines| - 1], lines[|lines| - 1];
      var before := AuditPass(scope, false, statedir, sizes, acc0, init);
      assert before.failure.None?;
      AuditCaptureMadeDirs(scope, statedir, sizes, acc0, init);
      AuditCaptureStepDirs(scope, statedir, sizes, before, line);
      MadeDirsAppend(statedir, Selection(scope, init), Picked(scope, line));
    }
  }

  // ---------------------------------------------------------------------
  // The sideloaded packages

  /**
    A world line `<name>><hash>` of a sideloaded package names `<name>`,
    whatever the rest of the line holds (pmos_backup/state.py, lines 96-97).
  */
  lemma SideloadLine(name: string, rest: string)
    requires '>' !in name
    ensures LineNames(name + SideloadMarker + rest) == [name]
  {
    var line := name + SideloadMarker + rest;
    assert line[|name|..|name| + 2] == SideloadMarker;
    ContainsAt(line, SideloadMarker, |name|);
    assert line == name + ['>'] + ("<" + rest);
    SplitFirstUnique(line, '>', name, "<" + rest);
  }

  /** A world whose only line is a sideloaded package missing from the cache yields exactly one error message. */
  lemma SideloadMissing(name: string, rest: string, index: map<string, seq<string>>)
    requires '>' !in name && name !in index
    ensures MissingMessages(SideloadNames([name + SideloadMarker + rest]), index)
         == ["Could not backup sideloaded package: " + name + ", not in cache."]
  {
    var world := [name + SideloadMarker + rest];
    SideloadLine(name, rest);
    assert world[..0] == [];
    assert SideloadNames(world) == [name];
    assert [name][..0] == [];
  }

  /**
    The files of one sideloaded package (pmos_backup/state.py, lines 102-109):
    in measure mode their existing sizes are added. In capture mode each is
    copied into the cache directory under its own name, in order, and the
    first one that is a broken link raises FileNotFoundError.
  */
  lemma {:induction false} CachePassMeaning(measure: bool, cachedir: string, sizes: map<string, nat>, acc0: Acc, paths: seq<string>)
    requires acc0.failure.None?
    ensures var r := CachePass(measure, cachedir, sizes, acc0, paths);
      && ProgressOf(r.effects) == ProgressOf(acc0.effects)
      && (measure ==> r.size == acc0.size + SumExisting(paths, sizes))
      && (!measure ==> (r.failure.None? <==> FirstMissing(paths, sizes).None?))
      && (!measure && r.failure.Some? ==> r.failure.value == MissingCacheFile(FirstMissing(paths, sizes).value))
      && (!measure && r.failure.None? ==> CopiesOf(r.effects) == CopiesOf(acc0.effects) + CacheCopies(cachedir, paths))
    decreases |paths|
  {
    if paths != [] {
      var init, last := paths[..|paths| - 1], paths[|paths| - 1];
      CachePassMeaning(measure, cachedir, sizes, acc0, init);
      var before := CachePass(measure, cachedir, sizes, acc0, init);
      if !measure && before.failure.None? && last in sizes {
        var target := JoinPath(cachedir, Basename(last));
        var e := Copy(last, target);
        CopiesOfAppend(before.effects, [e]);
        ProgressOfAppend(before.effects, [e]);
        assert [e][..0] == [];
        assert CopiesOf([e]) == [(last, target)];
        AppendAssociative(CopiesOf(acc0.effects), CacheCopies(cachedir, init), [(last, target)]);
      }
    }
  }

  /**
    One world line: a sideloaded package missing from the index is reported,
    one present has its files handled, and in capture mode its first broken
    link raises.
  */
  lemma WorldLineMeaning(measure: bool, cachedir: string, sizes: map<string, nat>, index: map<string, seq<string>>, acc: Acc, line: string)
    requires acc.failure.None?
    ensures var r := WorldStep(measure, cachedir, sizes, index, acc, line);
      var files := FilesOf(LineNames(line), index);
      && r.errors == acc.errors + MissingMessages(LineNames(line), index)
      && ProgressOf(r.effects) == ProgressOf(acc.effects)
      && (measure ==> r.size == acc.size + SumExisting(files, sizes))
      && (!measure ==> r.size == acc.size && (r.failure.None? <==> FirstMissing(files, sizes).None?))
      && (!measure && r.failure.Some? ==> r.failure.value == MissingCacheFile(FirstMissing(files, sizes).value))
      && (!measure && r.failure.None? ==> CopiesOf(r.effects) == CopiesOf(acc.effects) + CacheCopies(cachedir, files))
  {
    if Contains(line, SideloadMarker) {
      var name := SideloadName(line);
      assert [name][..0] == [];
      if name in index {
        CachePassMeaning(measure, cachedir, sizes, acc, index[name]);
        assert FilesOf([name], index) == index[name];
      }
    }
  }

  /** The last world line, reached without an exception, adds its own part to what the earlier lines produced. */
  lemma WorldLast(measure: bool, cachedir: string, sizes: map<string, nat>, index: map<string, seq<string>>, acc0: Acc, world: seq<string>)
    requires world != []
    requires WorldPass(measure, cachedir, sizes, index, acc0, world[..|world| - 1]).failure.None?
    ensures var r := WorldPass(measure, cachedir, sizes, index, acc0, world);
      var before := WorldPass(measure, cachedir, sizes, index, acc0, world[..|world| - 1]);
      var files := FilesOf(LineNames(world[|world| - 1]), index);
      && r.errors == before.errors + MissingMessages(LineNames(world[|world| - 1]), index)
      && ProgressOf(r.effects) == ProgressOf(before.effects)
      && (measure ==> r.size == before.size + SumExisting(files, sizes))
      && (!measure ==> r.size == before.size && (r.failure.None? <==> FirstMissing(files, sizes).None?))
      && (!measure && r.failure.Some? ==> r.failure.value == MissingCacheFile(FirstMissing(files, sizes).value))
      && (!measure && r.failure.None? ==> CopiesOf(r.effects) == CopiesOf(before.effects) + CacheCopies(cachedir, files))
  {
    var before := WorldPass(measure, cachedir, sizes, index, acc0, world[..|world| - 1]);
    WorldLineMeaning(measure, cachedir, sizes, index, before, world[|world| - 1]);
  }

  /**
    The loop over /etc/apk/world (pmos_backup/state.py, lines 94-101): one
    error per sideloaded package missing from the cache index, in world
    order, and no progress report.
  */
  lemma {:induction false} WorldPassErrors(measure: bool, cachedir: string, sizes: map<string, nat>, index: map<string, seq<string>>, acc0: Acc, world: seq<string>)
    requires acc0.failure.None?
    ensures var r := WorldPass(measure, cachedir, sizes, index, acc0, world);
      && ProgressOf(r.effects) == ProgressOf(acc0.effects)
      && (r.failure.None? ==> r.errors == acc0.errors + MissingMessages(SideloadNames(world), index))
    decreases |world|
  {
    if world != [] {
      var init := world[..|world| - 1];
      WorldPassErrors(measure, cachedir, sizes, index, acc0, init);
      var before := WorldPass(measure, cachedir, sizes, index, acc0, init);
      if before.failure.None? {
        WorldLast(measure, cachedir, sizes, index, acc0, world);
        ErrorsCombine(index, acc0, before, WorldPass(measure, cachedir, sizes, index, acc0, world), SideloadNames(init), LineNames(world[|world| - 1]));
      }
    }
  }

  /** The errors and progress reports of the earlier lines and of the last line add up. */
  lemma ErrorsCombine(index: map<string, seq<string>>, acc0: Acc, before: Acc, r: Acc, a: seq<string>, b: seq<string>)
    requires before.errors == acc0.errors + MissingMessages(a, index) && ProgressOf(before.effects) == ProgressOf(acc0.effects)
    requires r.errors == before.errors + MissingMessages(b, index) && ProgressOf(r.effects) == ProgressOf(before.effects)
    ensures r.errors == acc0.errors + MissingMessages(a + b, index) && ProgressOf(r.effects) == ProgressOf(acc0.effects)
  {
    MissingMessagesAppend(a, b, index);
    AppendAssociative(acc0.errors, MissingMessages(a, index), MissingMessages(b, index));
  }

  /**
    The files of the sideloaded packages that the cache index has
    (pmos_backup/state.py, lines 102-109): their existing sizes summed in
    measure mode. In capture mode each is copied into the cache directory,
    and the first broken link among them raises FileNotFoundError.
  */
  lemma {:induction false} WorldPassFiles(measure: bool, cachedir: string, sizes: map<string, nat>, index: map<string, seq<string>>, acc0: Acc, world: seq<string>)
    requires acc0.failure.None?
    ensures var r := WorldPass(measure, cachedir, sizes, index, acc0, world);
      var files := FilesOf(SideloadNames(world), index);
      && (measure ==> r.size == acc0.size + SumExisting(files, sizes))
      && (!measure ==> r.size == acc0.size && (r.failure.None? <==> FirstMissing(files, sizes).None?))
      && (!measure && r.failure.Some? ==> r.failure.value == MissingCacheFile(FirstMissing(files, sizes).value))
      && (!measure && r.failure.None? ==> CopiesOf(r.effects) == CopiesOf(acc0.effects) + CacheCopies(cachedir, files))
    decreases |world|
  {
    if world != [] {
      var init := world[..|world| - 1];
      var a, b := SideloadNames(init), LineNames(world[|world| - 1]);
      WorldPassFiles(measure, cachedir, sizes, index, acc0, init);
      var before := WorldPass(measure, cachedir, sizes, index, acc0, init);
      if before.failure.None? {
        WorldLast(measure, cachedir, sizes, index, acc0, world);
        FilesCombine(measure, cachedir, sizes, index, acc0, before, WorldPass(measure, cachedir, sizes, index, acc0, world), a, b);
      } else {
        FilesStop(sizes, index, a, b);
      }
    }
  }

  /** The sizes or copies of the files of the earlier lines and of the last line add up. */
  lemma FilesCombine(measure: bool, cachedir: string, sizes: map<string, nat>, index: map<string, seq<string>>,
                     acc0: Acc, before: Acc, r: Acc, a: seq<string>, b: seq<string>)
    requires before.failure.None?
    requires measure ==> before.size == acc0.size + SumExisting(FilesOf(a, index), sizes)
    requires !measure ==> before.size == acc0.size && FirstMissing(FilesOf(a, index), sizes).None?
    requires !measure ==> CopiesOf(before.effects) == CopiesOf(acc0.effects) + CacheCopies(cachedir, FilesOf(a, index))
    requires measure ==> r.size == before.size + SumExisting(FilesOf(b, index), sizes)
    requires !measure ==> r.size == before.size && (r.failure.None? <==> FirstMissing(FilesOf(b, index), sizes).None?)
    requires !measure && r.failure.Some? ==> r.failure.value == MissingCacheFile(FirstMissing(FilesOf(b, index), sizes).value)
    requires !measure && r.failure.None? ==> CopiesOf(r.effects) == CopiesOf(before.effects) + CacheCopies(cachedir, FilesOf(b, index))
    ensures var files := FilesOf(a + b, index);
      && (measure ==> r.size == acc0.size + SumExisting(files, sizes))
      && (!measure ==> r.size == acc0.size && (r.failure.None? <==> FirstMissing(files, sizes).None?))
      && (!measure && r.failure.Some? ==> r.failure.value == MissingCacheFile(FirstMissing(files, sizes).value))
      && (!measure && r.failure.None? ==> CopiesOf(r.effects) == CopiesOf(acc0.effects) + CacheCopies(cachedir, files))
  {
    FilesOfAppend(a, b, index);
    if measure {
      SumExistingAppend(FilesOf(a, index), FilesOf(b, index), sizes);
    } else {
      FirstMissingAppend(FilesOf(a, index), FilesOf(b, index), sizes);
      CacheCopiesAppend(cachedir, FilesOf(a, index), FilesOf(b, index));
      AppendAssociative(CopiesOf(acc0.effects), CacheCopies(cachedir, FilesOf(a, index)), CacheCopies(cachedir, FilesOf(b, index)));
    }
  }

  /** A file missing among the earlier lines' files is still the first missing one with a line more. */
  lemma FilesStop(sizes: map<string, nat>, index: map<string, seq<string>>, a: seq<string>, b: seq<string>)
    requires FirstMissing(FilesOf(a, index), sizes).Some?
    ensures FirstMissing(FilesOf(a + b, index), sizes) == FirstMissing(FilesOf(a, index), sizes)
  {
    FilesOfAppend(a, b, index);
    FirstMissingAppend(FilesOf(a, index), FilesOf(b, index), sizes);
  }

  /**
    With the index that `parse_apk_cache` builds, the files handled for the
    sideloaded packages are exactly the cache files whose package name is
    one of the sideloaded names.
  */
  lemma {:induction false} FilesOfCache(names: seq<string>, cache: seq<string>, p: string)
    ensures p in FilesOf(names, CacheIndex(cache)) <==> p in cache && PathPackage(p) in names
    decreases |names|
  {
    if names != [] {
      var init, last := names[..|names| - 1], names[|names| - 1];
      var index := CacheIndex(cache);
      FilesOfCache(init, cache, p);
      FiledUnderMembers(cache, PathPackage, last, p);
      assert names == init + [last];
      if p in cache && PathPackage(p) == last {
        assert last in KeysOf(cache, PathPackage);
      }
    }
  }

  // ---------------------------------------------------------------------
  // The whole run

  /** The three metadata files copied into the state directory before the audits. */
  function MetadataCopies(statedir: string): seq<(string, string)> {
    [ ("/etc/apk/world", JoinPath(statedir, "world")),
      ("/etc/apk/repositories", JoinPath(statedir, "repositories")),
      ("/etc/os-release", JoinPath(statedir, "os-release")) ]
  }

  /** The state directory is never one of the directories that making the target creates. */
  lemma StateDirIsNew(target: string)
    ensures JoinPath(target, StateDirName) !in Ancestors(target)
  {
    var statedir := JoinPath(target, StateDirName);
    JoinPathShape(target, StateDirName);
    AncestorsArePrefixes(target);
  }

  /** The cache directory is never one of the directories that making the target and the state directory creates. */
  lemma CacheDirIsNew(target: string)
    ensures var statedir := JoinPath(target, StateDirName);
      JoinPath(statedir, CacheDirName) !in Ancestors(target) + Ancestors(statedir)
  {
    var statedir := JoinPath(target, StateDirName);
    JoinPathShape(target, StateDirName);
    JoinPathShape(statedir, CacheDirName);
    AncestorsArePrefixes(target);
    AncestorsArePrefixes(statedir);
  }

  /** Capture-mode preparation makes the target and the state directory, with their parents, and keeps a closed set closed. */
  lemma PrepareDirs(target: string, dirs: set<string>)
    ensures var statedir := JoinPath(target, StateDirName);
      var p := Prepare(target, statedir, Acc(dirs, [], [], 0, None));
      && (p.failure.None? ==> dirs <= p.dirs <= dirs + Ancestors(target) + Ancestors(statedir))
      && (p.failure.None? && Closed(dirs) ==> p.dirs == dirs + Ancestors(target) + Ancestors(statedir) && Closed(p.dirs))
  {
    var statedir := JoinPath(target, StateDirName);
    var start := Acc(dirs, [], [], 0, None);
    MakeDirsIfMissingDirs(start, target);
    MakeDirsFreshDirs(MakeDirsIfMissing(start, target), statedir);
  }

  /** Set bookkeeping for line 93: a directory that preparation did not make exists only if it did before or an audit made it. */
  lemma ExistsAtCacheStage(x: string, dirs: set<string>, prepared: set<string>, made: set<string>, current: set<string>)
    requires x !in prepared && dirs <= current <= dirs + prepared + made
    ensures x in current ==> x in dirs || x in made
    ensures x in dirs ==> x in current
  {
  }

  /**
    The directories that exist when line 93 makes the cache directory hold
    it only when it existed before the call or an audit copy made it, and
    when the directories form a tree they then do hold it.
  */
  lemma CacheDirBeforeWorld(target: string, env: Env, prepared: Acc, config: Acc, system: Acc)
    requires var statedir := JoinPath(target, StateDirName);
      && prepared == Prepare(target, statedir, Acc(env.dirs, [], [], 0, None)) && prepared.failure.None?
      && config == AuditPass(Config, false, statedir, env.sizes, Emit(prepared, Progress(20, ConfigLabel)), env.backupAudit)
      && config.failure.None?
      && system == AuditPass(System, false, statedir, env.sizes, Emit(config, Progress(30, SystemLabel)).(size := 0), env.systemAudit)
      && system.failure.None?
    ensures var statedir := JoinPath(target, StateDirName);
      var cachedir := JoinPath(statedir, CacheDirName);
      && (cachedir in system.dirs ==> CacheDirTaken(statedir, env))
      && (cachedir in env.dirs ==> cachedir in system.dirs)
      && (Closed(env.dirs) && CacheDirTaken(statedir, env) ==> cachedir in system.dirs)
  {
    var statedir := JoinPath(target, StateDirName);
    var cachedir := JoinPath(statedir, CacheDirName);
    var made1, made2 := MadeDirs(statedir, Selection(Config, env.backupAudit)), MadeDirs(statedir, Selection(System, env.systemAudit));
    var c0 := Emit(prepared, Progress(20, ConfigLabel));
    var s0 := Emit(config, Progress(30, SystemLabel)).(size := 0);
    PrepareDirs(target, env.dirs);
    AuditCapture(Config, statedir, env.sizes, c0, env.backupAudit);
    AuditCapture(System, statedir, env.sizes, s0, env.systemAudit);
    AuditCaptureMadeDirs(Config, statedir, env.sizes, c0, env.backupAudit);
    AuditCaptureMadeDirs(System, statedir, env.sizes, s0, env.systemAudit);
    CacheDirIsNew(target);
    ExistsAtCacheStage(cachedir, env.dirs, Ancestors(target) + Ancestors(statedir), made1 + made2, system.dirs);
  }

  /** Emitting one effect adds it to the copies when it is a copy. */
  lemma EmitCopies(acc: Acc, e: Effect)
    ensures CopiesOf(Emit(acc, e).effects) == CopiesOf(acc.effects) + (if e.Copy? then [(e.source, e.target)] else [])
  {
    assert (acc.effects + [e])[..|acc.effects|] == acc.effects;
  }

  /** Emitting one effect adds it to the progress reports when it is one. */
  lemma EmitProgress(acc: Acc, e: Effect)
    ensures ProgressOf(Emit(acc, e).effects) == ProgressOf(acc.effects) + (if e.Progress? then [e.percent] else [])
  {
    assert (acc.effects + [e])[..|acc.effects|] == acc.effects;
  }

  /** Making the target and state directories adds neither copies nor progress reports. */
  lemma MakeDirsEffects(target: string, statedir: string, start: Acc)
    ensures var made := MakeDirsFresh(MakeDirsIfMissing(start, target), statedir);
      CopiesOf(made.effects) == CopiesOf(start.effects) && ProgressOf(made.effects) == ProgressOf(start.effects)
  {
    var first := MakeDirsIfMissing(start, target);
    MakeDirsIfMissingEffects(start, target);
    MakeDirsFreshEffects(first, statedir);
  }

  /** Making a missing directory records neither a copy nor a progress report. */
  lemma MakeDirsIfMissingEffects(acc: Acc, d: string)
    ensures CopiesOf(MakeDirsIfMissing(acc, d).effects) == CopiesOf(acc.effects)
    ensures ProgressOf(MakeDirsIfMissing(acc, d).effects) == ProgressOf(acc.effects)
  {
    if d !in acc.dirs {
      EmitCopies(acc, MakeDirs(d));
      EmitProgress(acc, MakeDirs(d));
    }
  }

  /**
    Capture-mode preparation (pmos_backup/state.py, lines 34-39): it raises
    exactly when the state directory already exists.
  */
  lemma PrepareRaises(target: string, dirs: set<string>)
    ensures var statedir := JoinPath(target, StateDirName);
      var p := Prepare(target, statedir, Acc(dirs, [], [], 0, None));
      && (p.failure.Some? <==> statedir in dirs)
      && (p.failure.Some? ==> p.failure == Some(DirectoryExists(statedir)))
      && p.errors == [] && p.size == 0
  {
    StateDirIsNew(target);
  }

  /** Capture-mode preparation that does not raise reports 10% (pmos_backup/state.py, line 42). */
  lemma PrepareProgress(target: string, dirs: set<string>)
    ensures var statedir := JoinPath(target, StateDirName);
      var p := Prepare(target, statedir, Acc(dirs, [], [], 0, None));
      p.failure.None? ==> ProgressOf(p.effects) == [10]
  {
    var statedir := JoinPath(target, StateDirName);
    var start := Acc(dirs, [], [], 0, None);
    var made := MakeDirsFresh(MakeDirsIfMissing(start, target), statedir);
    MakeDirsEffects(target, statedir, start);
    var announced := Emit(made, Progress(10, MetadataLabel));
    var world := Emit(announced, Copy("/etc/apk/world", JoinPath(statedir, "world")));
    var repositories := Emit(world, Copy("/etc/apk/repositories", JoinPath(statedir, "repositories")));
    EmitProgress(made, Progress(10, MetadataLabel));
    EmitProgress(announced, Copy("/etc/apk/world", JoinPath(statedir, "world")));
    EmitProgress(world, Copy("/etc/apk/repositories", JoinPath(statedir, "repositories")));
    EmitProgress(repositories, Copy("/etc/os-release", JoinPath(statedir, "os-release")));
  }

  /** Capture-mode preparation that does not raise copies the three metadata files (pmos_backup/state.py, lines 43-45). */
  lemma PrepareCopies(target: string, dirs: set<string>)
    ensures var statedir := JoinPath(target, StateDirName);
      var p := Prepare(target, statedir, Acc(dirs, [], [], 0, None));
      p.failure.None? ==> CopiesOf(p.effects) == MetadataCopies(statedir)
  {
    var statedir := JoinPath(target, StateDirName);
    var start := Acc(dirs, [], [], 0, None);
    var made := MakeDirsFresh(MakeDirsIfMissing(start, target), statedir);
    if made.failure.None? {
      MakeDirsEffects(target, statedir, start);
      var copies := MetadataCopies(statedir);
      var w, r, o := copies[0], copies[1], copies[2];
      var announced := Emit(made, Progress(10, MetadataLabel));
      var world := Emit(announced, Copy(w.0, w.1));
      var repositories := Emit(world, Copy(r.0, r.1));
      var done := Emit(repositories, Copy(o.0, o.1));
      assert Prepare(target, statedir, start) == done;
      EmitCopies(made, Progress(10, MetadataLabel));
      EmitCopies(announced, Copy(w.0, w.1));
      EmitCopies(world, Copy(r.0, r.1));
      EmitCopies(repositories, Copy(o.0, o.1));
      assert CopiesOf(done.effects) == [] + [w] + [r] + [o];
    }
  }

  /**
    Measure mode from start to finish (pmos_backup/state.py, lines 32-117):
    the call returns exactly when both audits are clean.
  */
  lemma SaveMeasureReturns(target: string, env: Env)
    ensures Save(target, true, env).outcome.Returned?
        <==> WellFormed(env.backupAudit) && MeasureClean(System, env.sizes, env.systemAudit)
  {
    var statedir := JoinPath(target, StateDirName);
    var c0 := Emit(Acc(env.dirs, [], [], 0, None), Progress(20, ConfigLabel));
    AuditMeasure(Config, statedir, env.sizes, c0, env.backupAudit);
    var config := AuditPass(Config, true, statedir, env.sizes, c0, env.backupAudit);
    if config.failure.None? {
      AuditMeasure(System, statedir, env.sizes, Emit(config, Progress(30, SystemLabel)).(size := 0), env.systemAudit);
    }
  }

  /**
    A measure call that returns reports the missing sideloaded packages and
    the three byte counts (pmos_backup/state.py, lines 111-117).
  */
  lemma SaveMeasureResult(target: string, env: Env)
    ensures var run := Save(target, true, env);
      var names, index := SideloadNames(env.world), CacheIndex(env.cache);
      run.outcome.Returned? ==> run.outcome.result == Measured(
        MissingMessages(names, index),
        SumExisting(Rooted(Selection(Config, env.backupAudit)), env.sizes),
        SumExisting(Rooted(Selection(System, env.systemAudit)), env.sizes),
        SumExisting(FilesOf(names, index), env.sizes))
  {
    var statedir := JoinPath(target, StateDirName);
    var c0 := Emit(Acc(env.dirs, [], [], 0, None), Progress(20, ConfigLabel));
    var config := AuditPass(Config, true, statedir, env.sizes, c0, env.backupAudit);
    var s0 := Emit(config, Progress(30, SystemLabel)).(size := 0);
    var system := AuditPass(System, true, statedir, env.sizes, s0, env.systemAudit);
    if config.failure.None? && system.failure.None? {
      AuditMeasureQuiet(Config, statedir, env.sizes, c0, env.backupAudit);
      AuditMeasureSize(Config, statedir, env.sizes, c0, env.backupAudit);
      AuditMeasureQuiet(System, statedir, env.sizes, s0, env.systemAudit);
      AuditMeasureSize(System, statedir, env.sizes, s0, env.systemAudit);
      var ready := Emit(system, Progress(40, SideloadLabel)).(size := 0);
      var cachedir := JoinPath(statedir, CacheDirName);
      WorldPassErrors(true, cachedir, env.sizes, CacheIndex(env.cache), ready, env.world);
      WorldPassFiles(true, cachedir, env.sizes, CacheIndex(env.cache), ready, env.world);
      var sideloads := WorldPass(true, cachedir, env.sizes, CacheIndex(env.cache), ready, env.world);
      var missing := MissingMessages(SideloadNames(env.world), CacheIndex(env.cache));
      assert ready.errors == [] && ready.size == 0;
      assert [] + missing == missing;
      assert Save(target, true, env).outcome.result == Measured(sideloads.errors, config.size, system.size, sideloads.size);
    }
  }

  /**
    Measure mode creates and copies nothing: it only reports 20%, 30% and
    40% as it reaches each stage, and an exception is one that an audit pass
    raises.
  */
  lemma SaveMeasureEffects(target: string, env: Env)
    ensures var run := Save(target, true, env);
      var p20, p30, p40 := Progress(20, ConfigLabel), Progress(30, SystemLabel), Progress(40, SideloadLabel);
      && (run.outcome.Returned? ==> run.effects == [p20, p30, p40])
      && (run.outcome.Raised? ==>
            || (run.effects == [p20] && Fatal(Config, env.sizes, env.backupAudit, run.outcome.failure))
            || (run.effects == [p20, p30] && Fatal(System, env.sizes, env.systemAudit, run.outcome.failure)))
  {
    var statedir := JoinPath(target, StateDirName);
    var start := Acc(env.dirs, [], [], 0, None);
    var c0 := Emit(start, Progress(20, ConfigLabel));
    AuditMeasure(Config, statedir, env.sizes, c0, env.backupAudit);
    var config := AuditPass(Config, true, statedir, env.sizes, c0, env.backupAudit);
    if config.failure.None? {
      var s0 := Emit(config, Progress(30, SystemLabel)).(size := 0);
      AuditMeasure(System, statedir, env.sizes, s0, env.systemAudit);
    }
  }

  /**
    The exceptions of a capture call: FileExistsError for a state directory
    that already exists (line 39) or for a cache directory that existed or
    that an audit copy made (line 93), ValueError for an audit line without
    a space (lines 52 and 69), or FileNotFoundError for the first cached
    file of a sideloaded package that is a broken link (line 108).
  */
  lemma SaveCaptureFailures(target: string, env: Env)
    ensures var run := Save(target, false, env);
      var statedir := JoinPath(target, StateDirName);
      var files := FilesOf(SideloadNames(env.world), CacheIndex(env.cache));
      run.outcome.Raised? ==>
        || (run.outcome.failure == DirectoryExists(statedir) && statedir in env.dirs)
        || (run.outcome.failure == DirectoryExists(JoinPath(statedir, CacheDirName)) && CacheDirTaken(statedir, env))
        || (run.outcome.failure.MalformedAuditLine? && ' ' !in run.outcome.failure.line
            && (run.outcome.failure.line in env.backupAudit || run.outcome.failure.line in env.systemAudit))
        || (run.outcome.failure.MissingCacheFile? && FirstMissing(files, env.sizes) == Some(run.outcome.failure.path))
  {
    var statedir := JoinPath(target, StateDirName);
    var prepared := Prepare(target, statedir, Acc(env.dirs, [], [], 0, None));
    PrepareRaises(target, env.dirs);
    if prepared.failure.None? {
      var c0 := Emit(prepared, Progress(20, ConfigLabel));
      AuditCapture(Config, statedir, env.sizes, c0, env.backupAudit);
      var config := AuditPass(Config, false, statedir, env.sizes, c0, env.backupAudit);
      if config.failure.None? {
        var s0 := Emit(config, Progress(30, SystemLabel)).(size := 0);
        AuditCapture(System, statedir, env.sizes, s0, env.systemAudit);
        var system := AuditPass(System, false, statedir, env.sizes, s0, env.systemAudit);
        if system.failure.None? {
          SaveCaptureTail(target, env, prepared, config, system);
          CacheDirBeforeWorld(target, env, prepared, config, system);
        }
      }
    }
  }

  /** The last two stages of a capture call: line 93, then the world loop. */
  lemma SaveCaptureTail(target: string, env: Env, prepared: Acc, config: Acc, system: Acc)
    requires var statedir := JoinPath(target, StateDirName);
      && prepared == Prepare(target, statedir, Acc(env.dirs, [], [], 0, None)) && prepared.failure.None?
      && config == AuditPass(Config, false, statedir, env.sizes, Emit(prepared, Progress(20, ConfigLabel)), env.backupAudit)
      && config.failure.None?
      && system == AuditPass(System, false, statedir, env.sizes, Emit(config, Progress(30, SystemLabel)).(size := 0), env.systemAudit)
      && system.failure.None?
    ensures var statedir := JoinPath(target, StateDirName);
      var cachedir := JoinPath(statedir, CacheDirName);
      var files := FilesOf(SideloadNames(env.world), CacheIndex(env.cache));
      var run := Save(target, false, env);
      && (run.outcome == Raised(DirectoryExists(cachedir)) <==> cachedir in system.dirs)
      && (cachedir !in system.dirs ==> (run.outcome.Returned? <==> FirstMissing(files, env.sizes).None?))
      && (run.outcome.Raised? && cachedir !in system.dirs ==>
            run.outcome.failure.MissingCacheFile? && FirstMissing(files, env.sizes) == Some(run.outcome.failure.path))
  {
    var statedir := JoinPath(target, StateDirName);
    var cachedir := JoinPath(statedir, CacheDirName);
    var ready := MakeDirsFresh(Emit(system, Progress(40, SideloadLabel)).(size := 0), cachedir);
    if ready.failure.None? {
      WorldPassFiles(false, cachedir, env.sizes, CacheIndex(env.cache), ready, env.world);
    }
  }

  /**
    Capture mode (pmos_backup/state.py, lines 34-39): the call raises
    FileExistsError for the state directory exactly when that directory
    already exists.
  */
  lemma SaveCaptureStateDir(target: string, env: Env)
    ensures var statedir := JoinPath(target, StateDirName);
      Save(target, false, env).outcome == Raised(DirectoryExists(statedir)) <==> statedir in env.dirs
  {
    SaveCaptureFailures(target, env);
    PrepareRaises(target, env.dirs);
  }

  /**
    A capture call returns only when the state and cache directories were
    new, both audits are well formed and every cached file it copies
    exists (pmos_backup/state.py, lines 39, 52, 69, 93 and 108). When the
    directories form a file system's tree, that is exactly when it
    returns, with "new" meaning also that no audit copy made the cache
    directory.
  */
  lemma SaveCaptureReturns(target: string, env: Env)
    ensures var run := Save(target, false, env);
      var statedir := JoinPath(target, StateDirName);
      var files := FilesOf(SideloadNames(env.world), CacheIndex(env.cache));
      && (run.outcome.Returned? ==>
            && statedir !in env.dirs && JoinPath(statedir, CacheDirName) !in env.dirs
            && WellFormed(env.backupAudit) && WellFormed(env.systemAudit) && AllExist(files, env.sizes))
      && (Closed(env.dirs) ==>
            (run.outcome.Returned? <==>
               && statedir !in env.dirs && !CacheDirTaken(statedir, env)
               && WellFormed(env.backupAudit) && WellFormed(env.systemAudit) && AllExist(files, env.sizes)))
  {
    var statedir := JoinPath(target, StateDirName);
    var prepared := Prepare(target, statedir, Acc(env.dirs, [], [], 0, None));
    PrepareRaises(target, env.dirs);
    FirstMissingMeaning(FilesOf(SideloadNames(env.world), CacheIndex(env.cache)), env.sizes);
    if prepared.failure.None? {
      var c0 := Emit(prepared, Progress(20, ConfigLabel));
      AuditCapture(Config, statedir, env.sizes, c0, env.backupAudit);
      var config := AuditPass(Config, false, statedir, env.sizes, c0, env.backupAudit);
      if config.failure.None? {
        var s0 := Emit(config, Progress(30, SystemLabel)).(size := 0);
        AuditCapture(System, statedir, env.sizes, s0, env.systemAudit);
        var system := AuditPass(System, false, statedir, env.sizes, s0, env.systemAudit);
        if system.failure.None? {
          SaveCaptureTail(target, env, prepared, config, system);
          CacheDirBeforeWorld(target, env, prepared, config, system);
        }
      }
    }
  }

  /** A capture call that returns reports the sideloaded packages missing from the cache (lines 94-101 and 118-121). */
  lemma SaveCaptureResult(target: string, env: Env)
    ensures var run := Save(target, false, env);
      run.outcome.Returned? ==> run.outcome.result == Captured(MissingMessages(SideloadNames(env.world), CacheIndex(env.cache)))
  {
    var statedir := JoinPath(target, StateDirName);
    var prepared := Prepare(target, statedir, Acc(env.dirs, [], [], 0, None));
    PrepareRaises(target, env.dirs);
    var c0 := Emit(prepared, Progress(20, ConfigLabel));
    var config := AuditPass(Config, false, statedir, env.sizes, c0, env.backupAudit);
    var s0 := Emit(config, Progress(30, SystemLabel)).(size := 0);
    var system := AuditPass(System, false, statedir, env.sizes, s0, env.systemAudit);
    var cachedir := JoinPath(statedir, CacheDirName);
    var ready := MakeDirsFresh(Emit(system, Progress(40, SideloadLabel)).(size := 0), cachedir);
    if Save(target, false, env).outcome.Returned? {
      assert prepared.failure.None? && config.failure.None? && system.failure.None? && ready.failure.None?;
      AuditCapture(Config, statedir, env.sizes, c0, env.backupAudit);
      AuditCapture(System, statedir, env.sizes, s0, env.systemAudit);
      WorldPassErrors(false, cachedir, env.sizes, CacheIndex(env.cache), ready, env.world);
      var sideloads := WorldPass(false, cachedir, env.sizes, CacheIndex(env.cache), ready, env.world);
      assert sideloads.failure.None?;
      var missing := MissingMessages(SideloadNames(env.world), CacheIndex(env.cache));
      assert ready.errors == [];
      assert [] + missing == missing;
      assert Save(target, false, env).outcome.result == Captured(sideloads.errors);
    }
  }

  /** Making a fresh directory records neither a copy nor a progress report. */
  lemma MakeDirsFreshEffects(acc: Acc, d: string)
    ensures CopiesOf(MakeDirsFresh(acc, d).effects) == CopiesOf(acc.effects)
    ensures ProgressOf(MakeDirsFresh(acc, d).effects) == ProgressOf(acc.effects)
  {
    if d !in acc.dirs {
      EmitCopies(acc, MakeDirs(d));
      EmitProgress(acc, MakeDirs(d));
    }
  }

  /**
    An audit stage of a capture call (pmos_backup/state.py, lines 49-62 and
    66-84): after its progress report, it reports nothing more.
  */
  lemma StageProgress(scope: Scope, statedir: string, sizes: map<string, nat>, prev: Acc, report: Effect, start: Acc, lines: seq<string>)
    requires report.Progress? && start.failure.None? && start.effects == prev.effects + [report]
    ensures ProgressOf(AuditPass(scope, false, statedir, sizes, start, lines).effects) == ProgressOf(prev.effects) + [report.percent]
  {
    EmitProgress(prev, report);
    AuditCapture(scope, statedir, sizes, start, lines);
  }

  /**
    An audit stage of a capture call that does not raise copies the paths
    it selects, in audit order, after what was copied before it.
  */
  lemma StageCopies(scope: Scope, statedir: string, sizes: map<string, nat>, prev: Acc, report: Effect, start: Acc, lines: seq<string>)
    requires report.Progress? && start.failure.None? && start.effects == prev.effects + [report]
    ensures var r := AuditPass(scope, false, statedir, sizes, start, lines);
      r.failure.None? ==> CopiesOf(r.effects) == CopiesOf(prev.effects) + Planned(statedir, Selection(scope, lines))
  {
    var r := AuditPass(scope, false, statedir, sizes, start, lines);
    if r.failure.None? {
      AuditCaptureCopies(scope, statedir, sizes, start, lines);
      EmitCopies(prev, report);
      assert CopiesOf(start.effects) == CopiesOf(prev.effects);
    }
  }

  /** The world loop in capture mode copies the cache files of the sideloaded packages, after what was copied before. */
  lemma WorldCopies(cachedir: string, sizes: map<string, nat>, index: map<string, seq<string>>, prev: Acc, ready: Acc, world: seq<string>)
    requires CopiesOf(ready.effects) == CopiesOf(prev.effects)
    ensures var r := WorldPass(false, cachedir, sizes, index, ready, world);
      r.failure.None? ==> CopiesOf(r.effects) == CopiesOf(prev.effects) + CacheCopies(cachedir, FilesOf(SideloadNames(world), index))
  {
    if ready.failure.None? {
      WorldPassFiles(false, cachedir, sizes, index, ready, world);
    }
  }

  /** The sideload stage of a capture call reports 40% (line 90). */
  lemma SideloadStageProgress(cachedir: string, sizes: map<string, nat>, index: map<string, seq<string>>, system: Acc, world: seq<string>)
    ensures var ready := MakeDirsFresh(Emit(system, Progress(40, SideloadLabel)).(size := 0), cachedir);
      ProgressOf(WorldPass(false, cachedir, sizes, index, ready, world).effects) == ProgressOf(system.effects) + [40]
  {
    var announced := Emit(system, Progress(40, SideloadLabel)).(size := 0);
    EmitProgress(system, Progress(40, SideloadLabel));
    assert announced.effects == Emit(system, Progress(40, SideloadLabel)).effects;
    MakeDirsFreshEffects(announced, cachedir);
    if MakeDirsFresh(announced, cachedir).failure.None? {
      WorldPassErrors(false, cachedir, sizes, index, MakeDirsFresh(announced, cachedir), world);
    }
  }

  /** The sideload stage of a capture call copies the cache files of the sideloaded packages (lines 94-109). */
  lemma SideloadStageCopies(cachedir: string, sizes: map<string, nat>, index: map<string, seq<string>>, system: Acc, world: seq<string>)
    ensures var ready := MakeDirsFresh(Emit(system, Progress(40, SideloadLabel)).(size := 0), cachedir);
      var r := WorldPass(false, cachedir, sizes, index, ready, world);
      r.failure.None? ==> CopiesOf(r.effects) == CopiesOf(system.effects) + CacheCopies(cachedir, FilesOf(SideloadNames(world), index))
  {
    var announced := Emit(system, Progress(40, SideloadLabel)).(size := 0);
    EmitCopies(system, Progress(40, SideloadLabel));
    assert announced.effects == Emit(system, Progress(40, SideloadLabel)).effects;
    MakeDirsFreshEffects(announced, cachedir);
    WorldCopies(cachedir, sizes, index, system, MakeDirsFresh(announced, cachedir), world);
  }

  /** Sequence arithmetic for the progress reports, kept apart from the run it is about. */
  lemma ReportsInOrder(prepared: seq<nat>, config: seq<nat>, system: seq<nat>, sideloads: seq<nat>)
    requires prepared == [10] && config == prepared + [20] && system == config + [30] && sideloads == system + [40]
    ensures sideloads == [10, 20, 30, 40]
  {
  }

  /** A capture call that returns has reported 10%, 20%, 30% and 40%, in that order (lines 42, 49, 66 and 90). */
  lemma SaveCaptureProgress(target: string, env: Env)
    ensures var run := Save(target, false, env);
      run.outcome.Returned? ==> ProgressOf(run.effects) == [10, 20, 30, 40]
  {
    var statedir := JoinPath(target, StateDirName);
    var prepared := Prepare(target, statedir, Acc(env.dirs, [], [], 0, None));
    var config := AuditPass(Config, false, statedir, env.sizes, Emit(prepared, Progress(20, ConfigLabel)), env.backupAudit);
    var system := AuditPass(System, false, statedir, env.sizes, Emit(config, Progress(30, SystemLabel)).(size := 0), env.systemAudit);
    if prepared.failure.None? && config.failure.None? && system.failure.None? {
      var cachedir := JoinPath(statedir, CacheDirName);
      var ready := MakeDirsFresh(Emit(system, Progress(40, SideloadLabel)).(size := 0), cachedir);
      if ready.failure.None? {
        var sideloads := WorldPass(false, cachedir, env.sizes, CacheIndex(env.cache), ready, env.world);
        assert Save(target, false, env).effects == sideloads.effects;
        PrepareProgress(target, env.dirs);
        StageProgress(Config, statedir, env.sizes, prepared, Progress(20, ConfigLabel), Emit(prepared, Progress(20, ConfigLabel)), env.backupAudit);
        StageProgress(System, statedir, env.sizes, config, Progress(30, SystemLabel), Emit(config, Progress(30, SystemLabel)).(size := 0), env.systemAudit);
        SideloadStageProgress(cachedir, env.sizes, CacheIndex(env.cache), system, env.world);
        ReportsInOrder(ProgressOf(prepared.effects), ProgressOf(config.effects), ProgressOf(system.effects), ProgressOf(sideloads.effects));
      }
    }
  }

  /**
    A capture call that returns has copied, in this order: the three
    metadata files, the selected configuration files, the selected system
    files, and the cache files of the sideloaded packages the cache has.
  */
  lemma SaveCaptureCopies(target: string, env: Env)
    ensures var run := Save(target, false, env);
      var statedir := JoinPath(target, StateDirName);
      var files := FilesOf(SideloadNames(env.world), CacheIndex(env.cache));
      run.outcome.Returned? ==>
        CopiesOf(run.effects)
          == MetadataCopies(statedir) + Planned(statedir, Selection(Config, env.backupAudit))
             + Planned(statedir, Selection(System, env.systemAudit)) + CacheCopies(JoinPath(statedir, CacheDirName), files)
  {
    var statedir := JoinPath(target, StateDirName);
    var prepared := Prepare(target, statedir, Acc(env.dirs, [], [], 0, None));
    var config := AuditPass(Config, false, statedir, env.sizes, Emit(prepared, Progress(20, ConfigLabel)), env.backupAudit);
    var system := AuditPass(System, false, statedir, env.sizes, Emit(config, Progress(30, SystemLabel)).(size := 0), env.systemAudit);
    if prepared.failure.None? && config.failure.None? && system.failure.None? {
      PrepareCopies(target, env.dirs);
      StageCopies(Config, statedir, env.sizes, prepared, Progress(20, ConfigLabel), Emit(prepared, Progress(20, ConfigLabel)), env.backupAudit);
      StageCopies(System, statedir, env.sizes, config, Progress(30, SystemLabel), Emit(config, Progress(30, SystemLabel)).(size := 0), env.systemAudit);
      SideloadStageCopies(JoinPath(statedir, CacheDirName), env.sizes, CacheIndex(env.cache), system, env.world);
    }
  }
}
