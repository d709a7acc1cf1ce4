/**
  The system state collector of pmos_backup/state.py (`save_system_state`).

  The machine is given as a value (`Env`): the directories that exist, the
  size of every path that `os.path.exists` sees, the output lines of the two
  `apk audit` calls, the lines of /etc/apk/world and the listing of the
  package cache. What the collector does to the machine (directories made,
  files copied, progress reported) is recorded, in order, as `Effect`s.

  Every pass is specified by a fold over its input lines (`AuditPass`,
  `WorldPass`), defined from the last line back so that a loop that has
  handled `lines[..i]` has produced exactly `Pass(lines[..i])`; the method
  `SaveSystemState` is proved to compute `Save`, and module StateProperties
  states what `Save` means.
*/
module State {
  import opened Wrappers
  import opened Text
  import opened Paths
  import opened Audit
  import opened ApkCache

  /** What the collector does to the outside world. */
  datatype Effect =
    | MakeDirs(path: string)                 // os.makedirs
    | Copy(source: string, target: string)   // shutil.copyfile
    | Progress(percent: nat, caption: string)  // _progress(value, label)

  /** The exceptions that end `save_system_state` early. */
  datatype Failure =
    | MalformedAuditLine(line: string)  // ValueError: an audit line without a space
    | DirectoryExists(path: string)     // FileExistsError from os.makedirs
    | MissingSystemFile(path: string)   // FileNotFoundError from os.stat in the system audit
    | MissingCacheFile(path: string)    // FileNotFoundError from shutil.copyfile of a cached file that is a broken link

  /** Which audit: `apk audit --backup` (configuration) or `apk audit --system`. */
  datatype Scope = Config | System

  /** The machine as the collector sees it. */
  datatype Env = Env(
    dirs: set<string>,          // os.path.isdir
    sizes: map<string, nat>,    // os.path.exists and os.stat(...).st_size
    backupAudit: seq<string>,   // lines of `apk audit --backup`
    systemAudit: seq<string>,   // lines of `apk audit --system`
    world: seq<string>,         // /etc/apk/world, as readlines() returns it
    cache: seq<string>)         // glob('/etc/apk/cache/*.apk')

  /** The dictionary returned in measure mode and in capture mode. */
  datatype SaveResult =
    | Measured(errors: seq<string>, config: nat, system: nat, cache: nat)
    | Captured(errors: seq<string>)

  datatype Outcome = Returned(result: SaveResult) | Raised(failure: Failure)

  /** How a call ends, and everything it did to the machine before that. */
  datatype Run = Run(outcome: Outcome, effects: seq<Effect>)

  /**
    The collector's working state: the directories that exist, the effects
    so far, the non-fatal error messages, the byte count of the current
    pass, and the exception once one is raised.
  */
  datatype Acc = Acc(dirs: set<string>, effects: seq<Effect>, errors: seq<string>, size: nat, failure: Option<Failure>)

  const StateDirName := "state"
  const CacheDirName := "cache"
  const SideloadMarker := "><"

  const MetadataLabel := "Copying metadata"
  const ConfigLabel := "Checking modified config"
  const SystemLabel := "Checking modified system files"
  const SideloadLabel := "Copying sideloaded packages"

  /** The message recorded for a sideloaded package with no file in the cache. */
  function NotInCacheMessage(name: string): string {
    "Could not backup sideloaded package: " + name + ", not in cache."
  }

  function Emit(acc: Acc, e: Effect): Acc {
    acc.(effects := acc.effects + [e])
  }

  /** `if not os.path.isdir(d): os.makedirs(d)` */
  function MakeDirsIfMissing(acc: Acc, d: string): Acc {
    if d in acc.dirs then acc
    else acc.(dirs := acc.dirs + Ancestors(d), effects := acc.effects + [MakeDirs(d)])
  }

  /** `os.makedirs(d)`, which raises when `d` already exists. */
  function MakeDirsFresh(acc: Acc, d: string): Acc {
    if d in acc.dirs then acc.(failure := Some(DirectoryExists(d)))
    else acc.(dirs := acc.dirs + Ancestors(d), effects := acc.effects + [MakeDirs(d)])
  }

  /** Copy `source` to `target`, first creating the target's directory if it is missing. */
  function CopyInto(acc: Acc, source: string, target: string): Acc {
    Emit(MakeDirsIfMissing(acc, Dirname(target)), Copy(source, target))
  }

  /** One line of either audit, in measure mode or in capture mode. */
  function AuditStep(scope: Scope, measure: bool, statedir: string, sizes: map<string, nat>, acc: Acc, line: string): Acc {
    match ParseAuditLine(line)
    case None => acc.(failure := Some(MalformedAuditLine(line)))
    case Some(rec) =>
      if scope == System && Contains(rec.path, PyCacheMarker) then acc
      else if !Actionable(rec) then acc
      else
        var source := JoinPath("/", rec.path);
        if measure then
          if source in sizes then acc.(size := acc.size + sizes[source])
          else if scope == Config then acc
          else acc.(failure := Some(MissingSystemFile(source)))
        else CopyInto(acc, source, JoinPath(statedir, rec.path))
  }

  /** The loop over the lines of one audit; it stops at the first exception. */
  function AuditPass(scope: Scope, measure: bool, statedir: string, sizes: map<string, nat>, acc0: Acc, lines: seq<string>): Acc
    decreases |lines|
  {
    if lines == [] then acc0
    else
      var acc := AuditPass(scope, measure, statedir, sizes, acc0, lines[..|lines| - 1]);
      if acc.failure.Some? then acc
      else AuditStep(scope, measure, statedir, sizes, acc, lines[|lines| - 1])
  }

  /** A line holding the sideload marker holds a `>`. */
  lemma MarkerHasBracket(line: string)
    requires Contains(line, SideloadMarker)
    ensures '>' in line
  {
    var i := OffsetOf(line, SideloadMarker);
    assert line[i] == line[i..i + 2][0] == '>';
  }

  /** `pkgname, version = line.split('>', maxsplit=1)` on a sideloaded world line. */
  function SideloadName(line: string): string
    requires Contains(line, SideloadMarker)
  {
    MarkerHasBracket(line);
    SplitFirst(line, '>').value.0
  }

  /**
    One cached file of a sideloaded package. `glob` lists broken links too:
    measuring skips them, and copying one (which follows the link) raises.
  */
  function CacheStep(measure: bool, cachedir: string, sizes: map<string, nat>, acc: Acc, path: string): Acc {
    if measure then
      if path in sizes then acc.(size := acc.size + sizes[path]) else acc
    else if path in sizes then Emit(acc, Copy(path, JoinPath(cachedir, Basename(path))))
    else acc.(failure := Some(MissingCacheFile(path)))
  }

  /** The loop over the cached files of one sideloaded package; it stops at the first exception. */
  function CachePass(measure: bool, cachedir: string, sizes: map<string, nat>, acc0: Acc, paths: seq<string>): (acc: Acc)
    ensures acc.dirs == acc0.dirs && acc.errors == acc0.errors
    ensures acc0.failure.Some? ==> acc == acc0
    ensures measure ==> acc.effects == acc0.effects && acc.size >= acc0.size && acc.failure == acc0.failure
    ensures !measure ==> acc.size == acc0.size
    ensures acc0.failure.None? && acc.failure.Some? ==>
      acc.failure.value.MissingCacheFile? && acc.failure.value.path in paths && acc.failure.value.path !in sizes
    decreases |paths|
  {
    if paths == [] then acc0
    else
      var acc := CachePass(measure, cachedir, sizes, acc0, paths[..|paths| - 1]);
      if acc.failure.Some? then acc
      else CacheStep(measure, cachedir, sizes, acc, paths[|paths| - 1])
  }

  /** One line of /etc/apk/world. */
  function WorldStep(measure: bool, cachedir: string, sizes: map<string, nat>, index: map<string, seq<string>>, acc: Acc, line: string): Acc {
    if !Contains(line, SideloadMarker) then acc
    else
      var name := SideloadName(line);
      if name !in index then acc.(errors := acc.errors + [NotInCacheMessage(name)])
      else CachePass(measure, cachedir, sizes, acc, index[name])
  }

  /** The loop over /etc/apk/world; it stops at the first exception. */
  function WorldPass(measure: bool, cachedir: string, sizes: map<string, nat>, index: map<string, seq<string>>, acc0: Acc, world: seq<string>): (acc: Acc)
    ensures acc.dirs == acc0.dirs
    ensures acc0.failure.Some? ==> acc == acc0
    ensures measure ==> acc.effects == acc0.effects && acc.failure == acc0.failure
    ensures acc0.failure.None? && acc.failure.Some? ==>
      !measure && acc.failure.value.MissingCacheFile? && acc.failure.value.path !in sizes
    decreases |world|
  {
    if world == [] then acc0
    else
      var acc := WorldPass(measure, cachedir, sizes, index, acc0, world[..|world| - 1]);
      if acc.failure.Some? then acc
      else WorldStep(measure, cachedir, sizes, index, acc, world[|world| - 1])
  }

  /** Capture mode only: make the target and state directories and copy the apk metadata. */
  function Prepare(target: string, statedir: string, acc: Acc): Acc {
    var made := MakeDirsFresh(MakeDirsIfMissing(acc, target), statedir);
    if made.failure.Some? then made
    else
      var announced := Emit(made, Progress(10, MetadataLabel));
      var world := Emit(announced, Copy("/etc/apk/world", JoinPath(statedir, "world")));
      var repositories := Emit(world, Copy("/etc/apk/repositories", JoinPath(statedir, "repositories")));
      Emit(repositories, Copy("/etc/os-release", JoinPath(statedir, "os-release")))
  }

  /** `save_system_state(target, measure)`, from start to finish. */
  function Save(target: string, measure: bool, env: Env): Run {
    var statedir := JoinPath(target, StateDirName);
    var start := Acc(env.dirs, [], [], 0, None);
    var prepared := if measure then start else Prepare(target, statedir, start);
    if prepared.failure.Some? then Run(Raised(prepared.failure.value), prepared.effects)
    else
      var config := AuditPass(Config, measure, statedir, env.sizes, Emit(prepared, Progress(20, ConfigLabel)), env.backupAudit);
      if config.failure.Some? then Run(Raised(config.failure.value), config.effects)
      else
        var system := AuditPass(System, measure, statedir, env.sizes, Emit(config, Progress(30, SystemLabel)).(size := 0), env.systemAudit);
        if system.failure.Some? then Run(Raised(system.failure.value), system.effects)
        else
          var cachedir := JoinPath(statedir, CacheDirName);
          var announced := Emit(system, Progress(40, SideloadLabel)).(size := 0);
          var ready := if measure then announced else MakeDirsFresh(announced, cachedir);
          if ready.failure.Some? then Run(Raised(ready.failure.value), ready.effects)
          else
            var sideloads := WorldPass(measure, cachedir, env.sizes, CacheIndex(env.cache), ready, env.world);
            if sideloads.failure.Some? then Run(Raised(sideloads.failure.value), sideloads.effects)
            else Run(Returned(if measure then Measured(sideloads.errors, config.size, system.size, sideloads.size)
                         else Captured(sideloads.errors)),
                sideloads.effects)
  }

  /** Once a pass has raised, the remaining lines change nothing. */
  lemma {:induction false} AuditPassStops(scope: Scope, measure: bool, statedir: string, sizes: map<string, nat>, acc0: Acc, lines: seq<string>, k: nat)
    requires k <= |lines|
    requires AuditPass(scope, measure, statedir, sizes, acc0, lines[..k]).failure.Some?
    ensures AuditPass(scope, measure, statedir, sizes, acc0, lines) == AuditPass(scope, measure, statedir, sizes, acc0, lines[..k])
    decreases |lines| - k
  {
    if k < |lines| {
      assert lines[..|lines| - 1][..k] == lines[..k];
      AuditPassStops(scope, measure, statedir, sizes, acc0, lines[..|lines| - 1], k);
    } else {
      assert lines[..k] == lines;
    }
  }

  /** Once a cached file has raised, the remaining files change nothing. */
  lemma {:induction false} CachePassStops(measure: bool, cachedir: string, sizes: map<string, nat>, acc0: Acc, paths: seq<string>, k: nat)
    requires k <= |paths|
    requires CachePass(measure, cachedir, sizes, acc0, paths[..k]).failure.Some?
    ensures CachePass(measure, cachedir, sizes, acc0, paths) == CachePass(measure, cachedir, sizes, acc0, paths[..k])
    decreases |paths| - k
  {
    if k < |paths| {
      assert paths[..|paths| - 1][..k] == paths[..k];
      CachePassStops(measure, cachedir, sizes, acc0, paths[..|paths| - 1], k);
    } else {
      assert paths[..k] == paths;
    }
  }

  /** Once a world line has raised, the remaining lines change nothing. */
  lemma {:induction false} WorldPassStops(measure: bool, cachedir: string, sizes: map<string, nat>, index: map<string, seq<string>>,
                                          acc0: Acc, world: seq<string>, k: nat)
    requires k <= |world|
    requires WorldPass(measure, cachedir, sizes, index, acc0, world[..k]).failure.Some?
    ensures WorldPass(measure, cachedir, sizes, index, acc0, world) == WorldPass(measure, cachedir, sizes, index, acc0, world[..k])
    decreases |world| - k
  {
    if k < |world| {
      assert world[..|world| - 1][..k] == world[..k];
      WorldPassStops(measure, cachedir, sizes, index, acc0, world[..|world| - 1], k);
    } else {
      assert world[..k] == world;
    }
  }

  /** One more line is one more step of the pass. */
  lemma AuditPassSnoc(scope: Scope, measure: bool, statedir: string, sizes: map<string, nat>, acc0: Acc, lines: seq<string>, i: nat)
    requires i < |lines|
    requires AuditPass(scope, measure, statedir, sizes, acc0, lines[..i]).failure.None?
    ensures AuditPass(scope, measure, statedir, sizes, acc0, lines[..i + 1])
         == AuditStep(scope, measure, statedir, sizes, AuditPass(scope, measure, statedir, sizes, acc0, lines[..i]), lines[i])
  {
    assert lines[..i + 1][..i] == lines[..i];
  }

  /** The loop over `apk audit --backup` (pmos_backup/state.py, lines 48-62). */
  method CheckConfig(measure: bool, statedir: string, sizes: map<string, nat>, acc0: Acc, lines: seq<string>) returns (acc: Acc)
    requires acc0.failure.None?
    ensures acc == AuditPass(Config, measure, statedir, sizes, acc0, lines)
  {
    var dirs, effects, configSize := acc0.dirs, acc0.effects, acc0.size;
    for i := 0 to |lines|
      invariant AuditPass(Config, measure, statedir, sizes, acc0, lines[..i]) == Acc(dirs, effects, acc0.errors, configSize, None)
    {
      AuditPassSnoc(Config, measure, statedir, sizes, acc0, lines, i);
      ghost var before := Acc(dirs, effects, acc0.errors, configSize, None);
      var line := lines[i];
      var split := ParseAuditLine(line);
      if split.None? {
        AuditPassStops(Config, measure, statedir, sizes, acc0, lines, i + 1);
        return Acc(dirs, effects, acc0.errors, configSize, Some(MalformedAuditLine(line)));
      }
      var state, path := split.value.status, split.value.path;
      if state == "A" || state == "U" {
        var source := JoinPath("/", path);
        var target := JoinPath(statedir, path);
        if measure {
          if source in sizes {
            configSize := configSize + sizes[source];
          }
        } else {
          var parent := Dirname(target);
          if parent !in dirs {
            dirs, effects := dirs + Ancestors(parent), effects + [MakeDirs(parent)];
          }
          effects := effects + [Copy(source, target)];
        }
      }
      assert Acc(dirs, effects, acc0.errors, configSize, None) == AuditStep(Config, measure, statedir, sizes, before, line);
    }
    assert lines[..|lines|] == lines;
    acc := Acc(dirs, effects, acc0.errors, configSize, None);
  }

  /** The loop over `apk audit --system` (pmos_backup/state.py, lines 65-84). */
  method CheckSystem(measure: bool, statedir: string, sizes: map<string, nat>, acc0: Acc, lines: seq<string>) returns (acc: Acc)
    requires acc0.failure.None?
    ensures acc == AuditPass(System, measure, statedir, sizes, acc0, lines)
  {
    var dirs, effects, systemSize := acc0.dirs, acc0.effects, acc0.size;
    for i := 0 to |lines|
      invariant AuditPass(System, measure, statedir, sizes, acc0, lines[..i]) == Acc(dirs, effects, acc0.errors, systemSize, None)
    {
      AuditPassSnoc(System, measure, statedir, sizes, acc0, lines, i);
      ghost var before := Acc(dirs, effects, acc0.errors, systemSize, None);
      var line := lines[i];
      var split := ParseAuditLine(line);
      if split.None? {
        AuditPassStops(System, measure, statedir, sizes, acc0, lines, i + 1);
        return Acc(dirs, effects, acc0.errors, systemSize, Some(MalformedAuditLine(line)));
      }
      var state, path := split.value.status, split.value.path;
      // Generated Python bytecode shows up in the system audit; it is never backed up
      if Contains(path, PyCacheMarker) {
        continue;
      }
      if state == "A" || state == "U" {
        var source := JoinPath("/", path);
        if measure {
          if source !in sizes {
            AuditPassStops(System, measure, statedir, sizes, acc0, lines, i + 1);
            return Acc(dirs, effects, acc0.errors, systemSize, Some(MissingSystemFile(source)));
          }
          systemSize := systemSize + sizes[source];
        } else {
          var target := JoinPath(statedir, path);
          var parent := Dirname(target);
          if parent !in dirs {
            dirs, effects := dirs + Ancestors(parent), effects + [MakeDirs(parent)];
          }
          effects := effects + [Copy(source, target)];
        }
      }
      assert Acc(dirs, effects, acc0.errors, systemSize, None) == AuditStep(System, measure, statedir, sizes, before, line);
    }
    assert lines[..|lines|] == lines;
    acc := Acc(dirs, effects, acc0.errors, systemSize, None);
  }

  /** The inner loop of pmos_backup/state.py, lines 102-109: every cached file of one package. */
  method CopyPackageFiles(measure: bool, cachedir: string, sizes: map<string, nat>, acc0: Acc, paths: seq<string>) returns (acc: Acc)
    requires acc0.failure.None?
    ensures acc == CachePass(measure, cachedir, sizes, acc0, paths)
  {
    var effects, cacheSize := acc0.effects, acc0.size;
    for k := 0 to |paths|
      invariant CachePass(measure, cachedir, sizes, acc0, paths[..k]) == Acc(acc0.dirs, effects, acc0.errors, cacheSize, None)
    {
      assert paths[..k + 1] == paths[..k] + [paths[k]];
      var path := paths[k];
      if measure {
        // The path may be a broken symlink
        if path in sizes {
          cacheSize := cacheSize + sizes[path];
        }
      } else {
        // shutil.copyfile follows a broken link and raises FileNotFoundError
        if path !in sizes {
          CachePassStops(measure, cachedir, sizes, acc0, paths, k + 1);
          return Acc(acc0.dirs, effects, acc0.errors, cacheSize, Some(MissingCacheFile(path)));
        }
        effects := effects + [Copy(path, JoinPath(cachedir, Basename(path)))];
      }
    }
    assert paths[..|paths|] == paths;
    acc := Acc(acc0.dirs, effects, acc0.errors, cacheSize, None);
  }

  /** The loop over /etc/apk/world (pmos_backup/state.py, lines 94-109). */
  method CopySideloaded(measure: bool, cachedir: string, sizes: map<string, nat>, apkCache: map<string, seq<string>>, acc0: Acc, world: seq<string>)
    returns (acc: Acc)
    requires acc0.failure.None?
    ensures acc == WorldPass(measure, cachedir, sizes, apkCache, acc0, world)
  {
    acc := acc0;
    for j := 0 to |world|
      invariant acc == WorldPass(measure, cachedir, sizes, apkCache, acc0, world[..j])
      invariant acc.failure.None? && acc.dirs == acc0.dirs
    {
      assert world[..j + 1] == world[..j] + [world[j]];
      var line := world[j];
      if Contains(line, SideloadMarker) {
        MarkerHasBracket(line);
        var pkgname := SplitFirst(line, '>').value.0;
        if pkgname !in apkCache {
          acc := acc.(errors := acc.errors + [NotInCacheMessage(pkgname)]);
          continue;
        }
        acc := CopyPackageFiles(measure, cachedir, sizes, acc, apkCache[pkgname]);
        if acc.failure.Some? {
          WorldPassStops(measure, cachedir, sizes, apkCache, acc0, world, j + 1);
          return;
        }
      }
    }
    assert world[..|world|] == world;
  }

  /**
    `save_system_state(target, measure)`: the source's steps in order, proved
    to do what `Save` describes.
  */
  method SaveSystemState(target: string, measure: bool, env: Env) returns (run: Run)
    ensures run == Save(target, measure, env)
  {
    var errors: seq<string> := [];
    var dirs := env.dirs;
    var effects: seq<Effect> := [];
    ghost var start := Acc(env.dirs, [], [], 0, None);
    if !measure && target !in dirs {
      dirs, effects := dirs + Ancestors(target), effects + [MakeDirs(target)];
    }
    var statedir := JoinPath(target, StateDirName);
    if !measure {
      ghost var made := MakeDirsIfMissing(start, target);
      assert made == Acc(dirs, effects, errors, 0, None);
      if statedir in dirs {
        return Run(Raised(DirectoryExists(statedir)), effects);
      }
      dirs, effects := dirs + Ancestors(statedir), effects + [MakeDirs(statedir)];
      assert MakeDirsFresh(made, statedir) == Acc(dirs, effects, errors, 0, None);
      effects := effects + [Progress(10, MetadataLabel)];
      effects := effects + [Copy("/etc/apk/world", JoinPath(statedir, "world"))];
      effects := effects + [Copy("/etc/apk/repositories", JoinPath(statedir, "repositories"))];
      effects := effects + [Copy("/etc/os-release", JoinPath(statedir, "os-release"))];
      assert Prepare(target, statedir, start) == Acc(dirs, effects, errors, 0, None);
    }

    effects := effects + [Progress(20, ConfigLabel)];
    var config := CheckConfig(measure, statedir, env.sizes, Acc(dirs, effects, errors, 0, None), env.backupAudit);
    if config.failure.Some? {
      return Run(Raised(config.failure.value), config.effects);
    }

    var system := CheckSystem(measure, statedir, env.sizes,
                              Acc(config.dirs, config.effects + [Progress(30, SystemLabel)], config.errors, 0, None),
                              env.systemAudit);
    if system.failure.Some? {
      return Run(Raised(system.failure.value), system.effects);
    }

    effects := system.effects + [Progress(40, SideloadLabel)];
    var apkCache := ParseApkCache(env.cache);
    IndexIsCacheIndex(apkCache, env.cache);
    dirs := system.dirs;
    var cachedir := JoinPath(statedir, CacheDirName);
    if !measure {
      if cachedir in dirs {
        return Run(Raised(DirectoryExists(cachedir)), effects);
      }
      dirs, effects := dirs + Ancestors(cachedir), effects + [MakeDirs(cachedir)];
    }
    var sideloads := CopySideloaded(measure, cachedir, env.sizes, apkCache, Acc(dirs, effects, system.errors, 0, None), env.world);
    if sideloads.failure.Some? {
      return Run(Raised(sideloads.failure.value), sideloads.effects);
    }

    if measure {
      run := Run(Returned(Measured(sideloads.errors, config.size, system.size, sideloads.size)), sideloads.effects);
    } else {
      run := Run(Returned(Captured(sideloads.errors)), sideloads.effects);
    }
  }
}
