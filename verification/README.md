# postmarketos-backup, modelled in Dafny

This project models the core of postmarketos-backup, the backup and restore
tool for postmarketOS phones. It has two parts.

- **The system-state collector** (`pmos_backup/state.py`).
  - `parse_apk_cache` files every `*.apk` of the package cache under the
    package name its file name encodes.
  - `save_system_state` runs in one of two modes. In measure mode it adds up
    the sizes of what a backup would hold. In capture mode it makes the
    `state` directory and copies into it:
    - the apk metadata;
    - the configuration files and system files that `apk audit` reports as
      added or changed;
    - the cached packages of every sideloaded package named in
      `/etc/apk/world`.

  The machine is a value (`State.Env`): the directories that exist, the size
  of every path that exists, the lines of the two audits, the world file and
  the cache listing. What the collector does is recorded in order as effects
  (directories made, files copied, progress reported). Exceptions are an
  outcome that keeps the effects made before them.
- **The logic of the GTK window** (`pmos_backup/window.py`).
  - The `.backup.tar.gz` suffix forced onto a new backup's file name.
  - The `--no-<part>` flags of the backup and restore command lines.
  - The read loop of the backup thread, which turns the JSON lines of the
    `pmos-backup --json` subprocess into progress updates, error messages and
    the final end-of-output callback.
  - The restore dialog's dependent check boxes.
  - The restore page's file handler, `on_restore_file_set`. It:
    - reads the host architecture and `/etc/os-release`;
    - builds the CPU and OS-version warnings;
    - sets the `allow_system` flag;
    - builds the category tree from the archive's size keys: top-level keys
      in first-seen order, and sorted subkeys under each.

Modules:

| file | module | what it holds |
|---|---|---|
| text.dfy | `Wrappers`, `Text` | `Option`; Python's `split`, `join`, `strip`, `rstrip`, `strip(ch)`, and string ordering |
| paths.dfy | `Paths` | `os.path.join`, `basename`, `dirname`, and the directories `os.makedirs` leaves behind |
| apk_cache.dfy | `ApkCache` | `parse_apk_cache` |
| audit.dfy | `Audit` | one line of `apk audit` |
| state.dfy | `State` | `save_system_state` as methods with loops, proved equal to the fold functions that specify them |
| state_props.dfy | `StateProperties` | what those fold functions mean, pass by pass and for a whole call |
| args.dfy | `Args` | backup suffix, backup and restore arguments |
| dispatch.dfy | `Dispatch` | `BackupThread.run` |
| dialog.dfy | `Dialog` | `RestoreDialog` and its check boxes |
| compat.dfy | `Compatibility` | host architecture, `/etc/os-release`, warnings |
| tree.dfy | `CategoryTree` | the restore category tree and the keys of its check boxes |
| restore_page.dfy | `RestorePage` | `on_restore_file_set` as a method on the page's state |

## Model

| member | source | states |
|---|---|---|
| ApkCache.PackageNameOfFileName | pmos_backup/state.py:24-25 | a cache file `<name>-<version>-<release>` (version and release without `-`) is filed under `<name>`, even when the name itself holds dashes |
| ApkCache.PackageNameShape | pmos_backup/state.py:25 | the last two `-` pieces are dropped, and the remaining ones are rejoined; a name with fewer than three pieces yields the empty package name |
| ApkCache.SplitAppend | pmos_backup/state.py:25 | splitting `s + sep + t` (with no separator in `t`) gives the pieces of `s` followed by `t` |
| ApkCache.FiledUnder | pmos_backup/state.py:26-28 | a package's file list is drawn from the cache listing and is never longer than it |
| ApkCache.CacheIndex | pmos_backup/state.py:21-29 | the index has one key per package name the listing encodes, and each key maps to the files filed under it, in listing order |
| ApkCache.ParseApkCache | pmos_backup/state.py:21-29 | the dictionary loop builds exactly that index: its keys are the encoded package names, its lists the files in listing order |
| ApkCache.IndexStep | pmos_backup/state.py:26-28 | one more cache file creates its package's list or appends to it; every other entry stays unchanged, so the index stays exact |
| ApkCache.IndexStepAt | pmos_backup/state.py:26-28 | the loop's `i`th iteration turns the exact index of the first `i` files into that of the first `i + 1` |
| ApkCache.KeysOfSnoc | pmos_backup/state.py:26-27 | one more cache file adds its own package name to the index's keys, and no other |
| ApkCache.FiledUnderSnoc | pmos_backup/state.py:26-28 | one more cache file goes at the end of its own package's list and leaves every other list unchanged |
| ApkCache.IndexIsCacheIndex | pmos_backup/state.py:21-29 | an index that files exactly the listing's paths under their package names is unique: it is the index `parse_apk_cache` returns |
| ApkCache.FiledUnderEmpty | pmos_backup/state.py:26-27 | a name that no file encodes has no files |
| ApkCache.FiledOnce | pmos_backup/state.py:26-28 | every cache file appears under its own package as often as in the listing, and under no other package |
| ApkCache.FiledUnderMembers | pmos_backup/state.py:26-28 | a path is in a package's list if and only if it is in the listing and its file name encodes that package |
| Paths.JoinPath | pmos_backup/state.py:37 | the joined path is at least as long as its last part |
| Paths.JoinPathShape | pmos_backup/state.py:54-55 | the result ends with `b`; an absolute `b` replaces `a`; otherwise the result starts with `a` |
| Paths.LastSlashIsLast | pmos_backup/state.py:108-109 | the slash that separates the base name is the last one in the path |
| Paths.Basename | pmos_backup/state.py:24 | the base name holds no `/` and ends the path |
| Paths.Dirname | pmos_backup/state.py:60 | the directory part is no longer than the path |
| Paths.DirnameShape | pmos_backup/state.py:60-61 | the directory part is a prefix of the path, and only slashes lie between it and the base name; a path without `/` has an empty directory part |
| Paths.Ancestors | pmos_backup/state.py:36 | the directories made by `os.makedirs(p)` include `p` itself |
| Paths.AncestorsArePrefixes | pmos_backup/state.py:36 | every directory `os.makedirs(p)` makes is a prefix of `p` |
| Paths.AncestorsClosed | pmos_backup/state.py:36 | the parents of every directory that `os.makedirs` leaves behind are among those it leaves behind |
| Audit.ParseAuditLine | pmos_backup/state.py:52 | unpacking the split raises exactly when the line has no space |
| Audit.ParseAuditLineShape | pmos_backup/state.py:52 | the status holds no space, and status, space and path rebuild the line |
| Audit.ParsePrinted | pmos_backup/state.py:52 | a line printed as `<status> <path>` splits back into that status and path, even when the path holds spaces |
| State.MarkerHasBracket | pmos_backup/state.py:96-97 | a world line holding `><` holds a `>`, so the split at line 97 always unpacks |
| State.CachePass | pmos_backup/state.py:102-109 | the loop over one package's files never changes the directories or the error list, and after an exception it changes nothing. Measuring only adds bytes and never raises. Capturing copies files, and raises only FileNotFoundError for a listed file that does not exist |
| State.WorldPass | pmos_backup/state.py:94-109 | the world loop never changes the directories, and after an exception it changes nothing. In measure mode it records nothing and never raises; in capture mode its only exception is FileNotFoundError for a cached file that does not exist |
| State.AuditPassStops | pmos_backup/state.py:52 | once an audit line has raised, the later lines change nothing |
| State.AuditPassSnoc | pmos_backup/state.py:51-62 | a pass over one more line is the old pass followed by one step, the loop invariant of both audit loops |
| State.CachePassStops | pmos_backup/state.py:102-109 | once a cached file has raised, the remaining files of the package change nothing |
| State.WorldPassStops | pmos_backup/state.py:95-109 | once a world line has raised, the remaining lines change nothing |
| State.CheckConfig | pmos_backup/state.py:47-62 | the configuration-audit loop computes exactly the configuration pass: sizes in measure mode, directories and copies in capture mode, ValueError on a line without a space |
| State.CheckSystem | pmos_backup/state.py:64-84 | the system-audit loop computes exactly the system pass. It skips `__pycache__` paths and raises FileNotFoundError for a missing source in measure mode |
| State.CopyPackageFiles | pmos_backup/state.py:102-109 | the inner loop computes exactly the cache pass of one package, including the FileNotFoundError that a broken link raises in capture mode |
| State.CopySideloaded | pmos_backup/state.py:94-109 | the world loop computes exactly the world pass: a message for each package missing from the cache, the files of the others, and the stop at the first exception |
| State.SaveSystemState | pmos_backup/state.py:32-121 | `save_system_state` returns or raises, and has the effects, exactly as `Save` describes. The lemmas below state what that means |
| StateProperties.PickedLine | pmos_backup/state.py:52-53 | a well-formed line with status A or U is acted on |
| StateProperties.AuditMeasureStep | pmos_backup/state.py:52-58 | one measure step raises only for a line without a space, or for a missing system source |
| StateProperties.AuditMeasureStepSize | pmos_backup/state.py:56-58 | a measure step that does not raise adds the size of the selected source when it exists |
| StateProperties.AuditMeasure | pmos_backup/state.py:47-79 | measure mode creates and copies nothing. It raises exactly when a line has no space or a selected system source is missing. Otherwise the count is the sum of the sizes of the selected sources that exist |
| StateProperties.AuditMeasureQuiet | pmos_backup/state.py:47-79 | a measure pass makes no directory, records no effect and adds no error message |
| StateProperties.AuditMeasureFailure | pmos_backup/state.py:47-79 | a measure pass raises if and only if some line has no space or a selected system source is missing, and only for such a reason |
| StateProperties.AuditMeasureSize | pmos_backup/state.py:56-58 | a measure pass that does not raise adds the sizes of the selected sources that exist, and nothing else |
| StateProperties.MeasureCleanSnoc | pmos_backup/state.py:52-58 | input stays clean with one more line if and only if that line has a space and, in the system audit, its selected source exists |
| StateProperties.FatalSnoc | pmos_backup/state.py:52-58 | a reason to raise on the earlier lines is still one with one more line |
| StateProperties.PickedSelected | pmos_backup/state.py:52-58 | the sources the last line selects are among those selected from all lines |
| StateProperties.CopyIntoEffects | pmos_backup/state.py:60-62 | copying into a missing directory makes it first; each copy is recorded once |
| StateProperties.AuditCaptureStep | pmos_backup/state.py:52-62 | a capture step raises only for a line without a space, and copies a selected line into the state directory |
| StateProperties.AuditCapture | pmos_backup/state.py:47-84 | capture mode raises exactly when some line has no space; the failure names such a line. It never reports progress, adds an error or counts bytes, and never removes a directory |
| StateProperties.AuditCaptureLast | pmos_backup/state.py:51-62 | the last line of a capture pass copies what it selects after the copies of the earlier lines |
| StateProperties.AuditCaptureCopies | pmos_backup/state.py:53-62 | a capture pass that does not raise copies each selected `/path` to `statedir/path`, in audit order, and nothing else |
| StateProperties.AuditCaptureDirs | pmos_backup/state.py:60-61 | after a capture pass, the directory of every copy target exists |
| StateProperties.SideloadLine | pmos_backup/state.py:96-97 | a world line `name><rest` names the sideloaded package `name` |
| StateProperties.SideloadMissing | pmos_backup/state.py:98-101 | a sideloaded package missing from the cache yields exactly the message "Could not backup sideloaded package: name, not in cache." |
| StateProperties.CachePassMeaning | pmos_backup/state.py:102-109 | measuring adds the sizes of the package's files that exist (broken links add nothing). Capturing raises FileNotFoundError exactly when some file does not exist, naming the first; otherwise it copies each file into `cache/` under its own base name, in order |
| StateProperties.WorldLineMeaning | pmos_backup/state.py:95-109 | a world line adds one message if its package is missing from the cache, otherwise the sizes or copies of its files, and a line without `><` adds nothing. In capture mode it raises exactly when one of its files does not exist, naming the first |
| StateProperties.WorldLast | pmos_backup/state.py:95-109 | after earlier lines that did not raise, the last world line adds its own messages, sizes or copies, or raises for its own first missing file |
| StateProperties.ErrorsCombine | pmos_backup/state.py:94-101 | the messages of the earlier world lines followed by those of the last line are the messages of all lines, and no progress is reported |
| StateProperties.FilesCombine | pmos_backup/state.py:102-109 | the sizes or cache copies of the earlier world lines, then those of the last line, are those of all lines, and the first missing file is the last line's when the earlier lines had none |
| StateProperties.FilesStop | pmos_backup/state.py:102-109 | a missing file among the earlier lines' files is still the first missing file with a line more |
| StateProperties.WorldPassErrors | pmos_backup/state.py:94-101 | a world loop that does not raise gets one message per sideloaded package missing from the cache, in world-file order; no world loop reports progress |
| StateProperties.WorldPassFiles | pmos_backup/state.py:102-109 | measuring sums the existing sizes of exactly the cache files of the sideloaded packages. Capturing raises FileNotFoundError exactly when one of those files does not exist, naming the first in world order; otherwise it copies exactly those files, package after package |
| StateProperties.FilesOfCache | pmos_backup/state.py:91-102 | a cache file is handled if and only if it is in the cache listing and its package is sideloaded |
| StateProperties.StateDirIsNew | pmos_backup/state.py:35-39 | making the target never creates `target/state`, so a fresh target gets a fresh state directory |
| StateProperties.EmitCopies | pmos_backup/state.py:43-45 | recording a copy adds it to the copy list, and other effects do not |
| StateProperties.EmitProgress | pmos_backup/state.py:42 | recording a progress report adds its percentage to the progress list, and other effects do not |
| StateProperties.MakeDirsEffects | pmos_backup/state.py:34-39 | making the target and state directories records neither a copy nor a progress report |
| StateProperties.MakeDirsFreshEffects | pmos_backup/state.py:93 | making the cache directory records neither a copy nor a progress report |
| StateProperties.MakeDirsIfMissingEffects | pmos_backup/state.py:35-36 | making a missing target directory records neither a copy nor a progress report |
| StateProperties.FirstMissingAppend | pmos_backup/state.py:102-109 | the first missing file of two runs of files is the first run's, or else the second run's |
| StateProperties.FirstMissingMeaning | pmos_backup/state.py:102-109 | no file is missing exactly when all exist; a missing one does not exist, and every file before it does |
| StateProperties.MadeDirsAppend | pmos_backup/state.py:60-61 | the directories made for two runs of copies are those made for each |
| StateProperties.MakeDirsIfMissingDirs | pmos_backup/state.py:60-61 | making a missing directory adds it and its parents and removes nothing; when every parent of a directory is a directory, it adds exactly those and keeps that so |
| StateProperties.MakeDirsFreshDirs | pmos_backup/state.py:93 | making a new directory adds it and its parents; when every parent of a directory is a directory, exactly those, and it keeps that so |
| StateProperties.AuditCaptureStepDirs | pmos_backup/state.py:53-61 | a capture step leaves behind at most the directory of its copy target and its parents, and exactly those when every parent of a directory is a directory |
| StateProperties.AuditCaptureMadeDirs | pmos_backup/state.py:51-84 | a capture pass that does not raise leaves behind at most the directories of its copy targets and their parents, and exactly those when every parent of a directory is a directory |
| StateProperties.CacheDirIsNew | pmos_backup/state.py:35-39 | making the target and the state directory never creates `state/cache` |
| StateProperties.PrepareDirs | pmos_backup/state.py:34-39 | preparation that does not raise adds the target and the state directory with their parents, exactly those when every parent of a directory is a directory |
| StateProperties.CacheDirBeforeWorld | pmos_backup/state.py:34-93 | the cache directory exists at line 93 only when it existed before the call or an audit copy made it; one that existed is still there, and when every parent of a directory is a directory, one an audit copy made is there too |
| StateProperties.PrepareRaises | pmos_backup/state.py:38-39 | preparation raises FileExistsError exactly when the state directory exists |
| StateProperties.PrepareProgress | pmos_backup/state.py:42 | preparation that does not raise reports 10% |
| StateProperties.PrepareCopies | pmos_backup/state.py:43-45 | preparation that does not raise copies world, repositories and os-release into the state directory, in that order |
| StateProperties.StageProgress | pmos_backup/state.py:49-84 | an audit stage reports its own percentage and nothing more |
| StateProperties.StageCopies | pmos_backup/state.py:49-84 | an audit stage adds its selected copies after those made before it |
| StateProperties.WorldCopies | pmos_backup/state.py:94-109 | a world loop that does not raise adds the cache copies after those made before it |
| StateProperties.SideloadStageProgress | pmos_backup/state.py:90-93 | the sideload stage reports 40% and nothing more |
| StateProperties.SideloadStageCopies | pmos_backup/state.py:90-109 | a sideload stage that does not raise copies the cache files of the sideloaded packages after the earlier copies |
| StateProperties.SaveMeasureReturns | pmos_backup/state.py:32-117 | a measure call returns if and only if every audit line has a space and every selected system source exists |
| StateProperties.SaveMeasureResult | pmos_backup/state.py:111-117 | a measure call that returns gives the missing-package messages and three byte counts: the selected configuration sources that exist, the selected system sources, and the sideloaded cache files that exist |
| StateProperties.SaveMeasureEffects | pmos_backup/state.py:38-106 | a measure call creates and copies nothing and reports 20%, 30% and 40% as it goes. If it raises, it does so in the configuration stage or the system stage, for a reason of that stage |
| StateProperties.SaveCaptureFailures | pmos_backup/state.py:39-108 | a capture call raises only FileExistsError (an existing state directory, or a cache directory that existed or that an audit copy made), ValueError (an audit line without a space), or FileNotFoundError for the first cached file of a sideloaded package that does not exist |
| StateProperties.SaveCaptureTail | pmos_backup/state.py:93-109 | line 93 raises FileExistsError exactly when the cache directory exists by then. Otherwise the call returns exactly when every sideloaded cache file exists, and else raises FileNotFoundError for the first that does not |
| StateProperties.SaveCaptureStateDir | pmos_backup/state.py:34-39 | a capture call raises FileExistsError for the state directory exactly when it already exists |
| StateProperties.SaveCaptureReturns | pmos_backup/state.py:32-121 | a capture call returns only when the state and cache directories were new, both audits are well formed and every sideloaded cache file exists. When every parent of a directory is a directory, it returns if and only if those hold and no audit copy made the cache directory |
| StateProperties.SaveCaptureResult | pmos_backup/state.py:94-121 | a capture call that returns gives exactly the messages for the sideloaded packages missing from the cache |
| StateProperties.SaveCaptureProgress | pmos_backup/state.py:42-90 | a capture call that returns has reported 10%, 20%, 30% and 40%, in that order |
| StateProperties.SaveCaptureCopies | pmos_backup/state.py:43-109 | a capture call that returns has copied, in order, the three metadata files, the selected configuration files, the selected system files and the cache files of the sideloaded packages |
| Args.WithBackupSuffix | pmos_backup/window.py:218-219 | the target starts with the chosen name and ends with `.backup.tar.gz`. It is unchanged exactly when the name already ends that way; otherwise the whole suffix is appended |
| Args.BackupSuffixIdempotent | pmos_backup/window.py:218-219 | forcing the suffix twice is the same as forcing it once |
| Args.Disabled | pmos_backup/window.py:223-230 | there is at most one flag per check box |
| Args.DisabledPush | pmos_backup/window.py:223-224 | one more box adds its flag exactly when it is unchecked |
| Args.DisabledAppend | pmos_backup/window.py:223-230 | the flags of two runs of boxes are the flags of the first followed by those of the second |
| Args.DisabledSnoc | pmos_backup/window.py:223-230 | the flags of the first `k+1` boxes extend those of the first `k` by box `k`'s flag when it is unchecked |
| Args.DisabledFlagsUnchecked | pmos_backup/window.py:223-230 | every flag comes from an unchecked box |
| Args.UncheckedFlagPresent | pmos_backup/window.py:223-230 | every unchecked box contributes its flag |
| Args.DisabledMember | pmos_backup/window.py:223-230 | with distinct flags, a box's flag is present if and only if the box is unchecked |
| Args.AppendUnless | pmos_backup/window.py:223-224 | one `if not box.get_active(): args.append(flag)` step keeps the argument list equal to the flags of the boxes seen so far |
| Args.BackupArgs | pmos_backup/window.py:222-230 | the backup arguments are the flags of the unchecked boxes: config, system, apks, homedirs, in that order |
| Args.RestoreArgs | pmos_backup/window.py:336-346 | the restore arguments are `--restore`, then the flags of the unchecked boxes: config, system, packages, apks, homedirs |
| Args.BackupFlags | pmos_backup/window.py:222-230 | `--no-config`, `--no-system`, `--no-apks`, `--no-homedirs` each appear if and only if their box is unchecked |
| Args.RestoreFlags | pmos_backup/window.py:336-346 | each of the five `--no-` flags appears if and only if its box is unchecked, and `--restore` is never among them |
| Dispatch.LineEvent | pmos_backup/window.py:30-42 | only the empty read ends the output, and a line not starting with `{` only echoes. A `{` line that does not decode raises. A packet with `progress` delivers `(progress, label)`, or raises KeyError without `label`; one with `error` but no `progress` delivers the message; any other packet delivers nothing |
| Dispatch.RunEnds | pmos_backup/window.py:29-34 | a run delivers the end callback if and only if no line raised, and only as its last callback; there is at most one callback per line, plus the end |
| Dispatch.RunCrashLine | pmos_backup/window.py:35-36 | an exception that ends the thread comes from a line of the output that starts with `{` |
| Dispatch.RunEventSource | pmos_backup/window.py:35-40 | every progress update and error message is the one some output line delivers |
| Dispatch.RunSkipsEcho | pmos_backup/window.py:41-42 | echoed lines (not starting with `{`) in front of the output change no callback |
| Dispatch.ReadLoop | pmos_backup/window.py:26-42 | the `while True` read loop makes exactly the callbacks of the run and stops at the same exception |
| Dialog.RestoreDialog.constructor | pmos_backup/window.py:77-107 | a new dialog is on the right branch, with the packages and sideloaded boxes unchecked and the sideloaded box insensitive, which is consistent |
| Dialog.RestoreDialog.OnPkgsToggled | pmos_backup/window.py:120-124 | the sideloaded box becomes sensitive exactly when packages are checked and the branch is right. Unchecking packages unchecks it; nothing else changes |
| Dialog.RestoreDialog.TogglePkgs | pmos_backup/window.py:107-124 | clicking the packages box flips it and keeps the dialog consistent: the sideloaded box is never checked without packages |
| Compatibility.HostArch | pmos_backup/window.py:245-248 | without `/etc/apk/arch` the architecture is `platform.machine()`; with it, it is the file's contents with no whitespace at either end |
| Compatibility.HostArchFromFile | pmos_backup/window.py:246-248 | an arch file holding a name between whitespace gives that name |
| Compatibility.OsReleaseLine | pmos_backup/window.py:260-261 | an accepted line's key holds no `=`, and its value has no `"` at either end |
| Compatibility.OsReleaseLineAccepts | pmos_backup/window.py:260 | `k, v = line.rstrip().split("=")` unpacks if and only if the line holds exactly one `=` |
| Compatibility.OsReleaseLineOf | pmos_backup/window.py:260-261 | `KEY=value` with trailing whitespace reads back as the key and the value with its quotes stripped |
| Compatibility.OsReleaseQuoted | pmos_backup/window.py:260-261 | `KEY="value"` with trailing whitespace reads back as exactly the key and the unquoted value |
| Compatibility.ReadStops | pmos_backup/window.py:259-260 | after a line that does not unpack, the remaining lines change nothing |
| Compatibility.ReadFails | pmos_backup/window.py:259-260 | reading the file raises if and only if some line does not unpack |
| Compatibility.ReadFirstBad | pmos_backup/window.py:259-260 | the line reported is the first one that does not unpack |
| Compatibility.ReadFields | pmos_backup/window.py:259-261 | each key holds the value from its last line |
| Compatibility.ReadKeys | pmos_backup/window.py:259-261 | a key is in the dictionary if and only if some line carries it |
| Compatibility.ReadOsRelease | pmos_backup/window.py:256-261 | the file loop computes exactly that dictionary, or stops at the first bad line |
| Compatibility.WarningsDiffer | pmos_backup/window.py:251-264 | a CPU warning is never an OS warning, and each names its value unambiguously |
| Compatibility.WarningsMeaning | pmos_backup/window.py:250-267 | the CPU warning is present if and only if the backup names a different architecture, and the OS warning if and only if it names a different version. There are no warnings exactly when neither differs, and never more than two |
| Compatibility.WarningTextLines | pmos_backup/window.py:269-271 | the label text joined with newlines splits back into exactly the warnings |
| RestorePage.ReadVersion | pmos_backup/window.py:256-263 | `/etc/os-release` is read if and only if the backup names an OS version |
| RestorePage.Page.constructor | pmos_backup/window.py:236-243 | the page starts with the given state |
| RestorePage.Page.OnRestoreFileSet | pmos_backup/window.py:236-291 | `allow_packages` is false exactly on an architecture mismatch. A bad os-release or a missing `VERSION_ID` raises, leaving the warning hidden and the page otherwise untouched. Otherwise `allow_system` follows the version comparison, the warning shows exactly when there are warnings, with their joined text, and the tree is the category tree of the size keys |
| RestorePage.Page.CompareWithHost | pmos_backup/window.py:245-267 | `allow_packages` is false exactly on an architecture mismatch. A bad os-release raises and leaves `allow_system` as it was. Otherwise the warnings are the CPU and OS warnings in that order, and `allow_system` is set only when an OS version is compared. The warning label is untouched |
| RestorePage.Page.CompareVersion | pmos_backup/window.py:256-267 | reading `/etc/os-release` raises for a bad line or a missing `VERSION_ID`, leaving `allow_system` as it was. Otherwise `allow_system` is whether the versions match, and the OS warning appears exactly when they differ |
| CategoryTree.Insert | pmos_backup/window.py:287 | insertion adds exactly one key |
| CategoryTree.InsertSorted | pmos_backup/window.py:287 | inserting into a sorted list keeps it sorted and adds exactly that key |
| CategoryTree.InsertMultiset | pmos_backup/window.py:287 | insertion adds exactly the key, and loses none |
| CategoryTree.ConsSorted | pmos_backup/window.py:287 | a key no greater than any key of a sorted list keeps it sorted in front |
| CategoryTree.SortKeys | pmos_backup/window.py:287 | `sorted` keeps the number of keys |
| CategoryTree.SortKeysSorted | pmos_backup/window.py:287 | `sorted` gives an ordered permutation of the keys |
| CategoryTree.LexLessEqTransitive | pmos_backup/window.py:287 | string order is transitive |
| CategoryTree.Prefix | pmos_backup/window.py:282-284 | a key's top-level part holds no `.` and starts the key, and it is the whole key exactly when the key has no `.` |
| CategoryTree.PrefixCases | pmos_backup/window.py:283-284 | the top-level part is the text before the first `.` |
| CategoryTree.TopKeysSnoc | pmos_backup/window.py:282-286 | one more key adds its top-level part at the end, unless that part is already there |
| CategoryTree.TopKeysMembers | pmos_backup/window.py:281-286 | the tree's order lists exactly the top-level parts of the keys |
| CategoryTree.TopKeysDistinct | pmos_backup/window.py:285-286 | each top-level part is listed once |
| CategoryTree.SubkeyOfMeaning | pmos_backup/window.py:288-291 | a key contributes a subkey `sub` to `top` exactly when it is `top.sub` |
| CategoryTree.SubkeysMeaning | pmos_backup/window.py:287-291 | `sub` is listed under `top` if and only if `top.sub` is a key |
| CategoryTree.SubkeysSorted | pmos_backup/window.py:287-291 | the subkeys under each top are in sorted order |
| CategoryTree.SortedSnoc | pmos_backup/window.py:287-291 | appending a key no smaller than any listed keeps a list sorted |
| CategoryTree.LexLessCommonPrefix | pmos_backup/window.py:287-291 | keys with a common `top.` prefix are ordered as their subkeys |
| CategoryTree.TopsStep | pmos_backup/window.py:282-286 | one step of the first loop keeps the order and the empty entries in step with the keys seen |
| CategoryTree.TopsStepAt | pmos_backup/window.py:282-286 | the first loop's `i`th iteration extends the order and the tree of the first `i` keys to those of the first `i + 1` |
| CategoryTree.TopKeyMember | pmos_backup/window.py:285-286 | a top-level part is in the tree's order if and only if some key has it |
| CategoryTree.SubsStep | pmos_backup/window.py:287-291 | one step of the second loop appends a subkey to its top's list and changes nothing else |
| CategoryTree.SubsStepAt | pmos_backup/window.py:287-291 | in the second loop's `j`th iteration, a key with a dot finds its top's entry, and the tree of the first `j` sorted keys becomes that of the first `j + 1` |
| CategoryTree.SubkeysSnoc | pmos_backup/window.py:288-291 | one more key adds its subkey at the end of its own top's list and to no other |
| CategoryTree.SortedKeyPrefix | pmos_backup/window.py:290-291 | every sorted key's top already has an entry, so `tree[key]` never raises |
| CategoryTree.StartTree | pmos_backup/window.py:281-286 | the first loop lists every top-level part once, in first-seen order, with an empty entry |
| CategoryTree.FillTree | pmos_backup/window.py:287-291 | the second loop fills each entry with its subkeys in sorted order |
| CategoryTree.BuildTree | pmos_backup/window.py:281-291 | the tree's order is the top-level parts in first-seen order. Its entries are exactly those parts, and each holds the sorted subkeys under it |
| CategoryTree.LoneTopIsKey | pmos_backup/window.py:299-304 | a top without subkeys is itself a size key, so `size[key]` at line 304 finds it |
| CategoryTree.Lower | pmos_backup/window.py:319 | each upper-case ASCII letter becomes its lower-case letter, and every other character stays as it is |
| CategoryTree.Marks | pmos_backup/window.py:299-322 | a top gets one check box when it has no subkeys, and one per subkey otherwise |
| CategoryTree.MarkKeysPresent | pmos_backup/window.py:293-324 | with the key `top.sub` for each subkey, every check box's archive key is a size key, so the lookups at line 324 succeed |
| CategoryTree.SingleKeyTree | pmos_backup/window.py:281-291 | the single key `top.sub` gives the order `[top]` and the tree `{top: [sub]}` |
| CategoryTree.SingleKeyMarks | pmos_backup/window.py:293-322 | a single key `top.sub` gives exactly one check box, keyed by its detail key |
| CategoryTree.DetailKeyAsWrittenMisses | pmos_backup/window.py:319-324 | for a subkey that is not lower case, the key built at line 319 is not among the size keys |
| CategoryTree.CapitalUserMisses | pmos_backup/window.py:319 | the size key `homedir.Alice` meets the conditions of the lemma above |
| Text.SplitFirstShape | pmos_backup/state.py:52 | `split(sep, maxsplit=1)` gives a head without the separator, and head, separator and tail rebuild the string |
| Text.SplitFirstUnique | pmos_backup/state.py:97 | a string `a + sep + b` with no separator in `a` splits at the first separator into exactly `a` and `b` |
| Text.SplitCount | pmos_backup/window.py:260 | `split(c)` gives one more piece than there are `c`s |
| Text.SplitPair | pmos_backup/window.py:260 | `a=b`, with no `=` in `a` or `b`, splits into exactly `[a, b]` |
| Text.JoinSplit | pmos_backup/state.py:25 | joining the pieces of a split gives back the string |
| Text.SplitJoin | pmos_backup/window.py:270 | splitting a join of separator-free pieces gives the pieces back |
| Text.Strip | pmos_backup/window.py:248 | `strip()` leaves no whitespace at either end |
| Text.RStrip | pmos_backup/window.py:260 | `rstrip()` keeps a prefix of the line and drops only whitespace, so no whitespace is left at the end |
| Text.StripChar | pmos_backup/window.py:261 | `strip('"')` leaves no `"` at either end |
| Text.StripAround | pmos_backup/window.py:248-261 | stripping a core that starts and ends with kept characters, between dropped ones, gives the core |
| Text.LexLessTotal | pmos_backup/window.py:287 | two different strings are ordered one way or the other |
| Text.LexLessTransitive | pmos_backup/window.py:287 | string order is transitive |

## Left out

- The GTK, libhandy and CSS widgets are left out: windows, dialogs, file choosers, labels and margins. The model keeps the state that the handlers compute. The check-box captions (`title()`, the `names` table, `[name]`) and the "N files, M bytes" detail labels are display-only, so they are left out.
- The backup thread itself is left out: `threading`, `pkexec`, `subprocess.Popen` and `GLib.idle_add`. `Dispatch.ReadLoop` takes the subprocess's output lines as a parameter, and `json.loads` is a `decode` parameter that returns None where it would raise.
- The `print` calls in the thread and the window are console output with no effect on state, so they are left out.
- `ProgressDialog` and `progress_update`, including the `value / 100.0` floating-point fraction, are left out. Progress values are carried as the text the JSON holds.
- `State.SaveSystemState` does no real I/O. `apk audit`, `glob`, `os.stat`, `os.path.isdir`, `os.makedirs`, `shutil.copyfile` and reading `/etc/apk/world` become the `Env` value and the effect log.
  - The config and system copies use `follow_symlinks=False`, so they copy a broken link as a link. `Env.sizes` cannot tell a broken link from a missing file, so those copies are assumed to succeed. The model therefore has no missing audit source in capture mode, no source that vanishes mid-copy and no permission error.
  - The cache copies at line 108 follow links. A cached file that does not exist, such as a broken link, raises FileNotFoundError and is modelled.
  - The metadata files are assumed to exist.
  - The measure-mode call at line 126 and the `_progress` callback are not modelled. Reports are recorded as effects instead of calling a callback.
- `State.SaveSystemState` follows the code, not the design description. The description says per-file copy failures are collected as errors. The code catches nothing, so an exception ends the call, and the model does the same.
- `State.SaveSystemState` models four failures that the code raises from its inputs:
  - ValueError from the audit split;
  - FileExistsError from `os.makedirs` for a directory that already exists;
  - FileNotFoundError from `os.stat` in the system measure;
  - FileNotFoundError from the cache copy of a file that does not exist.

  Failures of `apk` itself (CalledProcessError) are not modelled.
- `State.SaveSystemState` sees a path only as an existing directory or as absent. `os.makedirs` at lines 36, 39, 61, 83 and 93 raises FileExistsError when the path is a regular file, and NotADirectoryError when one of its parents is a file. The model makes the directory instead.
- `StateProperties.SaveCaptureReturns` states its if-and-only-if only when every parent of a directory in `Env.dirs` is itself in `Env.dirs` (`StateProperties.Closed`), as on a real file system; otherwise it states the one direction.
- `RestorePage.Page.OnRestoreFileSet` takes the header dictionary as a parameter. `backupinfo.get_info` and `get_archive_info` are not part of this model, so the backup's headers and the archive's size keys are parameters.
  - A missing `/etc/os-release` (FileNotFoundError) is not modelled.
  - The lookups of `contents[...]` are assumed to share the keys of `size`.
- `RestorePage.Page.OnRestoreFileSet` models the `allow_system` flags as written. The handler's local `allow_system` (line 242) is never read again; the comparison sets `self.allow_system` (lines 265 and 267). The local `allow_packages` is returned, since nothing in the window reads it.
- `Args.RestoreArgs` takes the box states as parameters. `on_restore_start_clicked` reads boxes (`restore_config` and others) that the window never creates by those names.
- The rest of the window is left out: the main window's construction, navigation and file chooser dialogs.
- `pmos_backup/__main__.py` and `pmos_backup/backupinfo.py` are not part of this model.
- `Text.Strip` treats as whitespace only the ASCII and Latin-1 characters that Python's `str.isspace` accepts, not the rest of Unicode.
- `Text.RStrip` treats as whitespace only the same ASCII and Latin-1 characters, so `Compatibility.OsReleaseLine` keeps other Unicode whitespace at the end of an os-release line.
- `Compatibility.HostArch` strips with `Text.Strip`, so it shares that limit.
- `CategoryTree.Lower` lower-cases ASCII letters only, where Python's `str.lower` covers all of Unicode.
- Python's string order is modelled as code-point order (`Text.LexLess`), as `sorted` uses it.

## Findings

| source | as written | input that shows it | evidently intended | confidence | as-written member | corrected member |
|---|---|---|---|---|---|---|
| pmos_backup/window.py:319 | the check box of a subkey is keyed `f'{key}.{subkey.lower()}'`, and line 324 looks that key up in `size` and `contents` | a backup whose size keys include `homedir.Alice` (a home directory with a capital letter): the key built is `homedir.alice`, which is not a size key, so line 324 raises KeyError and the restore page is never filled | key the box by the size key itself, `f'{key}.{subkey}'`, so every lookup finds its entry | medium; not executed | CategoryTree.DetailKeyAsWrittenMisses | CategoryTree.MarkKeysPresent |
