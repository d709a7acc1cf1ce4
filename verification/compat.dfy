/**
  The compatibility checks of the restore page of pmos_backup/window.py
  (`on_restore_file_set`): the host architecture, the `key=value` lines of
  /etc/os-release, and the warnings shown when a backup was made for another
  CPU or another OS version.
*/
module Compatibility {
  import opened Wrappers
  import opened Text

  // ---------------------------------------------------------------------
  // Host architecture

  /**
    The architecture the backup is compared with: the contents of
    /etc/apk/arch with surrounding whitespace removed when that file exists,
    otherwise `platform.machine()`.
  */
  function HostArch(machine: string, archFile: Option<string>): (arch: string)
    ensures archFile.None? ==> arch == machine
    ensures archFile.Some? ==> arch == [] || (!IsSpace(arch[0]) && !IsSpace(arch[|arch| - 1]))
  {
    match archFile
    case None => machine
    case Some(contents) => Strip(contents)
  }

  /** An arch file holding one name, with any whitespace around it, names that architecture. */
  lemma HostArchFromFile(machine: string, before: string, name: string, after: string)
    requires name != [] && !IsSpace(name[0]) && !IsSpace(name[|name| - 1])
    requires forall k :: 0 <= k < |before| ==> IsSpace(before[k])
    requires forall k :: 0 <= k < |after| ==> IsSpace(after[k])
    ensures HostArch(machine, Some(before + name + after)) == name
  {
    StripAround(before, name, after, Whitespace);
  }

  // ---------------------------------------------------------------------
  // /etc/os-release

  /**
    One line of /etc/os-release: trailing whitespace removed, split at every
    `=`, unpacked into exactly a key and a value (None when the unpacking
    raises ValueError), and double quotes stripped from both ends of the value.
  */
  function OsReleaseLine(line: string): (r: Option<(string, string)>)
    ensures r.Some? ==> '=' !in r.value.0
    ensures r.Some? ==> r.value.1 == [] || (r.value.1[0] != '"' && r.value.1[|r.value.1| - 1] != '"')
  {
    var parts := Split(RStrip(line), '=');
    if |parts| != 2 then None else Some((parts[0], StripChar(parts[1], '"')))
  }

  /** A line is accepted exactly when it holds a single `=`; a blank line or a comment without one is rejected. */
  lemma OsReleaseLineAccepts(line: string)
    ensures OsReleaseLine(line).Some? <==> multiset(line)['='] == 1
  {
    var r := RStrip(line);
    SplitCount(r, '=');
    assert '=' !in Whitespace;
    CountBefore(line, |r|, '=');
  }

  /** `KEY=value` followed by whitespace reads back as that key and the value without its quotes. */
  lemma OsReleaseLineOf(key: string, value: string, trailing: string)
    requires '=' !in key && '=' !in value
    requires value == [] || !IsSpace(value[|value| - 1])
    requires forall k :: 0 <= k < |trailing| ==> IsSpace(trailing[k])
    ensures OsReleaseLine(key + "=" + value + trailing) == Some((key, StripChar(value, '"')))
  {
    var s := key + "=" + value;
    assert s[|s| - 1] !in Whitespace by {
      if value == [] {
        assert s[|s| - 1] == '=';
      } else {
        assert s[|s| - 1] == value[|value| - 1];
      }
    }
    TrimEndAppend(s, trailing, Whitespace);
    assert RStrip(s + trailing) == s;
    SplitPair(key, value, '=');
  }

  /** The quoted line regrouped around its quoted value. */
  lemma QuotedLine(key: string, value: string, trailing: string)
    ensures key + "=\"" + value + "\"" + trailing == key + "=" + ("\"" + value + "\"") + trailing
  {
  }

  /** `KEY="value"` followed by whitespace reads back as exactly that key and value. */
  lemma OsReleaseQuoted(key: string, value: string, trailing: string)
    requires '=' !in key && '=' !in value
    requires value != [] && value[0] != '"' && value[|value| - 1] != '"'
    requires forall k :: 0 <= k < |trailing| ==> IsSpace(trailing[k])
    ensures OsReleaseLine(key + "=\"" + value + "\"" + trailing) == Some((key, value))
  {
    var quoted := ['"'] + value + ['"'];
    StripCharEnclosed(value, '"');
    assert quoted[|quoted| - 1] == '"';
    OsReleaseLineOf(key, quoted, trailing);
    QuotedLine(key, value, trailing);
  }

  /** /etc/os-release read into a dictionary, or the first line that does not unpack. */
  datatype OsRelease = Distro(fields: map<string, string>) | BadLine(line: string)

  /*
    The read loop is stated for any way `entry` of unpacking one line; the
    loop of `on_restore_file_set` uses `OsReleaseLine`.
  */

  /** One iteration of the read loop: add the line's key and value, or stop at a line that does not unpack. */
  function ReadStep(entry: string -> Option<(string, string)>, acc: OsRelease, line: string): OsRelease {
    match acc
    case BadLine(_) => acc
    case Distro(fields) =>
      match entry(line)
      case None => BadLine(line)
      case Some(kv) => Distro(fields[kv.0 := kv.1])
  }

  /** The dictionary the read loop builds: a later line overrides an earlier one with the same key. */
  function ReadLines(entry: string -> Option<(string, string)>, lines: seq<string>): OsRelease
    decreases |lines|
  {
    if lines == [] then Distro(map[])
    else ReadStep(entry, ReadLines(entry, lines[..|lines| - 1]), lines[|lines| - 1])
  }

  /** /etc/os-release as `on_restore_file_set` reads it. */
  function ParseOsRelease(lines: seq<string>): OsRelease {
    ReadLines(OsReleaseLine, lines)
  }

  /** The key of a line that unpacks. */
  function LineKey(entry: string -> Option<(string, string)>, line: string): Option<string> {
    match entry(line)
    case None => None
    case Some(kv) => Some(kv.0)
  }

  /** Once a line fails to unpack, the lines after it are never read. */
  lemma {:induction false} ReadStops(entry: string -> Option<(string, string)>, lines: seq<string>, i: nat)
    requires i <= |lines| && ReadLines(entry, lines[..i]).BadLine?
    ensures ReadLines(entry, lines) == ReadLines(entry, lines[..i])
    decreases |lines| - i
  {
    if i < |lines| {
      assert lines[..i + 1][..i] == lines[..i];
      ReadStops(entry, lines, i + 1);
    } else {
      assert lines[..i] == lines;
    }
  }

  /** The read fails exactly when some line does not unpack. */
  lemma {:induction false} ReadFails(entry: string -> Option<(string, string)>, lines: seq<string>)
    ensures ReadLines(entry, lines).BadLine? <==> exists i :: 0 <= i < |lines| && entry(lines[i]).None?
    decreases |lines|
  {
    if lines != [] {
      var init, last := lines[..|lines| - 1], lines[|lines| - 1];
      ReadFails(entry, init);
      assert forall i :: 0 <= i < |init| ==> lines[i] == init[i];
      if ReadLines(entry, init).BadLine? {
        var i :| 0 <= i < |init| && entry(init[i]).None?;
        assert entry(lines[i]).None?;
      } else if entry(last).None? {
        assert entry(lines[|lines| - 1]).None?;
      }
    }
  }

  /** A failed read reports the first line that does not unpack. */
  lemma {:induction false} ReadFirstBad(entry: string -> Option<(string, string)>, lines: seq<string>)
    requires ReadLines(entry, lines).BadLine?
    ensures exists i :: (0 <= i < |lines| && lines[i] == ReadLines(entry, lines).line
      && entry(lines[i]).None? && (forall j :: 0 <= j < i ==> entry(lines[j]).Some?))
    decreases |lines|
  {
    var init := lines[..|lines| - 1];
    if ReadLines(entry, init).BadLine? {
      ReadFirstBad(entry, init);
      var i :| 0 <= i < |init| && init[i] == ReadLines(entry, init).line
        && entry(init[i]).None? && (forall j :: 0 <= j < i ==> entry(init[j]).Some?);
      assert forall j :: 0 <= j <= i ==> lines[j] == init[j];
    } else {
      ReadFails(entry, init);
      assert forall j :: 0 <= j < |init| ==> lines[j] == init[j];
      assert lines[|lines| - 1] == ReadLines(entry, lines).line;
    }
  }

  /**
    When every line unpacks, the value under a line's key is the value of
    that line, unless a later line has the same key.
  */
  lemma {:induction false} ReadFields(entry: string -> Option<(string, string)>, lines: seq<string>, i: nat)
    requires ReadLines(entry, lines).Distro? && i < |lines|
    requires forall j :: i < j < |lines| ==> LineKey(entry, lines[j]) != LineKey(entry, lines[i])
    ensures entry(lines[i]).Some?
    ensures var kv := entry(lines[i]).value;
      kv.0 in ReadLines(entry, lines).fields && ReadLines(entry, lines).fields[kv.0] == kv.1
    decreases |lines|
  {
    var init := lines[..|lines| - 1];
    if i < |lines| - 1 {
      assert init[i] == lines[i];
      forall j | i < j < |init|
        ensures LineKey(entry, init[j]) != LineKey(entry, init[i])
      {
        assert init[j] == lines[j];
      }
      ReadFields(entry, init, i);
    }
  }

  /** When every line unpacks, a key is in the dictionary exactly when some line has it. */
  lemma {:induction false} ReadKeys(entry: string -> Option<(string, string)>, lines: seq<string>, key: string)
    requires ReadLines(entry, lines).Distro?
    ensures key in ReadLines(entry, lines).fields <==> exists i :: 0 <= i < |lines| && LineKey(entry, lines[i]) == Some(key)
    decreases |lines|
  {
    if lines != [] {
      var init := lines[..|lines| - 1];
      ReadKeys(entry, init, key);
      assert forall i :: 0 <= i < |init| ==> lines[i] == init[i];
      if LineKey(entry, lines[|lines| - 1]) == Some(key) {
        assert LineKey(entry, lines[|lines| - 1]) == Some(key);
      }
    }
  }

  /**
    The read loop of `on_restore_file_set` (pmos_backup/window.py, lines
    258-261), stopping at the first line that does not unpack.
  */
  method ReadOsRelease(lines: seq<string>) returns (distro: OsRelease)
    ensures distro == ParseOsRelease(lines)
  {
    var fields := map[];
    for i := 0 to |lines|
      invariant ReadLines(OsReleaseLine, lines[..i]) == Distro(fields)
    {
      var kv := OsReleaseLine(lines[i]);
      assert lines[..i + 1][..i] == lines[..i];
      if kv.None? {
        ReadStops(OsReleaseLine, lines, i + 1);
        return BadLine(lines[i]);
      }
      fields := fields[kv.value.0 := kv.value.1];
    }
    assert lines[..|lines|] == lines;
    return Distro(fields);
  }

  // ---------------------------------------------------------------------
  // Warnings

  const WarningLead := "This backup is for another "

  function CpuWarning(arch: string): string {
    WarningLead + "CPU (" + arch + ")"
  }

  function OsWarning(version: string): string {
    WarningLead + "OS version (" + version + ")"
  }

  /** The backup names an architecture and it is not the host's. */
  predicate ArchMismatch(headers: map<string, string>, hostArch: string) {
    "arch" in headers && headers["arch"] != hostArch
  }

  /** The backup names an OS version and it is not the host's `VERSION_ID`. */
  predicate VersionMismatch(headers: map<string, string>, versionId: string) {
    "os-version" in headers && headers["os-version"] != versionId
  }

  /** The warnings in the order they are added: the CPU first, then the OS version. */
  function Warnings(headers: map<string, string>, hostArch: string, versionId: string): seq<string> {
    (if ArchMismatch(headers, hostArch) then [CpuWarning(headers["arch"])] else [])
    + (if VersionMismatch(headers, versionId) then [OsWarning(headers["os-version"])] else [])
  }

  /** A CPU warning is never an OS warning, and each names one value. */
  lemma WarningsDiffer(x: string, y: string)
    ensures CpuWarning(x) != OsWarning(y)
    ensures CpuWarning(x) == CpuWarning(y) ==> x == y
    ensures OsWarning(x) == OsWarning(y) ==> x == y
  {
    assert CpuWarning(x)[|WarningLead|] == 'C';
    assert OsWarning(y)[|WarningLead|] == 'O';
    var c, o := WarningLead + "CPU (", WarningLead + "OS version (";
    if CpuWarning(x) == CpuWarning(y) {
      assert CpuWarning(x)[|c|..|c| + |x|] == x && CpuWarning(y)[|c|..|c| + |y|] == y;
    }
    if OsWarning(x) == OsWarning(y) {
      assert OsWarning(x)[|o|..|o| + |x|] == x && OsWarning(y)[|o|..|o| + |y|] == y;
    }
  }

  /**
    The CPU warning for `x` is given exactly when the backup's architecture
    is `x` and not the host's, and the OS warning for `x` exactly when the
    backup's OS version is `x` and not the host's; there are no others.
  */
  lemma WarningsMeaning(headers: map<string, string>, hostArch: string, versionId: string, x: string)
    ensures var w := Warnings(headers, hostArch, versionId);
      && (CpuWarning(x) in w <==> ArchMismatch(headers, hostArch) && x == headers["arch"])
      && (OsWarning(x) in w <==> VersionMismatch(headers, versionId) && x == headers["os-version"])
      && (w == [] <==> !ArchMismatch(headers, hostArch) && !VersionMismatch(headers, versionId))
      && |w| <= 2
  {
    if "arch" in headers {
      WarningsDiffer(x, headers["arch"]);
      WarningsDiffer(headers["arch"], x);
    }
    if "os-version" in headers {
      WarningsDiffer(x, x);
      WarningsDiffer(x, headers["os-version"]);
      WarningsDiffer(headers["os-version"], x);
    }
    if "arch" in headers && "os-version" in headers {
      WarningsDiffer(headers["arch"], headers["os-version"]);
    }
  }

  /** When no value holds a newline, the shown text has one warning per line. */
  lemma WarningTextLines(headers: map<string, string>, hostArch: string, versionId: string)
    requires forall key :: key in headers ==> '\n' !in headers[key]
    ensures var w := Warnings(headers, hostArch, versionId);
      w != [] ==> Split(Join(w, '\n'), '\n') == w
  {
    var w := Warnings(headers, hostArch, versionId);
    forall k | 0 <= k < |w|
      ensures '\n' !in w[k]
    {
      if ArchMismatch(headers, hostArch) && k == 0 {
        assert w[k] == CpuWarning(headers["arch"]);
      } else {
        assert w[k] == OsWarning(headers["os-version"]);
      }
    }
    if w != [] {
      SplitJoin(w, '\n');
    }
  }
}
