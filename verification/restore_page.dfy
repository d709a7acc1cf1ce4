/**
  The restore page of the main window of pmos_backup/window.py: what
  choosing a backup file does (`on_restore_file_set`, lines 236-291) to the
  page's own state, the `allow_system` flag and the warning label, and the
  category tree it builds from the archive's size keys.
*/
module RestorePage {
  import opened Wrappers
  import opened Text
  import opened Compatibility
  import opened CategoryTree

  /** The exceptions that end the handler before the page is filled in. */
  datatype Failure =
    | BadOsRelease(line: string)  // a line of /etc/os-release that does not unpack (ValueError)
    | NoVersionId                 // /etc/os-release has no VERSION_ID (KeyError)

  /** What the handler learns from /etc/os-release. */
  datatype VersionRead = NotRead | Version(id: string) | Raised(failure: Failure)

  /** /etc/os-release is read only when the backup names an OS version. */
  function ReadVersion(headers: map<string, string>, osRelease: seq<string>): (v: VersionRead)
    ensures v.NotRead? <==> "os-version" !in headers
  {
    if "os-version" !in headers then NotRead
    else
      match ParseOsRelease(osRelease)
      case BadLine(line) => Raised(BadOsRelease(line))
      case Distro(fields) => if "VERSION_ID" in fields then Version(fields["VERSION_ID"]) else Raised(NoVersionId)
  }

  /** The host's `VERSION_ID` as the warnings compare it; unused when the backup names no OS version. */
  function VersionIdOf(v: VersionRead): string {
    if v.Version? then v.id else ""
  }

  /** The state of the restore page that the handler changes. */
  class Page {
    var allowSystem: bool
    var warningText: string
    var warningVisible: bool

    constructor (allowSystem: bool, warningText: string, warningVisible: bool)
      ensures this.allowSystem == allowSystem && this.warningText == warningText
      ensures this.warningVisible == warningVisible
    {
      this.allowSystem := allowSystem;
      this.warningText := warningText;
      this.warningVisible := warningVisible;
    }

    /**
      `on_restore_file_set`: hide the warning, compare the backup's headers
      with the host's architecture and OS version, show the warnings if
      there are any, and build the category tree from the size keys. An
      exception while reading /etc/os-release leaves the warning hidden and
      `allow_system` as it was, and builds no tree. `allowPackages` is the
      handler's local flag, which nothing reads afterwards.
    */
    method OnRestoreFileSet(headers: map<string, string>, machine: string, archFile: Option<string>,
                            osRelease: seq<string>, sizeKeys: seq<string>)
      returns (failure: Option<Failure>, allowPackages: bool, order: seq<string>, tree: map<string, seq<string>>)
      modifies this
      ensures allowPackages == !ArchMismatch(headers, HostArch(machine, archFile))
      ensures var v := ReadVersion(headers, osRelease);
        v.Raised? ==>
          && failure == Some(v.failure)
          && !warningVisible && warningText == old(warningText) && allowSystem == old(allowSystem)
          && order == [] && tree == map[]
      ensures var v := ReadVersion(headers, osRelease);
        var w := Warnings(headers, HostArch(machine, archFile), VersionIdOf(v));
        !v.Raised? ==>
          && failure == None
          && allowSystem == (if v.Version? then headers["os-version"] == v.id else old(allowSystem))
          && warningVisible == (w != [])
          && warningText == (if w != [] then Join(w, '\n') else old(warningText))
          && order == TopKeys(sizeKeys) && tree == Tree(sizeKeys)
    {
      warningVisible := false;
      var warnings;
      failure, allowPackages, warnings := CompareWithHost(headers, machine, archFile, osRelease);
      if failure.Some? {
        return failure, allowPackages, [], map[];
      }
      if |warnings| > 0 {
        warningText := Join(warnings, '\n');
        warningVisible := true;
      }
      order, tree := BuildTree(sizeKeys);
    }

    /**
      The comparisons of `on_restore_file_set` (lines 245-267): the warnings
      for a different CPU architecture and a different OS version, the local
      `allow_packages` flag, and `allow_system`, which is set only when the
      OS version is compared.
    */
    method CompareWithHost(headers: map<string, string>, machine: string, archFile: Option<string>, osRelease: seq<string>)
      returns (failure: Option<Failure>, allowPackages: bool, warnings: seq<string>)
      modifies this
      ensures warningText == old(warningText) && warningVisible == old(warningVisible)
      ensures allowPackages == !ArchMismatch(headers, HostArch(machine, archFile))
      ensures var v := ReadVersion(headers, osRelease);
        v.Raised? ==> failure == Some(v.failure) && allowSystem == old(allowSystem)
      ensures var v := ReadVersion(headers, osRelease);
        !v.Raised? ==>
          && failure == None
          && warnings == Warnings(headers, HostArch(machine, archFile), VersionIdOf(v))
          && allowSystem == (if v.Version? then headers["os-version"] == v.id else old(allowSystem))
    {
      var arch := HostArch(machine, archFile);
      if "arch" in headers && headers["arch"] != arch {
        // The first warning starts the list
        warnings := [CpuWarning(headers["arch"])];
        allowPackages := false;
      } else {
        warnings := [];
        allowPackages := true;
      }

      assert warnings == if ArchMismatch(headers, arch) then [CpuWarning(headers["arch"])] else [];
      failure := None;
      if "os-version" in headers {
        var osWarnings;
        failure, osWarnings := CompareVersion(headers, osRelease);
        warnings := warnings + osWarnings;
      } else {
        assert !VersionMismatch(headers, VersionIdOf(ReadVersion(headers, osRelease)));
        assert warnings == warnings + [];
      }
    }

    /**
      Lines 256-267: read /etc/os-release and compare its `VERSION_ID` with
      the backup's OS version, setting `allow_system` to the outcome; a
      different version gives the OS warning.
    */
    method CompareVersion(headers: map<string, string>, osRelease: seq<string>) returns (failure: Option<Failure>, warnings: seq<string>)
      requires "os-version" in headers
      modifies this
      ensures warningText == old(warningText) && warningVisible == old(warningVisible)
      ensures var v := ReadVersion(headers, osRelease);
        && (v.Raised? ==> failure == Some(v.failure) && allowSystem == old(allowSystem))
        && (!v.Raised? ==>
              && v.Version? && failure == None
              && allowSystem == (headers["os-version"] == v.id)
              && warnings == (if VersionMismatch(headers, v.id) then [OsWarning(headers["os-version"])] else []))
    {
      var distro := ReadOsRelease(osRelease);
      if distro.BadLine? {
        return Some(BadOsRelease(distro.line)), [];
      }
      if "VERSION_ID" !in distro.fields {
        return Some(NoVersionId), [];
      }
      if headers["os-version"] != distro.fields["VERSION_ID"] {
        warnings := [OsWarning(headers["os-version"])];
        allowSystem := false;
      } else {
        warnings := [];
        allowSystem := true;
      }
      failure := None;
    }
  }
}
