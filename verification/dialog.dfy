/**
  The check boxes of the restore dialog of pmos_backup/window.py
  (`RestoreDialog`): the sideloaded-packages box can only be used while the
  installed-packages box is checked and the backup is from the same branch.
*/
module Dialog {
  /** The state of the two check boxes that depend on each other, and the branch flag. */
  class RestoreDialog {
    var wrongBranch: bool
    var pkgsActive: bool
    var apksActive: bool
    var apksSensitive: bool

    /** The sideloaded box is usable exactly when packages are restored from the same branch, and is never checked without them. */
    predicate Consistent()
      reads this
    {
      && apksSensitive == (pkgsActive && !wrongBranch)
      && (!pkgsActive ==> !apksActive)
    }

    /** A new dialog: same branch, boxes unchecked, the sideloaded box made insensitive. */
    constructor ()
      ensures !wrongBranch && !pkgsActive && !apksActive && !apksSensitive
      ensures Consistent()
    {
      wrongBranch := false;
      pkgsActive := false;
      apksActive := false;
      apksSensitive := false;
    }

    /**
      `on_pkgs_toggled`: the sideloaded box is sensitive exactly when the
      packages box is checked and the branch is right, and unchecking the
      packages box unchecks it.
    */
    method OnPkgsToggled()
      modifies this
      ensures apksSensitive == (pkgsActive && !wrongBranch)
      ensures apksActive == (old(apksActive) && pkgsActive)
      ensures pkgsActive == old(pkgsActive) && wrongBranch == old(wrongBranch)
      ensures Consistent()
    {
      var active := pkgsActive;
      apksSensitive := active && !wrongBranch;
      if !active {
        apksActive := false;
      }
    }

    /** Clicking the packages box flips it and runs the handler connected to its `toggled` signal. */
    method TogglePkgs()
      modifies this
      ensures pkgsActive == !old(pkgsActive) && wrongBranch == old(wrongBranch)
      ensures apksActive == (old(apksActive) && pkgsActive)
      ensures Consistent()
    {
      pkgsActive := !pkgsActive;
      OnPkgsToggled();
    }
  }
}
