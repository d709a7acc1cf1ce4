/**
  The command lines that pmos_backup/window.py hands to the `pmos-backup`
  tool: the suffix forced onto the file name of a new backup, and one
  `--no-<part>` flag for every part whose check box is unchecked, for a
  backup and for a restore.
*/
module Args {
  import opened Text

  const BackupSuffix := ".backup.tar.gz"

  /**
    The target of a new backup: the chosen file name, with `.backup.tar.gz`
    appended unless it already ends that way.
  */
  function WithBackupSuffix(target: string): (r: string)
    ensures EndsWith(r, BackupSuffix) && StartsWith(r, target)
    ensures EndsWith(target, BackupSuffix) <==> r == target
    ensures !EndsWith(target, BackupSuffix) ==> r == target + BackupSuffix
  {
    if EndsWith(target, BackupSuffix) then target
    else
      var r := target + BackupSuffix;
      assert r[|r| - |BackupSuffix|..] == BackupSuffix;
      assert r[..|target|] == target;
      r
  }

  /** Forcing the suffix a second time changes nothing. */
  lemma BackupSuffixIdempotent(target: string)
    ensures WithBackupSuffix(WithBackupSuffix(target)) == WithBackupSuffix(target)
  {
  }

  /** One check box of a dialog: the flag that switches its part off, and whether it is checked. */
  datatype Choice = Choice(flag: string, active: bool)

  /** The flag of every unchecked box, in the order of the boxes. */
  function Disabled(choices: seq<Choice>): (flags: seq<string>)
    ensures |flags| <= |choices|
    decreases |choices|
  {
    if choices == [] then []
    else
      var last := choices[|choices| - 1];
      Disabled(choices[..|choices| - 1]) + (if last.active then [] else [last.flag])
  }

  /** A box added at the end adds its flag when it is unchecked. */
  lemma DisabledPush(choices: seq<Choice>, c: Choice)
    ensures Disabled(choices + [c]) == Disabled(choices) + (if c.active then [] else [c.flag])
  {
    assert (choices + [c])[..|choices|] == choices;
  }

  /** The flags of earlier boxes come before the flags of later ones. */
  lemma {:induction false} DisabledAppend(a: seq<Choice>, b: seq<Choice>)
    ensures Disabled(a + b) == Disabled(a) + Disabled(b)
    decreases |b|
  {
    if b == [] {
      assert a + b == a;
    } else {
      var init, last := b[..|b| - 1], b[|b| - 1];
      assert b == init + [last];
      assert a + b == (a + init) + [last];
      DisabledAppend(a, init);
      DisabledPush(a + init, last);
      DisabledPush(init, last);
    }
  }

  /** One more box adds its flag when it is unchecked. */
  lemma DisabledSnoc(choices: seq<Choice>, k: nat)
    requires k < |choices|
    ensures Disabled(choices[..k + 1]) == Disabled(choices[..k]) + (if choices[k].active then [] else [choices[k].flag])
  {
    assert choices[..k + 1][..k] == choices[..k];
  }

  /** Every flag given is the flag of an unchecked box. */
  lemma {:induction false} DisabledFlagsUnchecked(choices: seq<Choice>, flag: string)
    requires flag in Disabled(choices)
    ensures exists i :: 0 <= i < |choices| && !choices[i].active && flag == choices[i].flag
    decreases |choices|
  {
    var n := |choices|;
    var init := choices[..n - 1];
    if flag in Disabled(init) {
      DisabledFlagsUnchecked(init, flag);
      var i :| 0 <= i < |init| && !init[i].active && flag == init[i].flag;
      assert choices[i] == init[i];
    }
  }

  /** The flag of an unchecked box is given. */
  lemma {:induction false} UncheckedFlagPresent(choices: seq<Choice>, i: nat)
    requires i < |choices| && !choices[i].active
    ensures choices[i].flag in Disabled(choices)
    decreases |choices|
  {
    var n := |choices|;
    if i < n - 1 {
      var init := choices[..n - 1];
      assert init[i] == choices[i];
      UncheckedFlagPresent(init, i);
    }
  }

  /** The boxes have pairwise different flags. */
  predicate DistinctFlags(choices: seq<Choice>) {
    forall i, j :: 0 <= i < j < |choices| ==> choices[i].flag != choices[j].flag
  }

  /**
    With pairwise different flags, a box's flag is given exactly when the
    box is unchecked.
  */
  lemma DisabledMember(choices: seq<Choice>, i: nat)
    requires DistinctFlags(choices) && i < |choices|
    ensures choices[i].flag in Disabled(choices) <==> !choices[i].active
  {
    if !choices[i].active {
      UncheckedFlagPresent(choices, i);
    }
    if choices[i].flag in Disabled(choices) {
      DisabledFlagsUnchecked(choices, choices[i].flag);
    }
  }

  /** The check boxes of a new backup, in the order their flags are added. */
  function BackupChoices(config: bool, system: bool, apks: bool, homedirs: bool): seq<Choice> {
    [Choice("--no-config", config), Choice("--no-system", system), Choice("--no-apks", apks), Choice("--no-homedirs", homedirs)]
  }

  /** The check boxes of a restore, in the order their flags are added. */
  function RestoreChoices(config: bool, system: bool, packages: bool, apks: bool, homedirs: bool): seq<Choice> {
    [Choice("--no-config", config), Choice("--no-system", system), Choice("--no-packages", packages),
     Choice("--no-apks", apks), Choice("--no-homedirs", homedirs)]
  }

  /**
    `if not <box>.get_active(): args.append(<flag>)`, for the `k`-th box of
    `choices`, after `head` and the flags of the boxes before it.
  */
  method AppendUnless(args: seq<string>, active: bool, flag: string, ghost head: seq<string>, ghost choices: seq<Choice>, ghost k: nat)
    returns (r: seq<string>)
    requires k < |choices| && choices[k] == Choice(flag, active)
    requires args == head + Disabled(choices[..k])
    ensures r == head + Disabled(choices[..k + 1])
  {
    DisabledSnoc(choices, k);
    r := args;
    if !active {
      r := r + [flag];
    }
  }

  /** The arguments of a new backup: a flag for every unchecked part. */
  method BackupArgs(config: bool, system: bool, apks: bool, homedirs: bool) returns (args: seq<string>)
    ensures args == Disabled(BackupChoices(config, system, apks, homedirs))
  {
    ghost var choices := BackupChoices(config, system, apks, homedirs);
    assert choices[..0] == [] && choices[..4] == choices;
    args := [];
    args := AppendUnless(args, config, "--no-config", [], choices, 0);
    args := AppendUnless(args, system, "--no-system", [], choices, 1);
    args := AppendUnless(args, apks, "--no-apks", [], choices, 2);
    args := AppendUnless(args, homedirs, "--no-homedirs", [], choices, 3);
  }

  /** The arguments of a restore: `--restore`, then a flag for every unchecked part. */
  method RestoreArgs(config: bool, system: bool, packages: bool, apks: bool, homedirs: bool) returns (args: seq<string>)
    ensures args == ["--restore"] + Disabled(RestoreChoices(config, system, packages, apks, homedirs))
  {
    ghost var choices := RestoreChoices(config, system, packages, apks, homedirs);
    assert choices[..0] == [] && choices[..5] == choices;
    args := ["--restore"];
    ghost var head := args;
    args := AppendUnless(args, config, "--no-config", head, choices, 0);
    args := AppendUnless(args, system, "--no-system", head, choices, 1);
    args := AppendUnless(args, packages, "--no-packages", head, choices, 2);
    args := AppendUnless(args, apks, "--no-apks", head, choices, 3);
    args := AppendUnless(args, homedirs, "--no-homedirs", head, choices, 4);
  }

  /**
    The backup flags (pmos_backup/window.py, lines 222-230): `--no-<part>` is
    given exactly when that part is unchecked.
  */
  lemma BackupFlags(config: bool, system: bool, apks: bool, homedirs: bool)
    ensures var flags := Disabled(BackupChoices(config, system, apks, homedirs));
      && ("--no-config" in flags <==> !config)
      && ("--no-system" in flags <==> !system)
      && ("--no-apks" in flags <==> !apks)
      && ("--no-homedirs" in flags <==> !homedirs)
  {
    var choices := BackupChoices(config, system, apks, homedirs);
    assert DistinctFlags(choices);
    DisabledMember(choices, 0);
    DisabledMember(choices, 1);
    DisabledMember(choices, 2);
    DisabledMember(choices, 3);
  }

  /**
    The restore flags (pmos_backup/window.py, lines 336-346): `--restore`
    comes first and only there, and `--no-<part>` is given exactly when that
    part is unchecked.
  */
  lemma RestoreFlags(config: bool, system: bool, packages: bool, apks: bool, homedirs: bool)
    ensures var flags := Disabled(RestoreChoices(config, system, packages, apks, homedirs));
      && "--restore" !in flags
      && ("--no-config" in flags <==> !config)
      && ("--no-system" in flags <==> !system)
      && ("--no-packages" in flags <==> !packages)
      && ("--no-apks" in flags <==> !apks)
      && ("--no-homedirs" in flags <==> !homedirs)
  {
    var choices := RestoreChoices(config, system, packages, apks, homedirs);
    assert DistinctFlags(choices);
    if "--restore" in Disabled(choices) {
      DisabledFlagsUnchecked(choices, "--restore");
    }
    DisabledMember(choices, 0);
    DisabledMember(choices, 1);
    DisabledMember(choices, 2);
    DisabledMember(choices, 3);
    DisabledMember(choices, 4);
  }
}
