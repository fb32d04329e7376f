/**
  The start-up preparation (internal/setup/setup.go): clear the XDG variables the environment
  sets, then move the legacy `~/.config/user-dirs.dirs` out of the way.
 */
module Setup {
  import opened Wrappers
  import opened Os

  // ---------------------------------------------------------------- unsetXDGEnvVars

  /** The variables unsetXDGEnvVars clears, in the order it visits them. */
  const XdgEnvVars: seq<string> := [
    "XDG_CACHE_HOME", "XDG_CONFIG_HOME", "XDG_DATA_HOME", "XDG_STATE_HOME",
    "XDG_RUNTIME_DIR", "XDG_DESKTOP_DIR", "XDG_DOWNLOAD_DIR", "XDG_DOCUMENTS_DIR",
    "XDG_MUSIC_DIR", "XDG_PICTURES_DIR", "XDG_VIDEOS_DIR", "XDG_TEMPLATES_DIR",
    "XDG_PUBLICSHARE_DIR"
  ]

  /**
    The unset loop over `list`: each variable that reads as non-empty at its turn is recorded
    and removed. The result is the new environment and the recorded names.
   */
  function Unsets(vars: map<string, string>, list: seq<string>): (r: (map<string, string>, seq<string>))
    decreases |list|
  {
    if list == [] then (vars, [])
    else
      var n := |list| - 1;
      var (env, unset) := Unsets(vars, list[..n]);
      if Getenv(env, list[n]) != "" then (env - {list[n]}, unset + [list[n]]) else (env, unset)
  }

  /** The listed variables that are set to a non-empty value, in list order. */
  function NonEmptyVars(vars: map<string, string>, list: seq<string>): (r: seq<string>)
    decreases |list|
    ensures forall v :: v in r <==> v in list && Getenv(vars, v) != ""
    ensures |r| <= |list|
  {
    if list == [] then []
    else
      var n := |list| - 1;
      NonEmptyVars(vars, list[..n]) + (if Getenv(vars, list[n]) != "" then [list[n]] else [])
  }

  /** No name appears twice in `list`. */
  predicate Distinct(list: seq<string>) {
    forall i, j :: 0 <= i < j < |list| ==> list[i] != list[j]
  }

  /** After the loop none of the listed variables reads as non-empty. */
  lemma {:induction false} UnsetsClears(vars: map<string, string>, list: seq<string>)
    decreases |list|
    ensures forall v :: v in list ==> Getenv(Unsets(vars, list).0, v) == ""
  {
    if list != [] {
      var n := |list| - 1;
      UnsetsClears(vars, list[..n]);
      var env := Unsets(vars, list[..n]).0;
      assert Unsets(vars, list).0 == if Getenv(env, list[n]) != "" then env - {list[n]} else env;
      forall v | v in list
        ensures Getenv(Unsets(vars, list).0, v) == ""
      {
        if v != list[n] {
          var i :| 0 <= i < |list| && list[i] == v;
          assert list[..n][i] == v;
          assert Getenv(env, v) == "";
        } else {
          assert Getenv(env - {v}, v) == "";
        }
      }
    }
  }

  /** The loop touches no variable that is not listed. */
  lemma {:induction false} UnsetsKeepsOthers(vars: map<string, string>, list: seq<string>, k: string)
    requires k !in list
    decreases |list|
    ensures var env := Unsets(vars, list).0;
      (k in env <==> k in vars) && (k in vars ==> env[k] == vars[k])
  {
    if list != [] {
      var n := |list| - 1;
      assert k !in list[..n];
      UnsetsKeepsOthers(vars, list[..n], k);
    }
  }

  /** A listed variable that is set to the empty string stays set to it. */
  lemma {:induction false} UnsetsKeepsEmpty(vars: map<string, string>, list: seq<string>, k: string)
    requires k in vars && vars[k] == ""
    decreases |list|
    ensures var env := Unsets(vars, list).0; k in env && env[k] == ""
  {
    if list != [] {
      UnsetsKeepsEmpty(vars, list[..|list| - 1], k);
    }
  }

  /** A variable is removed exactly when it is listed and was set to a non-empty value. */
  lemma {:induction false} UnsetsRemoves(vars: map<string, string>, list: seq<string>)
    decreases |list|
    ensures forall k :: k in vars ==> (k !in Unsets(vars, list).0 <==> k in list && vars[k] != "")
    ensures forall k :: k in Unsets(vars, list).0 ==> k in vars
  {
    if list != [] {
      var n := |list| - 1;
      UnsetsRemoves(vars, list[..n]);
      UnsetsKeepsValues(vars, list[..n]);
      assert list == list[..n] + [list[n]];
    }
  }

  /** What the loop leaves in place keeps its value. */
  lemma {:induction false} UnsetsKeepsValues(vars: map<string, string>, list: seq<string>)
    decreases |list|
    ensures forall k :: k in Unsets(vars, list).0 ==> k in vars && Unsets(vars, list).0[k] == vars[k]
  {
    if list != [] {
      UnsetsKeepsValues(vars, list[..|list| - 1]);
    }
  }

  /**
    With no name listed twice, the recorded names are exactly the listed variables that were
    non-empty before the loop, in list order.
   */
  lemma {:induction false} UnsetsRecords(vars: map<string, string>, list: seq<string>)
    requires Distinct(list)
    decreases |list|
    ensures Unsets(vars, list).1 == NonEmptyVars(vars, list)
  {
    if list != [] {
      var n := |list| - 1;
      assert Distinct(list[..n]);
      UnsetsRecords(vars, list[..n]);
      assert list[n] !in list[..n];
      UnsetsKeepsOthers(vars, list[..n], list[n]);
    }
  }

  /** The thirteen names are different from each other. */
  lemma XdgEnvVarsDistinct()
    ensures Distinct(XdgEnvVars)
  {
    forall i, j | 0 <= i < j < |XdgEnvVars|
      ensures XdgEnvVars[i] != XdgEnvVars[j]
    {
      var a, b := XdgEnvVars[i], XdgEnvVars[j];
      if |a| == |b| {
        assert a[4] != b[4];
      }
    }
  }

  /** $HOME is not one of the cleared variables, so the home directory survives the unset loop. */
  lemma HomeSurvivesUnset(vars: map<string, string>)
    ensures UserHomeDir(Unsets(vars, XdgEnvVars).0) == UserHomeDir(vars)
  {
    assert forall i :: 0 <= i < |XdgEnvVars| ==> |XdgEnvVars[i]| > 4;
    UnsetsKeepsOthers(vars, XdgEnvVars, "HOME");
  }

  /**
    unsetXDGEnvVars: the loop over the list. It never fails; the recorded names, which the
    source only logs, are returned.
   */
  method UnsetXDGEnvVars(env: Environment) returns (err: Outcome<OsError>, unsetVars: seq<string>)
    modifies env
    ensures err == Pass
    ensures (env.vars, unsetVars) == Unsets(old(env.vars), XdgEnvVars)
  {
    var xdgEnvVars := XdgEnvVars;
    unsetVars := [];
    var i := 0;
    while i < |xdgEnvVars|
      invariant 0 <= i <= |xdgEnvVars|
      invariant (env.vars, unsetVars) == Unsets(old(env.vars), xdgEnvVars[..i])
    {
      var envVar := xdgEnvVars[i];
      assert xdgEnvVars[..i + 1][..i] == xdgEnvVars[..i];
      if Getenv(env.vars, envVar) != "" {
        unsetVars := unsetVars + [envVar];
        env.Unsetenv(envVar);
      }
      i := i + 1;
    }
    assert xdgEnvVars[..i] == xdgEnvVars;
    return Pass, unsetVars;
  }

  // ---------------------------------------------------------------- backupUserDirsFile

  /** The configuration directory under the home directory. */
  function ConfigDir(home: string): string {
    PathJoin(home, ".config")
  }

  /** The legacy file `<home>/.config/user-dirs.dirs`. */
  function LegacyFile(home: string): string {
    PathJoin(ConfigDir(home), "user-dirs.dirs")
  }

  /** filepath.Dir of the backup file: `<home>/.config/xdg`. */
  function BackupDir(home: string): string {
    PathJoin(ConfigDir(home), "xdg")
  }

  /** The backup `<home>/.config/xdg/user-dirs.dirs-backup`. */
  function BackupFile(home: string): string {
    PathJoin(BackupDir(home), "user-dirs.dirs-backup")
  }

  /**
    backupUserDirsFile: no home directory is an error; no legacy file is nothing to do; any
    other stat error is an error; otherwise the backup directory is made and the file is
    renamed into it.
   */
  function BackupSpec(vars: map<string, string>, t: Tree, denied: set<string>): (Outcome<OsError>, Tree) {
    match UserHomeDir(vars)
    case Failure(e) => (Fail(e), t)
    case Success(home) =>
      match StatIn(t, denied, LegacyFile(home))
      case Failure(ErrNotExist) => (Pass, t)
      case Failure(e) => (Fail(e), t)
      case Success(_) =>
        var (made, t1) := MkdirAllIn(t, denied, BackupDir(home));
        if made.Fail? then (Fail(made.error), t1)
        else RenameIn(t1, denied, LegacyFile(home), BackupFile(home))
  }

  /** filepath.Join of a directory that does not end in a separator and a non-empty name. */
  lemma JoinPlain(dir: string, name: string)
    requires dir != "" && dir[|dir| - 1] != '/' && name != ""
    ensures PathJoin(dir, name) == dir + "/" + name
  {
  }

  /** The configuration directory of a non-empty home ends in the `g` of `.config`. */
  lemma ConfigDirEnd(home: string)
    requires home != ""
    ensures var c := ConfigDir(home); |c| >= 7 && c[|c| - 1] == 'g'
  {
    var c := ConfigDir(home);
    if home[|home| - 1] == '/' {
      assert c == home + ".config";
    } else {
      assert c == home + "/" + ".config";
    }
  }

  /** The three paths are different from each other, and the backup directory is the parent os.MkdirAll sees. */
  lemma BackupPathsDiffer(home: string)
    requires home != ""
    ensures |BackupDir(home)| < |LegacyFile(home)| < |BackupFile(home)|
    ensures MkdirParent(BackupFile(home)) == Some(BackupDir(home))
  {
    var c := ConfigDir(home);
    ConfigDirEnd(home);
    JoinPlain(c, "user-dirs.dirs");
    JoinPlain(c, "xdg");
    var d := BackupDir(home);
    assert d[|d| - 1] == 'g';
    JoinPlain(d, "user-dirs.dirs-backup");
    ParentOfJoin(d, "user-dirs.dirs-backup");
  }

  /** Without a home directory the backup fails and changes nothing. */
  lemma BackupWithoutHome(vars: map<string, string>, t: Tree, denied: set<string>)
    requires Getenv(vars, "HOME") == ""
    ensures BackupSpec(vars, t, denied) == (Fail(ErrNoHome), t)
  {
  }

  /** Without a legacy file the backup succeeds and changes nothing; any other stat error is returned before anything moves. */
  lemma BackupWithoutLegacyFile(vars: map<string, string>, t: Tree, denied: set<string>)
    requires UserHomeDir(vars).Success?
    requires StatIn(t, denied, LegacyFile(UserHomeDir(vars).value)).Failure?
    ensures var e := StatIn(t, denied, LegacyFile(UserHomeDir(vars).value)).error;
      BackupSpec(vars, t, denied) == (if e == ErrNotExist then Pass else Fail(e), t)
  {
  }

  /** With `<home>/.config` a regular file, stat of the legacy file fails with ENOTDIR, and the backup returns that error. */
  lemma BackupBelowFile(vars: map<string, string>, t: Tree, denied: set<string>)
    requires UserHomeDir(vars).Success? && var home := UserHomeDir(vars).value;
      LegacyFile(home) !in denied && StatIn(t, denied, ConfigDir(home)).Success? && StatIn(t, denied, ConfigDir(home)).value.File?
    ensures BackupSpec(vars, t, denied) == (Fail(ErrNotDir), t)
  {
    var home := UserHomeDir(vars).value;
    ConfigDirEnd(home);
    ParentOfJoin(ConfigDir(home), "user-dirs.dirs");
    StatBelowFile(t, denied, LegacyFile(home));
  }

  /**
    A directory already at the backup path makes os.Rename refuse with EEXIST: the backup fails
    and changes nothing, since the backup directory above it exists as well.
   */
  lemma BackupOntoDirectory(vars: map<string, string>, t: Tree, denied: set<string>)
    requires UserHomeDir(vars).Success? && var home := UserHomeDir(vars).value;
      && StatIn(t, denied, LegacyFile(home)).Success?
      && BackupDir(home) !in denied
      && StatIn(t, denied, BackupFile(home)) == Success(Dir)
    ensures BackupSpec(vars, t, denied) == (Fail(ErrExist), t)
  {
    var home := UserHomeDir(vars).value;
    BackupPathsDiffer(home);
    assert StatIn(t, denied, BackupDir(home)) == Success(Dir);
    RenameOntoDirectory(t, denied, LegacyFile(home), BackupFile(home));
  }

  /**
    A successful backup of a legacy file that stat sees moves it, and everything below it, to
    the backup path inside a directory that stat now sees; stat no longer finds the legacy
    file, and every entry outside the two paths is kept.
   */
  lemma BackupMoves(vars: map<string, string>, t: Tree, denied: set<string>, t': Tree)
    requires UserHomeDir(vars).Success?
    requires StatIn(t, denied, LegacyFile(UserHomeDir(vars).value)).Success?
    requires BackupSpec(vars, t, denied) == (Pass, t')
    ensures var home := UserHomeDir(vars).value;
            var (legacy, backup) := (LegacyFile(home), BackupFile(home));
      && backup in t' && t'[backup] == t[legacy]
      && (forall p :: p in t && Within(p, legacy) ==> Rerooted(p, legacy, backup) in t' && t'[Rerooted(p, legacy, backup)] == t[p])
      && (forall p :: p in t' ==> !Within(p, legacy))
      && StatIn(t', denied, legacy) == Failure(ErrNotExist)
      && StatIn(t', denied, BackupDir(home)) == Success(Dir)
      && (forall p :: p in t && !Within(p, legacy) && !Within(p, backup) ==> p in t' && t'[p] == t[p])
  {
    var home := UserHomeDir(vars).value;
    var (legacy, backup) := (LegacyFile(home), BackupFile(home));
    BackupPathsDiffer(home);
    var (made, t1) := MkdirAllIn(t, denied, BackupDir(home));
    assert made.Pass? && RenameIn(t1, denied, legacy, backup) == (Pass, t');
    MoveInto(t, denied, legacy, BackupDir(home), backup, t');
    assert legacy in t && Within(legacy, legacy) && Rerooted(legacy, legacy, backup) == backup;
  }

  /**
    Making `dir` and then renaming `src` to a longer `dst` moves the subtree at `src` below
    `dst` and keeps the rest; `dir`, shorter than both, is a directory stat sees afterwards,
    and `src` is gone.
   */
  lemma MoveInto(t: Tree, denied: set<string>, src: string, dir: string, dst: string, t': Tree)
    requires StatIn(t, denied, src).Success? && |dir| < |src| < |dst|
    requires MkdirAllIn(t, denied, dir).0.Pass?
    requires RenameIn(MkdirAllIn(t, denied, dir).1, denied, src, dst) == (Pass, t')
    ensures forall p :: p in t && Within(p, src) ==> Rerooted(p, src, dst) in t' && t'[Rerooted(p, src, dst)] == t[p]
    ensures forall p :: p in t' ==> !Within(p, src)
    ensures StatIn(t', denied, src) == Failure(ErrNotExist)
    ensures StatIn(t', denied, dir) == Success(Dir)
    ensures forall p :: p in t && !Within(p, src) && !Within(p, dst) ==> p in t' && t'[p] == t[p]
  {
    var t1 := MkdirAllIn(t, denied, dir).1;
    MkdirAllGrows(t, denied, dir);
    LookupGrows(t, t1, src);
    LookupShorter(t1, t', src);
    LookupShorter(t1, t', dir);
  }

  /** A failed backup loses nothing: the legacy file is where it was, and at most directories were made. */
  lemma BackupFailureKeeps(vars: map<string, string>, t: Tree, denied: set<string>)
    requires BackupSpec(vars, t, denied).0.Fail?
    ensures Grows(t, BackupSpec(vars, t, denied).1)
  {
    if UserHomeDir(vars).Success? {
      var home := UserHomeDir(vars).value;
      MoveFailureKeeps(t, denied, LegacyFile(home), BackupDir(home), BackupFile(home));
    }
  }

  /** When making `dir` or the rename fails, every entry is kept and at most directories were made. */
  lemma MoveFailureKeeps(t: Tree, denied: set<string>, src: string, dir: string, dst: string)
    ensures var (made, t1) := MkdirAllIn(t, denied, dir);
      Grows(t, t1) && (made.Pass? && RenameIn(t1, denied, src, dst).0.Fail? ==> RenameIn(t1, denied, src, dst).1 == t1)
  {
    MkdirAllGrows(t, denied, dir);
  }

  /** Backing up again after a successful backup finds no legacy file and changes nothing. */
  lemma BackupAgain(vars: map<string, string>, t: Tree, denied: set<string>, t': Tree)
    requires BackupSpec(vars, t, denied) == (Pass, t')
    ensures BackupSpec(vars, t', denied) == (Pass, t')
  {
    var home := UserHomeDir(vars).value;
    if StatIn(t, denied, LegacyFile(home)).Success? {
      BackupMoves(vars, t, denied, t');
    }
  }

  /** backupUserDirsFile. */
  method BackupUserDirsFile(env: Environment, fs: FileSystem) returns (err: Outcome<OsError>)
    modifies fs
    ensures (err, fs.entries) == BackupSpec(env.vars, old(fs.entries), fs.denied)
  {
    var homeDir := UserHomeDir(env.vars);
    if homeDir.Failure? {
      return Fail(homeDir.error);
    }
    var userDirsFile := PathJoin(PathJoin(homeDir.value, ".config"), "user-dirs.dirs");
    var info := fs.Stat(userDirsFile);
    if info.Failure? && info.error == ErrNotExist {
      return Pass;
    } else if info.Failure? {
      return Fail(info.error);
    }
    var backupFile := PathJoin(PathJoin(PathJoin(homeDir.value, ".config"), "xdg"), "user-dirs.dirs-backup");
    var made := fs.MkdirAll(BackupDir(homeDir.value));
    if made.Fail? {
      return Fail(made.error);
    }
    err := fs.Rename(userDirsFile, backupFile);
  }

  // ---------------------------------------------------------------- Prepare

  /** Prepare: the unset loop, which cannot fail, then the backup under the new environment. */
  method Prepare(env: Environment, fs: FileSystem) returns (err: Outcome<OsError>)
    modifies env, fs
    ensures env.vars == Unsets(old(env.vars), XdgEnvVars).0
    ensures (err, fs.entries) == BackupSpec(old(env.vars), old(fs.entries), fs.denied)
  {
    var unsetErr, unsetVars := UnsetXDGEnvVars(env);
    if unsetErr.Fail? {
      return unsetErr;
    }
    HomeSurvivesUnset(old(env.vars));
    err := BackupUserDirsFile(env, fs);
  }
}
