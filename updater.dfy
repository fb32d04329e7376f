/**
  The reconciler (internal/updater/updater.go): Update checks or creates the directory of every
  non-empty entry, then has XDGDirs write generated.dirs; ExportEnv renders `export` lines for
  a shell, the merged values first and the defaults for the keys they lack after them.

  `os.ExpandEnv` followed by `filepath.Clean` is the parameter `resolve`: the model says nothing
  about how a value becomes a path, only what happens to the path.
 */
module Updater {
  import opened Wrappers
  import opened Text
  import opened Collections
  import opened Os
  import opened XdgDirs

  /** The errors of ensureDirectories, each naming the entry's key. */
  datatype DirError =
    | InvalidPath(key: string, dir: string)        // invalid directory path for <key>: <dir>
    | CreateFailed(key: string, cause: OsError)    // failed to create directory for <key>
    | CheckFailed(key: string, cause: OsError)     // failed to check directory for <key>
    | NotADirectory(key: string, dir: string)      // path exists but is not a directory for <key>

  /** The errors of Update. */
  datatype UpdateError =
    | EnsureFailed(dirError: DirError)             // failed to ensure directories
    | WriteFailed(path: string, xdgError: XdgError) // failed to write to <path>

  // ---------------------------------------------------------------- ensureDirectories

  /** One iteration of the ensureDirectories loop, for the entry `key` with value `value`. */
  function EnsureOne(t: Tree, denied: set<string>, resolve: string -> string, key: string, value: string)
    : (Outcome<DirError>, Tree)
  {
    if value == "" then (Pass, t)
    else
      var dir := resolve(value);
      if !IsAbs(dir) then (Fail(InvalidPath(key, dir)), t)
      else
        match StatIn(t, denied, dir)
        case Failure(ErrNotExist) =>
          var (made, t1) := MkdirAllIn(t, denied, dir);
          if made.Fail? then (Fail(CreateFailed(key, made.error)), t1) else (Pass, t1)
        case Failure(e) => (Fail(CheckFailed(key, e)), t)
        case Success(Dir) => (Pass, t)
        case Success(File(_)) => (Fail(NotADirectory(key, dir)), t)
  }

  /** The ensureDirectories loop visiting the keys in the order `order`, stopping at the first error. */
  function EnsureAll(t: Tree, denied: set<string>, resolve: string -> string, userDirs: map<string, string>,
                     order: seq<string>): (Outcome<DirError>, Tree)
    requires forall i :: 0 <= i < |order| ==> order[i] in userDirs
    decreases |order|
  {
    if order == [] then (Pass, t)
    else
      var n := |order| - 1;
      var (o, t1) := EnsureAll(t, denied, resolve, userDirs, order[..n]);
      if o.Fail? then (o, t1)
      else EnsureOne(t1, denied, resolve, order[n], userDirs[order[n]])
  }

  /** ensureDirectories: nothing at all unless `createDirs` is set. */
  function EnsureSpec(t: Tree, denied: set<string>, resolve: string -> string, userDirs: map<string, string>,
                      createDirs: bool, order: seq<string>): (Outcome<DirError>, Tree)
    requires forall i :: 0 <= i < |order| ==> order[i] in userDirs
  {
    if !createDirs then (Pass, t) else EnsureAll(t, denied, resolve, userDirs, order)
  }

  /** What one iteration does to the tree: it only adds directories. */
  lemma EnsureOneGrows(t: Tree, denied: set<string>, resolve: string -> string, key: string, value: string)
    ensures Grows(t, EnsureOne(t, denied, resolve, key, value).1)
  {
    if value != "" && IsAbs(resolve(value)) {
      MkdirAllGrows(t, denied, resolve(value));
    }
  }

  /** An iteration that succeeds for a non-empty value leaves its resolved path a directory stat sees. */
  lemma EnsureOnePass(t: Tree, denied: set<string>, resolve: string -> string, key: string, value: string)
    requires value != "" && EnsureOne(t, denied, resolve, key, value).0.Pass?
    ensures var dir := resolve(value);
      IsAbs(dir) && StatIn(EnsureOne(t, denied, resolve, key, value).1, denied, dir) == Success(Dir)
  {
  }

  /** An iteration whose path stat already sees as a directory changes nothing, and so does an empty value. */
  lemma EnsureOneDone(t: Tree, denied: set<string>, resolve: string -> string, key: string, value: string)
    requires value != "" ==> IsAbs(resolve(value)) && StatIn(t, denied, resolve(value)) == Success(Dir)
    ensures EnsureOne(t, denied, resolve, key, value) == (Pass, t)
  {
  }

  /** A failing iteration names its own key and had a non-empty value. */
  lemma EnsureOneFail(t: Tree, denied: set<string>, resolve: string -> string, key: string, value: string)
    requires EnsureOne(t, denied, resolve, key, value).0.Fail?
    ensures value != "" && EnsureOne(t, denied, resolve, key, value).0.error.key == key
  {
  }

  /**
    A path below a regular file cannot be stat'ed (ENOTDIR): the iteration fails to check it
    and changes nothing.
   */
  lemma EnsureOneBelowFile(t: Tree, denied: set<string>, resolve: string -> string, key: string, value: string)
    requires value != "" && IsAbs(resolve(value)) && resolve(value) !in denied
    requires var parent := MkdirParent(resolve(value));
      parent.Some? && StatIn(t, denied, parent.value).Success? && StatIn(t, denied, parent.value).value.File?
    ensures EnsureOne(t, denied, resolve, key, value) == (Fail(CheckFailed(key, ErrNotDir)), t)
  {
    StatBelowFile(t, denied, resolve(value));
  }

  /** A path that is not absolute is refused before it is stat'ed or created: the tree is untouched. */
  lemma EnsureOneInvalid(t: Tree, denied: set<string>, resolve: string -> string, key: string, value: string)
    requires value != "" && !IsAbs(resolve(value))
    ensures EnsureOne(t, denied, resolve, key, value) == (Fail(InvalidPath(key, resolve(value))), t)
  {
  }

  /** A path that stat sees as a regular file is not a directory: the iteration fails naming the key and changes nothing. */
  lemma EnsureOneNotDir(t: Tree, denied: set<string>, resolve: string -> string, key: string, value: string)
    requires value != "" && IsAbs(resolve(value)) && StatIn(t, denied, resolve(value)).Success?
    requires StatIn(t, denied, resolve(value)).value.File?
    ensures EnsureOne(t, denied, resolve, key, value) == (Fail(NotADirectory(key, resolve(value))), t)
  {
  }

  /** The whole loop only adds directories, whether it succeeds or stops at an error. */
  lemma {:induction false} EnsureAllGrows(t: Tree, denied: set<string>, resolve: string -> string,
                                          userDirs: map<string, string>, order: seq<string>)
    requires forall i :: 0 <= i < |order| ==> order[i] in userDirs
    decreases |order|
    ensures Grows(t, EnsureAll(t, denied, resolve, userDirs, order).1)
  {
    if order != [] {
      var n := |order| - 1;
      EnsureAllGrows(t, denied, resolve, userDirs, order[..n]);
      var (o, t1) := EnsureAll(t, denied, resolve, userDirs, order[..n]);
      if o.Pass? {
        EnsureOneGrows(t1, denied, resolve, order[n], userDirs[order[n]]);
      }
    }
  }

  /** After a successful loop, the resolved path of every visited non-empty entry is a directory stat sees. */
  lemma {:induction false} EnsuredDirs(t: Tree, denied: set<string>, resolve: string -> string,
                                       userDirs: map<string, string>, order: seq<string>)
    requires forall i :: 0 <= i < |order| ==> order[i] in userDirs
    requires EnsureAll(t, denied, resolve, userDirs, order).0.Pass?
    decreases |order|
    ensures forall i :: 0 <= i < |order| && userDirs[order[i]] != "" ==>
      var dir := resolve(userDirs[order[i]]);
      IsAbs(dir) && StatIn(EnsureAll(t, denied, resolve, userDirs, order).1, denied, dir) == Success(Dir)
  {
    if order != [] {
      var n := |order| - 1;
      var init := order[..n];
      var key := order[n];
      assert EnsureAll(t, denied, resolve, userDirs, init).0.Pass?;
      EnsuredDirs(t, denied, resolve, userDirs, init);
      var t1 := EnsureAll(t, denied, resolve, userDirs, init).1;
      assert order == init + [key];
      EnsureAllSnoc(t, denied, resolve, userDirs, init, key);
      var t2 := EnsureOne(t1, denied, resolve, key, userDirs[key]).1;
      EnsureOneGrows(t1, denied, resolve, key, userDirs[key]);
      if userDirs[key] != "" {
        EnsureOnePass(t1, denied, resolve, key, userDirs[key]);
      }
      forall i | 0 <= i < n && userDirs[order[i]] != ""
        ensures StatIn(t2, denied, resolve(userDirs[order[i]])) == Success(Dir)
      {
        assert order[i] == init[i];
        StatGrows(t1, t2, denied, resolve(userDirs[order[i]]));
      }
    }
  }

  /** Once the loop has failed, visiting more keys changes neither the error nor the tree. */
  lemma {:induction false} EnsureAllFailStays(t: Tree, denied: set<string>, resolve: string -> string,
                                              userDirs: map<string, string>, a: seq<string>, b: seq<string>)
    requires forall i :: 0 <= i < |a| ==> a[i] in userDirs
    requires forall i :: 0 <= i < |b| ==> b[i] in userDirs
    requires EnsureAll(t, denied, resolve, userDirs, a).0.Fail?
    decreases |b|
    ensures EnsureAll(t, denied, resolve, userDirs, a + b) == EnsureAll(t, denied, resolve, userDirs, a)
  {
    if b != [] {
      var n := |b| - 1;
      EnsureAllFailStays(t, denied, resolve, userDirs, a, b[..n]);
      assert a + b == (a + b[..n]) + [b[n]];
      EnsureAllFailSnoc(t, denied, resolve, userDirs, a + b[..n], b[n]);
    } else {
      assert a + b == a;
    }
  }

  /** Once the loop has failed, one more key changes nothing. */
  lemma EnsureAllFailSnoc(t: Tree, denied: set<string>, resolve: string -> string,
                          userDirs: map<string, string>, order: seq<string>, key: string)
    requires forall i :: 0 <= i < |order| ==> order[i] in userDirs
    requires key in userDirs && EnsureAll(t, denied, resolve, userDirs, order).0.Fail?
    ensures forall i :: 0 <= i < |order + [key]| ==> (order + [key])[i] in userDirs
    ensures EnsureAll(t, denied, resolve, userDirs, order + [key]) == EnsureAll(t, denied, resolve, userDirs, order)
  {
    assert (order + [key])[..|order|] == order;
  }

  /** A failure of the loop names a visited key whose value was not empty. */
  lemma {:induction false} EnsureAllFailNamesKey(t: Tree, denied: set<string>, resolve: string -> string,
                                                 userDirs: map<string, string>, order: seq<string>)
    requires forall i :: 0 <= i < |order| ==> order[i] in userDirs
    requires EnsureAll(t, denied, resolve, userDirs, order).0.Fail?
    decreases |order|
    ensures var key := EnsureAll(t, denied, resolve, userDirs, order).0.error.key;
      key in order && userDirs[key] != ""
  {
    var n := |order| - 1;
    var (o, t1) := EnsureAll(t, denied, resolve, userDirs, order[..n]);
    if o.Fail? {
      EnsureAllFailNamesKey(t, denied, resolve, userDirs, order[..n]);
      assert o.error.key in order[..n];
    } else {
      EnsureOneFail(t1, denied, resolve, order[n], userDirs[order[n]]);
    }
  }

  /** One entry whose non-empty value does not resolve to an absolute path makes the whole loop fail. */
  lemma {:induction false} EnsureAllRefusesRelative(t: Tree, denied: set<string>, resolve: string -> string,
                                                    userDirs: map<string, string>, order: seq<string>, k: nat)
    requires forall i :: 0 <= i < |order| ==> order[i] in userDirs
    requires k < |order| && userDirs[order[k]] != "" && !IsAbs(resolve(userDirs[order[k]]))
    decreases |order|
    ensures EnsureAll(t, denied, resolve, userDirs, order).0.Fail?
  {
    var n := |order| - 1;
    var o := EnsureAll(t, denied, resolve, userDirs, order[..n]).0;
    if k < n && o.Pass? {
      assert order[..n][k] == order[k];
      EnsureAllRefusesRelative(t, denied, resolve, userDirs, order[..n], k);
    }
  }

  /** One entry whose path stat sees as a regular file makes the whole loop fail, whatever the order. */
  lemma {:induction false} EnsureAllRefusesFile(t: Tree, denied: set<string>, resolve: string -> string,
                                                userDirs: map<string, string>, order: seq<string>, k: nat)
    requires forall i :: 0 <= i < |order| ==> order[i] in userDirs
    requires k < |order| && userDirs[order[k]] != "" && IsAbs(resolve(userDirs[order[k]]))
    requires StatIn(t, denied, resolve(userDirs[order[k]])).Success?
    requires StatIn(t, denied, resolve(userDirs[order[k]])).value.File?
    decreases |order|
    ensures EnsureAll(t, denied, resolve, userDirs, order).0.Fail?
  {
    var n := |order| - 1;
    var (o, t1) := EnsureAll(t, denied, resolve, userDirs, order[..n]);
    if k < n && o.Pass? {
      assert order[..n][k] == order[k];
      EnsureAllRefusesFile(t, denied, resolve, userDirs, order[..n], k);
    } else if k == n && o.Pass? {
      EnsureAllGrows(t, denied, resolve, userDirs, order[..n]);
      StatGrows(t, t1, denied, resolve(userDirs[order[k]]));
    }
  }

  /**
    Running the loop again after it succeeded, in any order of the same keys, finds every
    directory in place and changes nothing.
   */
  lemma {:induction false} EnsureAllAgain(t: Tree, denied: set<string>, resolve: string -> string,
                                          userDirs: map<string, string>, order: seq<string>, t': Tree,
                                          again: seq<string>)
    requires forall i :: 0 <= i < |order| ==> order[i] in userDirs
    requires EnsureAll(t, denied, resolve, userDirs, order) == (Pass, t')
    requires forall i :: 0 <= i < |again| ==> again[i] in order
    decreases |again|
    ensures forall i :: 0 <= i < |again| ==> again[i] in userDirs
    ensures EnsureAll(t', denied, resolve, userDirs, again) == (Pass, t')
  {
    if again != [] {
      var n := |again| - 1;
      EnsureAllAgain(t, denied, resolve, userDirs, order, t', again[..n]);
      EnsuredDirs(t, denied, resolve, userDirs, order);
      var key := again[n];
      var i :| 0 <= i < |order| && order[i] == key;
      EnsureOneDone(t', denied, resolve, key, userDirs[key]);
    }
  }

  /** Visiting one more key after a successful prefix is one more iteration. */
  lemma EnsureAllSnoc(t: Tree, denied: set<string>, resolve: string -> string, userDirs: map<string, string>,
                      visited: seq<string>, key: string)
    requires forall i :: 0 <= i < |visited| ==> visited[i] in userDirs
    requires key in userDirs && EnsureAll(t, denied, resolve, userDirs, visited).0.Pass?
    ensures EnsureAll(t, denied, resolve, userDirs, visited + [key])
      == EnsureOne(EnsureAll(t, denied, resolve, userDirs, visited).1, denied, resolve, key, userDirs[key])
  {
    assert (visited + [key])[..|visited|] == visited;
  }

  /** One iteration of the ensureDirectories loop extends the ordering of the visited keys. */
  lemma EnsureVisitStep(userDirs: map<string, string>, keys: set<string>, visited: seq<string>, key: string)
    requires keys <= userDirs.Keys && key in keys && IsOrdering(visited, userDirs.Keys - keys)
    ensures IsOrdering(visited + [key], userDirs.Keys - (keys - {key}))
  {
    OrderingSnoc(visited, userDirs.Keys - keys, key);
    assert userDirs.Keys - (keys - {key}) == userDirs.Keys - keys + {key};
  }

  /** Leaving the loop at an error is the same as visiting the keys not reached yet after it. */
  lemma EnsureStopsEarly(denied: set<string>, resolve: string -> string, userDirs: map<string, string>,
                         keys: set<string>, visited: seq<string>, t: Tree)
    requires keys <= userDirs.Keys && IsOrdering(visited, userDirs.Keys - keys)
    requires forall i :: 0 <= i < |visited| ==> visited[i] in userDirs
    requires EnsureAll(t, denied, resolve, userDirs, visited).0.Fail?
    ensures IsOrdering(visited + Enumerate(keys), userDirs.Keys)
    ensures forall i :: 0 <= i < |visited + Enumerate(keys)| ==> (visited + Enumerate(keys))[i] in userDirs
    ensures EnsureAll(t, denied, resolve, userDirs, visited + Enumerate(keys))
      == EnsureAll(t, denied, resolve, userDirs, visited)
  {
    var rest := Enumerate(keys);
    assert forall i :: 0 <= i < |rest| ==> rest[i] in keys;
    EnsureAllFailStays(t, denied, resolve, userDirs, visited, rest);
    OrderingConcat(visited, userDirs.Keys - keys, rest, keys);
    assert userDirs.Keys - keys + keys == userDirs.Keys;
  }

  // ---------------------------------------------------------------- Update

  /** The path Update names in its write error: built from $HOME, whatever XDG_CONFIG_HOME says. */
  function GeneratedDirsPath(vars: map<string, string>): string {
    PathJoin(PathJoin(PathJoin(Getenv(vars, "HOME"), ".config"), "xdg"), "generated.dirs")
  }

  /**
    Update: nothing in a dry run; otherwise ensureDirectories when `createDirs` is set, then
    WriteUserDirs, which writes the entries in the order `writeOrder`.
   */
  function UpdateSpec(vars: map<string, string>, t: Tree, denied: set<string>, resolve: string -> string,
                      userDirs: map<string, string>, createDirs: bool, dryRun: bool,
                      ensureOrder: seq<string>, writeOrder: seq<string>): (Outcome<UpdateError>, Tree)
    requires forall i :: 0 <= i < |ensureOrder| ==> ensureOrder[i] in userDirs
    requires forall i :: 0 <= i < |writeOrder| ==> writeOrder[i] in userDirs
  {
    if dryRun then (Pass, t)
    else
      var (ensured, t1) := if createDirs then EnsureSpec(t, denied, resolve, userDirs, createDirs, ensureOrder)
                           else (Pass, t);
      if ensured.Fail? then (Fail(EnsureFailed(ensured.error)), t1)
      else
        var (written, t2) := WriteSpec(vars, t1, denied, Render(userDirs, writeOrder));
        if written.Fail? then (Fail(WriteFailed(GeneratedDirsPath(vars), written.error)), t2)
        else (Pass, t2)
  }

  /** A dry run succeeds and changes nothing. */
  lemma UpdateDryRun(vars: map<string, string>, t: Tree, denied: set<string>, resolve: string -> string,
                     userDirs: map<string, string>, createDirs: bool, ensureOrder: seq<string>, writeOrder: seq<string>)
    requires forall i :: 0 <= i < |ensureOrder| ==> ensureOrder[i] in userDirs
    requires forall i :: 0 <= i < |writeOrder| ==> writeOrder[i] in userDirs
    ensures UpdateSpec(vars, t, denied, resolve, userDirs, createDirs, true, ensureOrder, writeOrder) == (Pass, t)
  {
  }

  /** Without `createDirs` no path of an entry is looked at: Update is exactly the write. */
  lemma UpdateWithoutCreate(vars: map<string, string>, t: Tree, denied: set<string>, resolve: string -> string,
                            userDirs: map<string, string>, ensureOrder: seq<string>, writeOrder: seq<string>)
    requires forall i :: 0 <= i < |ensureOrder| ==> ensureOrder[i] in userDirs
    requires forall i :: 0 <= i < |writeOrder| ==> writeOrder[i] in userDirs
    ensures var (written, t') := WriteSpec(vars, t, denied, Render(userDirs, writeOrder));
      UpdateSpec(vars, t, denied, resolve, userDirs, false, false, ensureOrder, writeOrder)
      == (if written.Fail? then Fail(WriteFailed(GeneratedDirsPath(vars), written.error)) else Pass, t')
  {
  }

  /**
    When ensureDirectories fails, Update reports it and writes nothing: the tree is the one the
    directory loop left, which only adds directories to the one it started from.
   */
  lemma UpdateEnsureFailure(vars: map<string, string>, t: Tree, denied: set<string>, resolve: string -> string,
                            userDirs: map<string, string>, ensureOrder: seq<string>, writeOrder: seq<string>)
    requires forall i :: 0 <= i < |ensureOrder| ==> ensureOrder[i] in userDirs
    requires forall i :: 0 <= i < |writeOrder| ==> writeOrder[i] in userDirs
    requires EnsureAll(t, denied, resolve, userDirs, ensureOrder).0.Fail?
    ensures var (ensured, t1) := EnsureAll(t, denied, resolve, userDirs, ensureOrder);
      && UpdateSpec(vars, t, denied, resolve, userDirs, true, false, ensureOrder, writeOrder)
         == (Fail(EnsureFailed(ensured.error)), t1)
      && Grows(t, t1)
  {
    EnsureAllGrows(t, denied, resolve, userDirs, ensureOrder);
  }

  /**
    With createDirs, an entry whose path is a regular file makes Update fail in ensureDirectories,
    whatever the order: generated.dirs is not written, and only directories were added.
   */
  lemma UpdateRefusesFile(vars: map<string, string>, t: Tree, denied: set<string>, resolve: string -> string,
                          userDirs: map<string, string>, ensureOrder: seq<string>, writeOrder: seq<string>, k: nat)
    requires forall i :: 0 <= i < |ensureOrder| ==> ensureOrder[i] in userDirs
    requires forall i :: 0 <= i < |writeOrder| ==> writeOrder[i] in userDirs
    requires k < |ensureOrder| && userDirs[ensureOrder[k]] != "" && IsAbs(resolve(userDirs[ensureOrder[k]]))
    requires StatIn(t, denied, resolve(userDirs[ensureOrder[k]])).Success?
    requires StatIn(t, denied, resolve(userDirs[ensureOrder[k]])).value.File?
    ensures var (o, t') := UpdateSpec(vars, t, denied, resolve, userDirs, true, false, ensureOrder, writeOrder);
      o.Fail? && o.error.EnsureFailed? && Grows(t, t')
  {
    EnsureAllRefusesFile(t, denied, resolve, userDirs, ensureOrder, k);
    UpdateEnsureFailure(vars, t, denied, resolve, userDirs, ensureOrder, writeOrder);
  }

  /** A successful write keeps every directory stat sees in the tree it started from. */
  lemma WriteKeepsDirs(vars: map<string, string>, t: Tree, denied: set<string>, content: string, t': Tree)
    requires WriteSpec(vars, t, denied, content) == (Pass, t')
    ensures forall p :: StatIn(t, denied, p) == Success(Dir) ==> StatIn(t', denied, p) == Success(Dir)
  {
    var dir := XdgConfigDir(vars).value;
    var t1 := MkdirAllIn(t, denied, dir).1;
    var path := PathJoin(dir, "generated.dirs");
    MkdirAllGrows(t, denied, dir);
    WriteInPass(t, denied, dir, content);
    forall p | StatIn(t, denied, p) == Success(Dir)
      ensures StatIn(t', denied, p) == Success(Dir)
    {
      StatGrows(t, t1, denied, p);
      StatUpdate(t1, denied, path, File(content), p);
    }
  }

  /** A successful Update with `createDirs` leaves the path of every non-empty entry a directory stat sees. */
  lemma UpdateMakesDirs(vars: map<string, string>, t: Tree, denied: set<string>, resolve: string -> string,
                        userDirs: map<string, string>, ensureOrder: seq<string>, writeOrder: seq<string>, t': Tree)
    requires IsOrdering(ensureOrder, userDirs.Keys)
    requires forall i :: 0 <= i < |writeOrder| ==> writeOrder[i] in userDirs
    requires UpdateSpec(vars, t, denied, resolve, userDirs, true, false, ensureOrder, writeOrder) == (Pass, t')
    ensures forall k :: k in userDirs && userDirs[k] != "" ==> StatIn(t', denied, resolve(userDirs[k])) == Success(Dir)
  {
    var t1 := EnsureAll(t, denied, resolve, userDirs, ensureOrder).1;
    EnsuredDirs(t, denied, resolve, userDirs, ensureOrder);
    WriteKeepsDirs(vars, t1, denied, Render(userDirs, writeOrder), t');
    forall k | k in userDirs && userDirs[k] != ""
      ensures StatIn(t', denied, resolve(userDirs[k])) == Success(Dir)
    {
      var i :| 0 <= i < |ensureOrder| && ensureOrder[i] == k;
    }
  }

  /**
    After a successful Update, ReadUserDirs returns the defaults overlaid with the entries, unless
    generated.dirs cannot be opened for reading.
   */
  lemma UpdateEstablishes(vars: map<string, string>, t: Tree, denied: set<string>, unreadable: set<string>,
                          resolve: string -> string, userDirs: map<string, string>, createDirs: bool,
                          ensureOrder: seq<string>, writeOrder: seq<string>, defaults: map<string, string>, t': Tree)
    requires forall i :: 0 <= i < |ensureOrder| ==> ensureOrder[i] in userDirs
    requires IsOrdering(writeOrder, userDirs.Keys)
    requires forall k :: k in userDirs ==> WellFormedKey(k) && WellFormedValue(userDirs[k])
    requires UpdateSpec(vars, t, denied, resolve, userDirs, createDirs, false, ensureOrder, writeOrder) == (Pass, t')
    ensures UserDirsPath(vars).Success?
    ensures ReadMerged(vars, t', denied, unreadable, defaults) ==
      if UserDirsPath(vars).value in unreadable then Failure(ReadFailed(ErrPermission))
      else Success(Merge(defaults + userDirs, defaults))
  {
    var t1 := EnsureSpec(t, denied, resolve, userDirs, createDirs, ensureOrder).1;
    WriteThenRead(vars, t1, denied, unreadable, defaults, userDirs, writeOrder, t');
  }

  // ---------------------------------------------------------------- ExportEnv

  /** One line of ExportEnv, `export KEY="value"`. */
  function ExportLine(key: string, value: string): string {
    "export " + key + "=\"" + value + "\""
  }

  /** The `XDG_`-prefixed members of `keys`. */
  function XdgKeys(keys: set<string>): set<string> {
    set k | k in keys && HasPrefix(k, "XDG_")
  }

  /** The value ExportEnv exports for `key`: the merged one when there is one, else the default. */
  function ExportValue(userDirs: map<string, string>, dirs: map<string, string>, key: string): string {
    if key in userDirs then userDirs[key] else if key in dirs then dirs[key] else ""
  }

  /** The export lines for the keys in `keys`, in that order. */
  function ExportLines(userDirs: map<string, string>, dirs: map<string, string>, keys: seq<string>)
    : (lines: seq<string>)
    ensures |lines| == |keys|
    ensures forall i :: 0 <= i < |keys| ==> lines[i] == ExportLine(keys[i], ExportValue(userDirs, dirs, keys[i]))
  {
    if keys == [] then []
    else
      var n := |keys| - 1;
      ExportLines(userDirs, dirs, keys[..n]) + [ExportLine(keys[n], ExportValue(userDirs, dirs, keys[n]))]
  }

  /** One more key adds its line at the end. */
  lemma ExportLinesSnoc(userDirs: map<string, string>, dirs: map<string, string>, keys: seq<string>, key: string)
    ensures ExportLines(userDirs, dirs, keys + [key])
      == ExportLines(userDirs, dirs, keys) + [ExportLine(key, ExportValue(userDirs, dirs, key))]
  {
    assert (keys + [key])[..|keys|] == keys;
  }

  /**
    The two loops of ExportEnv together visit every `XDG_` key of either map exactly once: the
    first the merged keys, the second the default keys the merged map lacks.
   */
  lemma ExportKeysOnce(userDirs: map<string, string>, dirs: map<string, string>,
                       first: seq<string>, second: seq<string>)
    requires IsOrdering(first, XdgKeys(userDirs.Keys))
    requires IsOrdering(second, XdgKeys(dirs.Keys) - userDirs.Keys)
    ensures IsOrdering(first + second, XdgKeys(userDirs.Keys + dirs.Keys))
  {
    OrderingConcat(first, XdgKeys(userDirs.Keys), second, XdgKeys(dirs.Keys) - userDirs.Keys);
    assert XdgKeys(userDirs.Keys) + (XdgKeys(dirs.Keys) - userDirs.Keys) == XdgKeys(userDirs.Keys + dirs.Keys);
  }

  /** No export line breaks when neither keys nor values hold a newline. */
  lemma ExportLinesHaveNoNewline(userDirs: map<string, string>, dirs: map<string, string>, keys: seq<string>)
    requires forall i :: 0 <= i < |keys| ==> '\n' !in keys[i] && '\n' !in ExportValue(userDirs, dirs, keys[i])
    ensures forall i :: 0 <= i < |ExportLines(userDirs, dirs, keys)| ==> '\n' !in ExportLines(userDirs, dirs, keys)[i]
  {
    var lines := ExportLines(userDirs, dirs, keys);
    forall i | 0 <= i < |lines|
      ensures '\n' !in lines[i]
    {
      var key, value := keys[i], ExportValue(userDirs, dirs, keys[i]);
      assert lines[i] == "export " + key + "=\"" + value + "\"";
    }
  }

  /**
    What ExportEnv prints splits at its newlines back into exactly one line per key, and it is
    the empty string when no key qualifies.
   */
  lemma ExportSplits(userDirs: map<string, string>, dirs: map<string, string>, keys: seq<string>)
    requires forall i :: 0 <= i < |keys| ==> '\n' !in keys[i] && '\n' !in ExportValue(userDirs, dirs, keys[i])
    ensures keys == [] ==> Join(ExportLines(userDirs, dirs, keys), '\n') == ""
    ensures keys != [] ==> Split(Join(ExportLines(userDirs, dirs, keys), '\n'), '\n') == ExportLines(userDirs, dirs, keys)
  {
    if keys != [] {
      ExportLinesHaveNoNewline(userDirs, dirs, keys);
      SplitOfJoin(ExportLines(userDirs, dirs, keys), '\n');
    }
  }

  /** The first loop of ExportEnv visiting one more key of the merged map. */
  lemma FirstLoopStep(userDirs: map<string, string>, keys: set<string>, key: string)
    requires key in keys && keys <= userDirs.Keys
    ensures XdgKeys(userDirs.Keys - (keys - {key}))
      == XdgKeys(userDirs.Keys - keys) + (if HasPrefix(key, "XDG_") then {key} else {})
  {
  }

  /** The second loop of ExportEnv visiting one more key of the defaults. */
  lemma SecondLoopStep(userDirs: map<string, string>, dirs: map<string, string>, keys: set<string>, key: string)
    requires key in keys && keys <= dirs.Keys
    ensures XdgKeys(dirs.Keys - (keys - {key})) - userDirs.Keys
      == (XdgKeys(dirs.Keys - keys) - userDirs.Keys)
         + (if HasPrefix(key, "XDG_") && key !in userDirs then {key} else {})
    ensures XdgKeys(dirs.Keys - (keys - {key})) == XdgKeys(dirs.Keys - keys) + (if HasPrefix(key, "XDG_") then {key} else {})
  {
  }

  /** The state of the first loop of ExportEnv once the merged keys outside `keys` are visited. */
  ghost predicate MergedVisited(userDirs: map<string, string>, keys: set<string>, seen: map<string, bool>,
                                first: seq<string>)
  {
    && keys <= userDirs.Keys
    && IsOrdering(first, XdgKeys(userDirs.Keys - keys))
    && seen.Keys == XdgKeys(userDirs.Keys - keys)
    && (forall k :: k in seen ==> seen[k])
  }

  /** The first loop starts with nothing visited. */
  lemma MergedStart(userDirs: map<string, string>)
    ensures MergedVisited(userDirs, userDirs.Keys, map[], [])
  {
    assert userDirs.Keys - userDirs.Keys == {};
  }

  /** The first loop ends with every merged key visited. */
  lemma MergedDone(userDirs: map<string, string>, seen: map<string, bool>, first: seq<string>)
    requires MergedVisited(userDirs, {}, seen, first)
    ensures IsOrdering(first, XdgKeys(userDirs.Keys))
    ensures seen.Keys == XdgKeys(userDirs.Keys) && forall k :: k in seen ==> seen[k]
  {
    assert userDirs.Keys - {} == userDirs.Keys;
  }

  /** One iteration of the first loop: every `XDG_` key of the merged map is exported and marked as seen. */
  lemma MergedVisitStep(userDirs: map<string, string>, keys: set<string>, seen: map<string, bool>,
                        first: seq<string>, key: string)
    requires MergedVisited(userDirs, keys, seen, first) && key in keys
    ensures var exported := HasPrefix(key, "XDG_");
      MergedVisited(userDirs, keys - {key},
                    if exported then seen[key := true] else seen,
                    if exported then first + [key] else first)
  {
    FirstLoopStep(userDirs, keys, key);
    if HasPrefix(key, "XDG_") {
      OrderingSnoc(first, XdgKeys(userDirs.Keys - keys), key);
    }
  }

  /** The state of the second loop of ExportEnv once the default keys outside `keys` are visited. */
  ghost predicate DefaultsVisited(userDirs: map<string, string>, dirs: map<string, string>, keys: set<string>,
                                  seen: map<string, bool>, second: seq<string>)
  {
    && keys <= dirs.Keys
    && IsOrdering(second, XdgKeys(dirs.Keys - keys) - userDirs.Keys)
    && seen.Keys == XdgKeys(userDirs.Keys) + XdgKeys(dirs.Keys - keys)
    && (forall k :: k in seen ==> seen[k])
  }

  /** The second loop starts with nothing of the defaults visited and the merged `XDG_` keys seen. */
  lemma DefaultsStart(userDirs: map<string, string>, dirs: map<string, string>, seen: map<string, bool>)
    requires seen.Keys == XdgKeys(userDirs.Keys) && forall k :: k in seen ==> seen[k]
    ensures DefaultsVisited(userDirs, dirs, dirs.Keys, seen, [])
  {
    assert dirs.Keys - dirs.Keys == {};
  }

  /** The second loop ends with every default key visited. */
  lemma DefaultsDone(userDirs: map<string, string>, dirs: map<string, string>, seen: map<string, bool>,
                     second: seq<string>)
    requires DefaultsVisited(userDirs, dirs, {}, seen, second)
    ensures IsOrdering(second, XdgKeys(dirs.Keys) - userDirs.Keys)
  {
    assert dirs.Keys - {} == dirs.Keys;
  }

  /** One iteration of the second loop: a key is exported when it is an unseen `XDG_` key, which is one the merged map lacks. */
  lemma DefaultsVisitStep(userDirs: map<string, string>, dirs: map<string, string>, keys: set<string>,
                          seen: map<string, bool>, second: seq<string>, key: string)
    requires DefaultsVisited(userDirs, dirs, keys, seen, second) && key in keys
    ensures var exported := HasPrefix(key, "XDG_") && !(key in seen && seen[key]);
      && (exported ==> key in dirs && key !in userDirs && ExportValue(userDirs, dirs, key) == dirs[key])
      && DefaultsVisited(userDirs, dirs, keys - {key},
                         if exported then seen[key := true] else seen,
                         if exported then second + [key] else second)
  {
    SecondLoopStep(userDirs, dirs, keys, key);
    var exported := HasPrefix(key, "XDG_") && !(key in seen && seen[key]);
    assert key !in XdgKeys(dirs.Keys - keys);
    if exported {
      OrderingSnoc(second, XdgKeys(dirs.Keys - keys) - userDirs.Keys, key);
    }
  }

  /** An exported default key adds its line after those of both loops so far. */
  lemma DefaultsExportStep(userDirs: map<string, string>, dirs: map<string, string>, keys: set<string>,
                           seen: map<string, bool>, first: seq<string>, second: seq<string>, key: string)
    requires DefaultsVisited(userDirs, dirs, keys, seen, second) && key in keys
    requires HasPrefix(key, "XDG_") && !(key in seen && seen[key])
    ensures ExportLines(userDirs, dirs, first + (second + [key]))
      == ExportLines(userDirs, dirs, first + second) + [ExportLine(key, dirs[key])]
  {
    DefaultsVisitStep(userDirs, dirs, keys, seen, second, key);
    ExportLinesSnoc(userDirs, dirs, first + second, key);
    SnocAfter(first, second, key);
  }

  // ---------------------------------------------------------------- the Updater object

  /** The Updater: it owns the XDGDirs that reads and writes generated.dirs. */
  class Updater {
    const xdgDirs: XDGDirs

    /** NewUpdater. */
    constructor (xdg: Platform)
      ensures fresh(xdgDirs) && xdgDirs.xdg == xdg && xdgDirs.dirs == GetDefaultXDGDirs(xdg)
    {
      xdgDirs := new XDGDirs(xdg);
    }

    /**
      Update: the directory loop visits the keys in the order `ensureOrder`, the write loop in
      the order `writeOrder`.
     */
    method Update(env: Environment, fs: FileSystem, resolve: string -> string,
                  userDirs: map<string, string>, createDirs: bool, dryRun: bool)
      returns (err: Outcome<UpdateError>, ghost ensureOrder: seq<string>, ghost writeOrder: seq<string>)
      modifies fs
      ensures IsOrdering(ensureOrder, userDirs.Keys) && IsOrdering(writeOrder, userDirs.Keys)
      ensures (err, fs.entries)
        == UpdateSpec(env.vars, old(fs.entries), fs.denied, resolve, userDirs, createDirs, dryRun, ensureOrder, writeOrder)
    {
      ensureOrder := Enumerate(userDirs.Keys);
      writeOrder := ensureOrder;
      if dryRun {
        return Pass, ensureOrder, writeOrder;
      }
      if createDirs {
        var ensured;
        ensured, ensureOrder := EnsureDirectories(fs, resolve, userDirs, createDirs);
        if ensured.Fail? {
          return Fail(EnsureFailed(ensured.error)), ensureOrder, writeOrder;
        }
      }
      var generatedDirsPath := PathJoin(PathJoin(PathJoin(Getenv(env.vars, "HOME"), ".config"), "xdg"), "generated.dirs");
      var written;
      written, writeOrder := xdgDirs.WriteUserDirs(env, fs, userDirs);
      if written.Fail? {
        return Fail(WriteFailed(generatedDirsPath, written.error)), ensureOrder, writeOrder;
      }
      return Pass, ensureOrder, writeOrder;
    }

    /** ensureDirectories: the map's keys visited in the order `order`, stopping at the first error. */
    method EnsureDirectories(fs: FileSystem, resolve: string -> string, userDirs: map<string, string>, createDirs: bool)
      returns (err: Outcome<DirError>, ghost order: seq<string>)
      modifies fs
      ensures IsOrdering(order, userDirs.Keys)
      ensures (err, fs.entries) == EnsureSpec(old(fs.entries), fs.denied, resolve, userDirs, createDirs, order)
    {
      order := Enumerate(userDirs.Keys);
      if !createDirs {
        return Pass, order;
      }
      err, order := EnsureEach(fs, resolve, userDirs);
    }

    /** The loop of ensureDirectories. */
    method EnsureEach(fs: FileSystem, resolve: string -> string, userDirs: map<string, string>)
      returns (err: Outcome<DirError>, ghost order: seq<string>)
      modifies fs
      ensures IsOrdering(order, userDirs.Keys)
      ensures (err, fs.entries) == EnsureAll(old(fs.entries), fs.denied, resolve, userDirs, order)
    {
      ghost var t0 := fs.entries;
      var keys := userDirs.Keys;
      ghost var visited: seq<string> := [];
      while keys != {}
        invariant keys <= userDirs.Keys
        invariant IsOrdering(visited, userDirs.Keys - keys)
        invariant forall i :: 0 <= i < |visited| ==> visited[i] in userDirs
        invariant EnsureAll(t0, fs.denied, resolve, userDirs, visited) == (Pass, fs.entries)
        decreases keys
      {
        var key :| key in keys;
        EnsureAllSnoc(t0, fs.denied, resolve, userDirs, visited, key);
        err := EnsureDirectory(fs, resolve, key, userDirs[key]);
        EnsureVisitStep(userDirs, keys, visited, key);
        visited := visited + [key];
        keys := keys - {key};
        if err.Fail? {
          EnsureStopsEarly(fs.denied, resolve, userDirs, keys, visited, t0);
          return err, visited + Enumerate(keys);
        }
      }
      assert userDirs.Keys - keys == userDirs.Keys;
      return Pass, visited;
    }

    /** The body of the ensureDirectories loop for one entry. */
    method EnsureDirectory(fs: FileSystem, resolve: string -> string, key: string, value: string)
      returns (err: Outcome<DirError>)
      modifies fs
      ensures (err, fs.entries) == EnsureOne(old(fs.entries), fs.denied, resolve, key, value)
    {
      if value == "" {
        return Pass;
      }
      var dir := resolve(value);
      if !IsAbs(dir) {
        return Fail(InvalidPath(key, dir));
      }
      var info := fs.Stat(dir);
      if info.Failure? && info.error == ErrNotExist {
        var made := fs.MkdirAll(dir);
        if made.Fail? {
          return Fail(CreateFailed(key, made.error));
        }
      } else if info.Failure? {
        return Fail(CheckFailed(key, info.error));
      } else if info.value != Dir {
        return Fail(NotADirectory(key, dir));
      }
      return Pass;
    }

    /** GetUserDirs. */
    method GetUserDirs(env: Environment, fs: FileSystem) returns (r: Result<map<string, string>, XdgError>)
      ensures r == ReadMerged(env.vars, fs.entries, fs.denied, fs.unreadable, GetDefaultXDGDirs(xdgDirs.xdg))
    {
      r := xdgDirs.ReadUserDirs(env, fs);
    }

    /**
      ExportEnv: the lines for the merged map's `XDG_` keys in the order `first`, then those
      for the default keys it lacks in the order `second`, joined by newlines.
     */
    method ExportEnv(userDirs: map<string, string>)
      returns (s: string, ghost first: seq<string>, ghost second: seq<string>)
      ensures IsOrdering(first, XdgKeys(userDirs.Keys))
      ensures IsOrdering(second, XdgKeys(xdgDirs.dirs.Keys) - userDirs.Keys)
      ensures s == Join(ExportLines(userDirs, xdgDirs.dirs, first + second), '\n')
    {
      var exports, seen;
      exports, seen, first := ExportMerged(userDirs, xdgDirs.dirs);
      exports, seen, second := ExportDefaults(userDirs, xdgDirs.dirs, exports, seen, first);
      s := Join(exports, '\n');
    }

    /** The first loop of ExportEnv: a line for every `XDG_` key of the merged map, each marked as seen. */
    method ExportMerged(userDirs: map<string, string>, dirs: map<string, string>)
      returns (exports: seq<string>, seen: map<string, bool>, ghost first: seq<string>)
      ensures IsOrdering(first, XdgKeys(userDirs.Keys))
      ensures seen.Keys == XdgKeys(userDirs.Keys) && forall k :: k in seen ==> seen[k]
      ensures exports == ExportLines(userDirs, dirs, first)
    {
      exports, seen, first := [], map[], [];
      var keys := userDirs.Keys;
      MergedStart(userDirs);
      while keys != {}
        invariant MergedVisited(userDirs, keys, seen, first)
        invariant exports == ExportLines(userDirs, dirs, first)
        decreases keys
      {
        var key :| key in keys;
        MergedVisitStep(userDirs, keys, seen, first, key);
        if HasPrefix(key, "XDG_") {
          ExportLinesSnoc(userDirs, dirs, first, key);
          exports := exports + [ExportLine(key, userDirs[key])];
          seen := seen[key := true];
          first := first + [key];
        }
        keys := keys - {key};
      }
      MergedDone(userDirs, seen, first);
    }

    /** The second loop of ExportEnv: a line for every `XDG_` default key not seen yet. */
    method ExportDefaults(userDirs: map<string, string>, dirs: map<string, string>,
                          exports0: seq<string>, seen0: map<string, bool>, ghost first: seq<string>)
      returns (exports: seq<string>, seen: map<string, bool>, ghost second: seq<string>)
      requires seen0.Keys == XdgKeys(userDirs.Keys) && forall k :: k in seen0 ==> seen0[k]
      requires exports0 == ExportLines(userDirs, dirs, first)
      ensures IsOrdering(second, XdgKeys(dirs.Keys) - userDirs.Keys)
      ensures exports == ExportLines(userDirs, dirs, first + second)
    {
      exports, seen, second := exports0, seen0, [];
      var keys := dirs.Keys;
      DefaultsStart(userDirs, dirs, seen0);
      assert first + second == first;
      while keys != {}
        invariant DefaultsVisited(userDirs, dirs, keys, seen, second)
        invariant exports == ExportLines(userDirs, dirs, first + second)
        decreases keys
      {
        var key :| key in keys;
        DefaultsVisitStep(userDirs, dirs, keys, seen, second, key);
        if HasPrefix(key, "XDG_") && !(key in seen && seen[key]) {
          DefaultsExportStep(userDirs, dirs, keys, seen, first, second, key);
          exports := exports + [ExportLine(key, dirs[key])];
          seen := seen[key := true];
          second := second + [key];
        }
        keys := keys - {key};
      }
      DefaultsDone(userDirs, dirs, seen, second);
    }
  }
}
