/**
  The operating-system state the core reads and changes: the process environment and the
  filesystem. The filesystem is a flat map from path strings to entries, plus the set of paths
  on which every system call fails (standing for permission errors on the path itself) and the
  set of paths that cannot be opened for reading. The directories above a path are walked as
  the kernel does: a missing one gives ENOENT, a regular file ENOTDIR.
 */
module Os {
  import opened Wrappers
  import opened Text

  /** The errors the modelled system calls return. */
  datatype OsError =
    | ErrNotExist    // ENOENT, the one error os.IsNotExist recognises
    | ErrPermission  // EACCES and every other failure on an inaccessible path
    | ErrNotDir      // ENOTDIR
    | ErrIsDir       // EISDIR
    | ErrExist       // EEXIST or ENOTEMPTY
    | ErrInvalid     // EINVAL
    | ErrNoHome      // os.UserHomeDir: $HOME is not defined

  // ---------------------------------------------------------------- environment

  /** os.Getenv: an unset variable reads as the empty string. */
  function Getenv(vars: map<string, string>, key: string): string {
    if key in vars then vars[key] else ""
  }

  /** os.UserHomeDir on Unix: the value of $HOME, an error when it is empty or unset. */
  function UserHomeDir(vars: map<string, string>): Result<string, OsError> {
    var home := Getenv(vars, "HOME");
    if home == "" then Failure(ErrNoHome) else Success(home)
  }

  /** The process environment, which os.Unsetenv changes in place. */
  class Environment {
    var vars: map<string, string>

    constructor (vars: map<string, string>)
      ensures this.vars == vars
    {
      this.vars := vars;
    }

    /** os.Unsetenv: the variable is removed, not set to the empty string. */
    method Unsetenv(key: string)
      modifies this
      ensures vars == old(vars) - {key}
    {
      vars := vars - {key};
    }
  }

  // ---------------------------------------------------------------- paths

  predicate IsSlash(c: char) {
    c == '/'
  }

  predicate NotSlash(c: char) {
    c != '/'
  }

  /** filepath.IsAbs on Unix. */
  predicate IsAbs(path: string) {
    HasPrefix(path, "/")
  }

  /** filepath.Join of two elements: empty elements are dropped and one separator goes between (filepath.Clean is not modelled). */
  function PathJoin(dir: string, name: string): string {
    if dir == "" then name
    else if name == "" then dir
    else if dir[|dir| - 1] == '/' then dir + name
    else dir + "/" + name
  }

  /**
    The directory os.MkdirAll makes sure of before it creates `path`: trailing separators are
    skipped, then the last element and its separator; nothing when only the root or nothing is left.
   */
  function MkdirParent(path: string): (parent: Option<string>)
    ensures parent.Some? ==> |parent.value| < |path|
  {
    var i := |TrimRightFunc(path, IsSlash)|;
    var j := |TrimRightFunc(path[..i], NotSlash)|;
    if j > 1 then Some(path[..j - 1]) else None
  }

  /** The parent os.MkdirAll sees in a joined path is the directory it was joined to. */
  lemma ParentOfJoin(dir: string, name: string)
    requires dir != "" && dir[|dir| - 1] != '/'
    requires name != "" && '/' !in name
    ensures MkdirParent(PathJoin(dir, name)) == Some(dir)
  {
    var p := PathJoin(dir, name);
    assert p == dir + "/" + name;
    assert p[|p| - 1] == name[|name| - 1];
    var i := |TrimRightFunc(p, IsSlash)|;
    assert i == |p|;
    assert p[..i] == p;
    var r := TrimRightFunc(p, NotSlash);
    assert p[|dir|] == '/';
    TrimRightFuncDrops(p, NotSlash);
    assert |r| >= |dir| + 1;
    assert forall k :: |dir| < k < |p| ==> p[k] == name[k - |dir| - 1];
    assert |r| <= |dir| + 1;
    assert p[..|dir|] == dir;
  }

  // ---------------------------------------------------------------- filesystem

  datatype Entry = Dir | File(content: string)

  type Tree = map<string, Entry>

  predicate IsDirIn(t: Tree, path: string) {
    path in t && t[path] == Dir
  }

  /** Every entry of `t` is still in `t'` unchanged, and whatever `t'` adds is a directory. */
  ghost predicate Grows(t: Tree, t': Tree) {
    && (forall p :: p in t ==> p in t' && t'[p] == t[p])
    && (forall p :: p in t' && p !in t ==> t'[p] == Dir)
  }

  /**
    The kernel's walk through the directories above `path` (the ones os.MkdirAll makes first),
    from the root down: None when each of them is a directory, otherwise ENOENT or ENOTDIR for
    the first one that is missing or is a regular file.
   */
  function Lookup(t: Tree, path: string): Option<OsError>
    decreases |path|
  {
    match MkdirParent(path)
    case None => None
    case Some(parent) =>
      if Lookup(t, parent).Some? then Lookup(t, parent)
      else if parent !in t then Some(ErrNotExist)
      else if t[parent].File? then Some(ErrNotDir)
      else None
  }

  /** The walk looks only at paths shorter than `path`: two trees that agree on those agree on it. */
  lemma {:induction false} LookupShorter(t: Tree, t': Tree, path: string)
    requires forall p :: |p| < |path| ==> (p in t <==> p in t') && (p in t ==> t'[p] == t[p])
    decreases |path|
    ensures Lookup(t', path) == Lookup(t, path)
  {
    match MkdirParent(path)
    case Some(parent) => LookupShorter(t, t', parent);
    case None =>
  }

  /** A walk that finds every directory still finds them once the tree has grown. */
  lemma {:induction false} LookupGrows(t: Tree, t': Tree, path: string)
    requires Grows(t, t') && Lookup(t, path).None?
    decreases |path|
    ensures Lookup(t', path).None?
  {
    match MkdirParent(path)
    case Some(parent) => LookupGrows(t, t', parent);
    case None =>
  }

  /** os.Stat: EACCES on a denied path, then the walk's error, then the entry or ENOENT. */
  function StatIn(t: Tree, denied: set<string>, path: string): Result<Entry, OsError> {
    if path in denied then Failure(ErrPermission)
    else if Lookup(t, path).Some? then Failure(Lookup(t, path).value)
    else if path in t then Success(t[path])
    else Failure(ErrNotExist)
  }

  /** Below a regular file that stat sees, stat fails with ENOTDIR: nothing can exist there. */
  lemma StatBelowFile(t: Tree, denied: set<string>, path: string)
    requires path !in denied && MkdirParent(path).Some?
    requires StatIn(t, denied, MkdirParent(path).value).Success? && StatIn(t, denied, MkdirParent(path).value).value.File?
    ensures StatIn(t, denied, path) == Failure(ErrNotDir)
  {
  }

  /** What stat finds in a tree it still finds once the tree has grown. */
  lemma StatGrows(t: Tree, t': Tree, denied: set<string>, path: string)
    requires Grows(t, t') && StatIn(t, denied, path).Success?
    ensures StatIn(t', denied, path) == StatIn(t, denied, path)
  {
    LookupGrows(t, t', path);
  }

  /** A walk that finds every directory still finds them after an entry that is not a directory is written. */
  lemma {:induction false} LookupUpdate(t: Tree, q: string, e: Entry, path: string)
    requires Lookup(t, path).None? && !IsDirIn(t, q)
    decreases |path|
    ensures Lookup(t[q := e], path).None?
  {
    match MkdirParent(path)
    case Some(parent) => LookupUpdate(t, q, e, parent);
    case None =>
  }

  /** A directory stat finds is still found after an entry that was not a directory is written. */
  lemma StatUpdate(t: Tree, denied: set<string>, q: string, e: Entry, path: string)
    requires StatIn(t, denied, path) == Success(Dir) && !IsDirIn(t, q)
    ensures StatIn(t[q := e], denied, path) == Success(Dir)
  {
    LookupUpdate(t, q, e, path);
  }

  /**
    os.ReadFile (ioutil.ReadFile): the path is looked up as os.Stat does; a path in `unreadable`
    (a mode without read permission) cannot be opened (EACCES), and a directory opens but cannot
    be read (EISDIR).
   */
  function ReadFileIn(t: Tree, denied: set<string>, unreadable: set<string>, path: string): (r: Result<string, OsError>)
    ensures r.Success? <==> StatIn(t, denied, path).Success? && StatIn(t, denied, path).value.File? && path !in unreadable
  {
    match StatIn(t, denied, path)
    case Failure(e) => Failure(e)
    case Success(entry) =>
      if path in unreadable then Failure(ErrPermission)
      else if entry == Dir then Failure(ErrIsDir)
      else Success(entry.content)
  }

  /**
    os.MkdirAll(path): nothing to do for an existing directory, ENOTDIR for an existing
    non-directory; otherwise the parent is made first and then `path` itself, where mkdir fails
    with EEXIST on an entry stat could not see. Directories made before a failure stay.
   */
  function MkdirAllIn(t: Tree, denied: set<string>, path: string): (r: (Outcome<OsError>, Tree))
    decreases |path|
    ensures r.0.Pass? ==> StatIn(r.1, denied, path) == Success(Dir)
    ensures StatIn(t, denied, path) == Success(Dir) ==> r == (Pass, t)
  {
    match StatIn(t, denied, path)
    case Success(Dir) => (Pass, t)
    case Success(File(_)) => (Fail(ErrNotDir), t)
    case Failure(_) =>
      var (o, t1) := match MkdirParent(path)
                     case Some(parent) => MkdirAllIn(t, denied, parent)
                     case None => (Pass, t);
      if o.Fail? then (o, t1)
      else if path in denied then (Fail(ErrPermission), t1)
      else if path in t1 && t1[path].File? then (Fail(ErrExist), t1)
      else
        LookupShorter(t1, t1[path := Dir], path);
        (Pass, t1[path := Dir])
  }

  /** os.MkdirAll only adds directories and leaves every existing entry as it was. */
  lemma {:induction false} MkdirAllGrows(t: Tree, denied: set<string>, path: string)
    decreases |path|
    ensures Grows(t, MkdirAllIn(t, denied, path).1)
  {
    if StatIn(t, denied, path).Failure? {
      match MkdirParent(path)
      case Some(parent) => MkdirAllGrows(t, denied, parent);
      case None =>
    }
  }

  /**
    os.OpenFile(path, O_WRONLY|O_CREATE|O_TRUNC, mode): the directories above `path` must be
    there; the file exists and is empty afterwards, and stat sees it.
   */
  function OpenTruncIn(t: Tree, denied: set<string>, path: string): (r: (Outcome<OsError>, Tree))
    ensures r.0.Fail? ==> r.1 == t
    ensures r.0.Pass? ==> r.1 == t[path := File("")] && StatIn(r.1, denied, path) == Success(File(""))
  {
    if path in denied then (Fail(ErrPermission), t)
    else if Lookup(t, path).Some? then (Fail(Lookup(t, path).value), t)
    else if IsDirIn(t, path) then (Fail(ErrIsDir), t)
    else
      LookupShorter(t, t[path := File("")], path);
      (Pass, t[path := File("")])
  }

  // ---------------------------------------------------------------- rename

  /** `p` is `root` or a path below it. */
  predicate Within(p: string, root: string) {
    p == root || HasPrefix(p, root + "/")
  }

  /** Where the entry at `p`, within `src`, is once `src` has been renamed to `dst`. */
  function Rerooted(p: string, src: string, dst: string): (q: string)
    requires Within(p, src)
    ensures Within(q, dst) && |q| - |dst| == |p| - |src|
  {
    assert p[..|src|] == src;
    var q := dst + p[|src|..];
    assert p == src || q[..|dst| + 1] == dst + "/";
    q
  }

  /** Where the entry now at `q`, within `dst`, was before `src` was renamed to `dst`. */
  function Unrooted(q: string, src: string, dst: string): (p: string)
    requires Within(q, dst)
    ensures Within(p, src)
  {
    assert q[..|dst|] == dst;
    var p := src + q[|dst|..];
    assert q == dst || p[..|src| + 1] == src + "/";
    p
  }

  /** Moving an entry from `src` to `dst` and back again gives the path it started at. */
  lemma UnrootRerooted(p: string, src: string, dst: string)
    requires Within(p, src)
    ensures Unrooted(Rerooted(p, src, dst), src, dst) == p
  {
    assert p == src + p[|src|..];
    assert p[|src|..] == Rerooted(p, src, dst)[|dst|..];
  }

  /** The subtree at `src`, at its new place below `dst`. */
  function Moved(t: Tree, src: string, dst: string): (m: Tree)
    ensures forall p :: p in t && Within(p, src) ==> Rerooted(p, src, dst) in m && m[Rerooted(p, src, dst)] == t[p]
    ensures forall q :: q in m ==> Within(q, dst)
  {
    var keys := set p | p in t && Within(p, src) :: Rerooted(p, src, dst);
    assert forall q :: q in keys ==> Within(q, dst) && Unrooted(q, src, dst) in t by {
      forall q | q in keys
        ensures Within(q, dst) && Unrooted(q, src, dst) in t
      {
        var p :| p in t && Within(p, src) && q == Rerooted(p, src, dst);
        UnrootRerooted(p, src, dst);
      }
    }
    var m := map q | q in keys :: t[Unrooted(q, src, dst)];
    assert forall p :: p in t && Within(p, src) ==> Rerooted(p, src, dst) in m && m[Rerooted(p, src, dst)] == t[p] by {
      forall p | p in t && Within(p, src)
        ensures Rerooted(p, src, dst) in m && m[Rerooted(p, src, dst)] == t[p]
      {
        UnrootRerooted(p, src, dst);
      }
    }
    m
  }

  /** `t` with the subtree at `src` moved to `dst`, over whatever was at `dst`. */
  function Reroot(t: Tree, src: string, dst: string): Tree {
    (map p | p in t && !Within(p, src) :: t[p]) + Moved(t, src, dst)
  }

  /** Of two paths a third lies within, one is the other or lies below it. */
  lemma WithinBoth(q: string, src: string, dst: string)
    requires Within(q, dst)
    ensures Within(q, src) ==> src == dst || HasPrefix(dst, src + "/") || HasPrefix(src, dst + "/")
  {
    if Within(q, src) && |src| < |dst| {
      assert q[..|src|] == src && q[..|dst|] == dst;
      assert dst[..|src|] == src && dst[|src|] == q[|src|];
      assert dst[..|src| + 1] == src + "/";
    } else if Within(q, src) && |dst| < |src| {
      assert q[..|src|] == src && q[..|dst|] == dst;
      assert src[..|dst|] == dst && src[|dst|] == q[|dst|];
      assert src[..|dst| + 1] == dst + "/";
    } else if Within(q, src) {
      assert q[..|src|] == src && q[..|dst|] == dst;
    }
  }

  /**
    Moving the subtree at `src` to `dst`, when neither is below the other: every entry within
    `src` is at its place within `dst`, nothing is left within `src`, entries outside both are
    kept, and nothing appears outside `dst` that was not there.
   */
  lemma RerootMoves(t: Tree, src: string, dst: string)
    requires src != dst && !HasPrefix(dst, src + "/") && !HasPrefix(src, dst + "/")
    ensures var r := Reroot(t, src, dst);
      && (forall p :: p in t && Within(p, src) ==> Rerooted(p, src, dst) in r && r[Rerooted(p, src, dst)] == t[p])
      && (forall p :: p in r ==> !Within(p, src))
      && (forall p :: p in t && !Within(p, src) && !Within(p, dst) ==> p in r && r[p] == t[p])
      && (forall p :: p in r && !Within(p, dst) ==> p in t)
  {
    var r := Reroot(t, src, dst);
    forall p | p in r
      ensures !Within(p, src)
    {
      if p in Moved(t, src, dst) {
        WithinBoth(p, src, dst);
      }
    }
  }

  /**
    os.Rename(src, dst) on Unix. Go first stats `dst`: a directory there makes the rename fail
    with EEXIST, or with the error stat gives for `src`, and changes nothing. Otherwise
    rename(2) moves the subtree at `src` to `dst`, over a file that may be there; a directory
    cannot move below itself (EINVAL) or onto a file (ENOTDIR).
   */
  function RenameIn(t: Tree, denied: set<string>, src: string, dst: string): (r: (Outcome<OsError>, Tree))
    ensures r.0.Fail? ==> r.1 == t
    ensures StatIn(t, denied, dst) == Success(Dir) ==>
      r.0 == Fail(if StatIn(t, denied, src).Failure? then StatIn(t, denied, src).error else ErrExist)
    ensures r.0.Pass? ==> StatIn(t, denied, src).Success? && dst !in denied
    ensures r.0.Pass? && src == dst ==> r.1 == t
    ensures r.0.Pass? && src != dst ==>
      && (forall p :: p in t && Within(p, src) ==> Rerooted(p, src, dst) in r.1 && r.1[Rerooted(p, src, dst)] == t[p])
      && (forall p :: p in r.1 ==> !Within(p, src))
      && (forall p :: p in t && !Within(p, src) && !Within(p, dst) ==> p in r.1 && r.1[p] == t[p])
      && (forall p :: p in r.1 && !Within(p, dst) ==> p in t)
  {
    if StatIn(t, denied, dst) == Success(Dir) then
      (Fail(if StatIn(t, denied, src).Failure? then StatIn(t, denied, src).error else ErrExist), t)
    else if src in denied || dst in denied then (Fail(ErrPermission), t)
    else
      match StatIn(t, denied, src)
      case Failure(e) => (Fail(e), t)
      case Success(entry) =>
        if Lookup(t, dst).Some? then (Fail(Lookup(t, dst).value), t)
        else if src == dst then (Pass, t)
        else if HasPrefix(dst, src + "/") then (Fail(ErrInvalid), t)
        else if HasPrefix(src, dst + "/") then (Fail(if entry.File? then ErrIsDir else ErrExist), t)
        else if dst in t && entry == Dir && t[dst].File? then (Fail(ErrNotDir), t)
        else
          RerootMoves(t, src, dst);
          (Pass, Reroot(t, src, dst))
  }

  /** A directory that stat sees at the destination makes the rename of an existing `src` fail with EEXIST. */
  lemma RenameOntoDirectory(t: Tree, denied: set<string>, src: string, dst: string)
    requires StatIn(t, denied, src).Success? && StatIn(t, denied, dst) == Success(Dir)
    ensures RenameIn(t, denied, src, dst) == (Fail(ErrExist), t)
  {
  }

  /**
    When a rename succeeds: stat sees `src`; `dst` is not denied and its directories exist;
    whatever is at `dst` is a file, and so is what moves onto it; and neither path lies below
    the other.
   */
  lemma RenamePasses(t: Tree, denied: set<string>, src: string, dst: string)
    ensures RenameIn(t, denied, src, dst).0.Pass? <==>
      && StatIn(t, denied, src).Success?
      && dst !in denied && Lookup(t, dst).None?
      && (dst in t ==> t[dst].File? && StatIn(t, denied, src).value.File?)
      && (src != dst ==> !HasPrefix(dst, src + "/") && !HasPrefix(src, dst + "/"))
  {
  }

  /** The filesystem, which the system calls below change in place. */
  class FileSystem {
    var entries: Tree
    /** The paths every system call fails on. */
    const denied: set<string>
    /** The paths that stat sees but that cannot be opened for reading. */
    const unreadable: set<string>

    constructor (entries: Tree, denied: set<string>, unreadable: set<string>)
      ensures this.entries == entries && this.denied == denied && this.unreadable == unreadable
    {
      this.entries := entries;
      this.denied := denied;
      this.unreadable := unreadable;
    }

    function Stat(path: string): Result<Entry, OsError>
      reads this
    {
      StatIn(entries, denied, path)
    }

    function ReadFile(path: string): Result<string, OsError>
      reads this
    {
      ReadFileIn(entries, denied, unreadable, path)
    }

    method MkdirAll(path: string) returns (err: Outcome<OsError>)
      modifies this
      ensures (err, entries) == MkdirAllIn(old(entries), denied, path)
    {
      var r := MkdirAllIn(entries, denied, path);
      err, entries := r.0, r.1;
    }

    method OpenTrunc(path: string) returns (err: Outcome<OsError>)
      modifies this
      ensures (err, entries) == OpenTruncIn(old(entries), denied, path)
    {
      var r := OpenTruncIn(entries, denied, path);
      err, entries := r.0, r.1;
    }

    /** File.WriteString on a file opened for writing: the text is appended. */
    method WriteString(path: string, s: string)
      requires path in entries && entries[path].File?
      modifies this
      ensures entries == old(entries)[path := File(old(entries)[path].content + s)]
    {
      entries := entries[path := File(entries[path].content + s)];
    }

    method Rename(src: string, dst: string) returns (err: Outcome<OsError>)
      modifies this
      ensures (err, entries) == RenameIn(old(entries), denied, src, dst)
    {
      var r := RenameIn(entries, denied, src, dst);
      err, entries := r.0, r.1;
    }
  }
}
