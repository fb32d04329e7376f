/**
  The `generated.dirs` reader and writer (internal/xdgdirs/xdgdirs.go): the platform
  defaults, the lenient `XDG_KEY="value"` line parser with its overlay onto the defaults, and
  the writer that truncates the file and writes a comment header plus one line per entry.
 */
module XdgDirs {
  import opened Wrappers
  import opened Text
  import opened Collections
  import opened Os

  /** The directories `github.com/adrg/xdg` worked out for this platform when the program started. */
  datatype Platform = Platform(
    cacheHome: string, configHome: string, dataHome: string, stateHome: string,
    runtimeDir: string, desktop: string, download: string, documents: string, music: string,
    pictures: string, videos: string, templates: string, publicShare: string)

  /** The errors of ReadUserDirs and WriteUserDirs, each wrapping the system call's error. */
  datatype XdgError =
    | HomeDirFailed(cause: OsError)     // failed to get user home directory
    | ReadFailed(cause: OsError)        // failed to read generated.dirs file
    | ConfigDirFailed(cause: OsError)   // failed to create XDG config directory
    | CreateFileFailed(cause: OsError)  // failed to create generated.dirs file

  /** A key the writer can put on a line and the parser reads back unchanged. */
  predicate WellFormedKey(k: string) {
    IsEntryKey(k) && '\n' !in k
  }

  /** A value the writer can put between quotes and the parser reads back unchanged. */
  predicate WellFormedValue(v: string) {
    '\n' !in v && IsUnquoted(v)
  }

  /** The thirteen keys getDefaultXDGDirs defines. */
  const DefaultKeys: set<string> := {
    "XDG_CACHE_HOME", "XDG_CONFIG_HOME", "XDG_DATA_HOME", "XDG_STATE_HOME", "XDG_RUNTIME_DIR",
    "XDG_DESKTOP_DIR", "XDG_DOWNLOAD_DIR", "XDG_DOCUMENTS_DIR", "XDG_MUSIC_DIR",
    "XDG_PICTURES_DIR", "XDG_VIDEOS_DIR", "XDG_TEMPLATES_DIR", "XDG_PUBLICSHARE_DIR"
  }

  /** An upper-case name with the `XDG_` prefix, such as every default key. */
  predicate IsXdgName(k: string) {
    HasPrefix(k, "XDG_") && forall i :: 0 <= i < |k| ==> 'A' <= k[i] <= 'Z' || k[i] == '_'
  }

  lemma XdgNameWellFormed(k: string)
    requires IsXdgName(k)
    ensures WellFormedKey(k)
  {
    assert k[|k| - 1] == '_' || 'A' <= k[|k| - 1] <= 'Z';
  }

  lemma CacheConfigNames()
    ensures IsXdgName("XDG_CACHE_HOME") && IsXdgName("XDG_CONFIG_HOME")
  {
  }

  lemma DataStateNames()
    ensures IsXdgName("XDG_DATA_HOME") && IsXdgName("XDG_STATE_HOME")
  {
  }

  lemma RuntimeDesktopNames()
    ensures IsXdgName("XDG_RUNTIME_DIR") && IsXdgName("XDG_DESKTOP_DIR")
  {
  }

  lemma DownloadDocumentsNames()
    ensures IsXdgName("XDG_DOWNLOAD_DIR") && IsXdgName("XDG_DOCUMENTS_DIR")
  {
  }

  lemma MusicPicturesNames()
    ensures IsXdgName("XDG_MUSIC_DIR") && IsXdgName("XDG_PICTURES_DIR")
  {
  }

  lemma VideosTemplatesNames()
    ensures IsXdgName("XDG_VIDEOS_DIR") && IsXdgName("XDG_TEMPLATES_DIR")
  {
  }

  lemma PublicShareName()
    ensures IsXdgName("XDG_PUBLICSHARE_DIR")
  {
  }

  lemma DefaultKeysWellFormed()
    ensures forall k :: k in DefaultKeys ==> WellFormedKey(k)
  {
    CacheConfigNames();
    DataStateNames();
    RuntimeDesktopNames();
    DownloadDocumentsNames();
    MusicPicturesNames();
    VideosTemplatesNames();
    PublicShareName();
    forall k | k in DefaultKeys
      ensures WellFormedKey(k)
    {
      XdgNameWellFormed(k);
    }
  }

  /** getDefaultXDGDirs: each of the thirteen XDG keys mapped to the platform's directory. */
  function GetDefaultXDGDirs(xdg: Platform): (dirs: map<string, string>)
    ensures dirs.Keys == DefaultKeys
    ensures forall k :: k in dirs ==> WellFormedKey(k)
  {
    DefaultKeysWellFormed();
    map[
      "XDG_CACHE_HOME" := xdg.cacheHome,
      "XDG_CONFIG_HOME" := xdg.configHome,
      "XDG_DATA_HOME" := xdg.dataHome,
      "XDG_STATE_HOME" := xdg.stateHome,
      "XDG_RUNTIME_DIR" := xdg.runtimeDir,
      "XDG_DESKTOP_DIR" := xdg.desktop,
      "XDG_DOWNLOAD_DIR" := xdg.download,
      "XDG_DOCUMENTS_DIR" := xdg.documents,
      "XDG_MUSIC_DIR" := xdg.music,
      "XDG_PICTURES_DIR" := xdg.pictures,
      "XDG_VIDEOS_DIR" := xdg.videos,
      "XDG_TEMPLATES_DIR" := xdg.templates,
      "XDG_PUBLICSHARE_DIR" := xdg.publicShare
    ]
  }

  // ---------------------------------------------------------------- where the file lives

  /** `$XDG_CONFIG_HOME` when it is non-empty, otherwise `<home>/.config`; an error only when neither is available. */
  function ConfigHome(vars: map<string, string>): (r: Result<string, XdgError>)
    ensures r.Failure? <==> Getenv(vars, "XDG_CONFIG_HOME") == "" && Getenv(vars, "HOME") == ""
    ensures Getenv(vars, "XDG_CONFIG_HOME") != "" ==> r == Success(Getenv(vars, "XDG_CONFIG_HOME"))
    ensures r.Success? ==> r.value != ""
  {
    var configHome := Getenv(vars, "XDG_CONFIG_HOME");
    if configHome != "" then Success(configHome)
    else
      match UserHomeDir(vars)
      case Failure(e) => Failure(HomeDirFailed(e))
      case Success(home) => Success(PathJoin(home, ".config"))
  }

  /** `<config>/xdg`, the directory WriteUserDirs creates. */
  function XdgConfigDir(vars: map<string, string>): Result<string, XdgError> {
    match ConfigHome(vars)
    case Failure(e) => Failure(e)
    case Success(configHome) => Success(PathJoin(configHome, "xdg"))
  }

  /** `<config>/xdg/generated.dirs`, the one path both ReadUserDirs and WriteUserDirs use. */
  function UserDirsPath(vars: map<string, string>): Result<string, XdgError> {
    match XdgConfigDir(vars)
    case Failure(e) => Failure(e)
    case Success(dir) => Success(PathJoin(dir, "generated.dirs"))
  }

  // ---------------------------------------------------------------- reading

  /**
    One line of generated.dirs. Only a line that begins with `XDG_` and contains `=` is an
    entry; it is cut at its first `=`, the key is trimmed of white space and the value of white
    space and then of every leading and trailing double quote. (The source also checks that the
    cut gives two parts, which always holds once the line contains `=`.)
   */
  function ParseLine(line: string): (entry: Option<(string, string)>)
    ensures entry.Some? <==> HasPrefix(line, "XDG_") && '=' in line
    ensures entry.Some? ==> IsEntryKey(entry.value.0)
    ensures entry.Some? ==> IsUnquoted(entry.value.1)
  {
    if HasPrefix(line, "XDG_") && '=' in line then
      var parts := SplitN2(line, '=');
      var key := TrimSpace(parts[0]);
      var value := TrimQuotes(TrimSpace(parts[1]));
      KeyPartOfEntry(line, parts[0], parts[1]);
      TrimQuotesEnds(TrimSpace(parts[1]));
      Some((key, value))
    else None
  }

  /** What ParseLine makes of the text before `=`: it keeps the `XDG_` prefix, has no `=` and no trailing white space. */
  predicate IsEntryKey(key: string) {
    HasPrefix(key, "XDG_") && '=' !in key && !IsSpace(key[|key| - 1])
  }

  /** Neither the first nor the last character is a double quote. */
  predicate IsUnquoted(value: string) {
    value == [] || (value[0] != '"' && value[|value| - 1] != '"')
  }

  /** The text before the first `=` of an `XDG_` line keeps its `XDG_` prefix through TrimSpace. */
  lemma KeyPartOfEntry(line: string, before: string, after: string)
    requires HasPrefix(line, "XDG_") && line == before + ['='] + after && '=' !in before
    ensures IsEntryKey(TrimSpace(before))
  {
    BeforeEqualsPrefixed(line, before, after);
    TrimXdgPrefixed(before);
    var key := TrimSpace(before);
    assert '=' !in key by {
      assert forall i :: 0 <= i < |key| ==> key[i] == before[i];
    }
  }

  /** The first `=` of an `XDG_` line comes after the prefix, so the text before it keeps the prefix. */
  lemma BeforeEqualsPrefixed(line: string, before: string, after: string)
    requires HasPrefix(line, "XDG_") && line == before + ['='] + after
    ensures |before| >= 4 && before[..4] == "XDG_"
  {
    assert line[|before|] == '=';
    assert forall i :: 0 <= i < 4 ==> line[i] == "XDG_"[i] != '=';
    assert before[..4] == line[..4];
  }

  /** TrimSpace of a text that begins with `XDG_` removes only trailing white space and keeps the prefix. */
  lemma TrimXdgPrefixed(before: string)
    requires |before| >= 4 && before[..4] == "XDG_"
    ensures var key := TrimSpace(before); key == before[..|key|] && HasPrefix(key, "XDG_") && !IsSpace(key[|key| - 1])
  {
    assert before[0] == 'X' && before[3] == '_';
    var left := TrimLeftFunc(before, IsSpace);
    assert left == before by {
      assert !IsSpace(before[0]);
    }
    TrimRightFuncDrops(before, IsSpace);
    assert !IsSpace(before[3]);
    var key := TrimRightFunc(before, IsSpace);
    assert key[..4] == before[..4];
  }

  /** A line as the first loop of ReadUserDirs sees it: an entry `(key, value)`, or nothing. */
  type Parsed = Option<(string, string)>

  /** Whether `e` is an entry for `key`. */
  predicate Sets(e: Parsed, key: string) {
    e.Some? && e.value.0 == key
  }

  /** Whether `line` is an entry line for `key`. */
  predicate Defines(line: string, key: string) {
    Sets(ParseLine(line), key)
  }

  /** Every line of the file, parsed. */
  function Entries(lines: seq<string>): (es: seq<Parsed>)
    ensures |es| == |lines|
  {
    MapSeq(ParseLine, lines)
  }

  /** `m` overlaid with the entries `es`, in order: each entry sets its key, a later one overriding an earlier one. */
  function Overlay(m: map<string, string>, es: seq<Parsed>): map<string, string> {
    if es == [] then m
    else
      var previous := Overlay(m, es[..|es| - 1]);
      match es[|es| - 1]
      case Some((key, value)) => previous[key := value]
      case None => previous
  }

  /** The map the first loop of ReadUserDirs builds from `m`. */
  function ParseLines(m: map<string, string>, lines: seq<string>): map<string, string> {
    Overlay(m, Entries(lines))
  }

  lemma {:induction false} OverlayLastWins(m: map<string, string>, es: seq<Parsed>, i: nat)
    requires i < |es| && es[i].Some?
    requires forall j :: i < j < |es| ==> !Sets(es[j], es[i].value.0)
    ensures es[i].value.0 in Overlay(m, es) && Overlay(m, es)[es[i].value.0] == es[i].value.1
  {
    var n := |es| - 1;
    if i < n {
      assert !Sets(es[n], es[i].value.0);
      OverlayLastWins(m, es[..n], i);
    }
  }

  lemma {:induction false} OverlayKeeps(m: map<string, string>, es: seq<Parsed>, key: string)
    requires forall i :: 0 <= i < |es| ==> !Sets(es[i], key)
    ensures key in Overlay(m, es) <==> key in m
    ensures key in m ==> Overlay(m, es)[key] == m[key]
  {
    if es != [] {
      var n := |es| - 1;
      assert !Sets(es[n], key);
      OverlayKeeps(m, es[..n], key);
    }
  }

  /** The keys of an overlay are those of `m` and those some entry sets. */
  lemma {:induction false} OverlayKeys(m: map<string, string>, es: seq<Parsed>, key: string)
    ensures key in Overlay(m, es) <==> key in m || exists i :: 0 <= i < |es| && Sets(es[i], key)
  {
    if es != [] {
      var n := |es| - 1;
      OverlayKeys(m, es[..n], key);
      if exists i :: 0 <= i < n && Sets(es[..n][i], key) {
        var i :| 0 <= i < n && Sets(es[..n][i], key);
        assert Sets(es[i], key);
      }
      if exists i :: 0 <= i < |es| && Sets(es[i], key) {
        var i :| 0 <= i < |es| && Sets(es[i], key);
        if i < n {
          assert Sets(es[..n][i], key);
        }
      }
    }
  }

  /** Lines none of which is an entry leave the map as it is. */
  lemma {:induction false} OverlayNothing(m: map<string, string>, es: seq<Parsed>)
    requires forall i :: 0 <= i < |es| ==> es[i].None?
    ensures Overlay(m, es) == m
  {
    if es != [] {
      OverlayNothing(m, es[..|es| - 1]);
    }
  }

  lemma {:induction false} OverlayAppend(m: map<string, string>, a: seq<Parsed>, b: seq<Parsed>)
    ensures Overlay(m, a + b) == Overlay(Overlay(m, a), b)
  {
    if b == [] {
      assert a + b == a;
    } else {
      var n := |b| - 1;
      assert (a + b)[..|a + b| - 1] == a + b[..n];
      OverlayAppend(m, a, b[..n]);
    }
  }

  lemma EntriesAppend(a: seq<string>, b: seq<string>)
    ensures Entries(a + b) == Entries(a) + Entries(b)
  {
    MapSeqAppend(ParseLine, a, b);
  }

  /** When a key is on several lines, the last of them decides its value. */
  lemma LastOccurrenceWins(m: map<string, string>, lines: seq<string>, i: nat)
    requires i < |lines| && ParseLine(lines[i]).Some?
    requires forall j :: i < j < |lines| ==> !Defines(lines[j], ParseLine(lines[i]).value.0)
    ensures var (key, value) := ParseLine(lines[i]).value;
      key in ParseLines(m, lines) && ParseLines(m, lines)[key] == value
  {
    var es := Entries(lines);
    var key := ParseLine(lines[i]).value.0;
    assert es[i] == ParseLine(lines[i]);
    forall j | i < j < |es|
      ensures !Sets(es[j], key)
    {
      assert es[j] == ParseLine(lines[j]);
      assert !Defines(lines[j], key);
    }
    OverlayLastWins(m, es, i);
  }

  /** The keys after the first loop of ReadUserDirs are those of `m` and those some line defines. */
  lemma ParseLinesKeys(m: map<string, string>, lines: seq<string>, key: string)
    ensures key in ParseLines(m, lines) <==> key in m || exists i :: 0 <= i < |lines| && Defines(lines[i], key)
  {
    var es := Entries(lines);
    OverlayKeys(m, es, key);
    assert forall i :: 0 <= i < |lines| ==> es[i] == ParseLine(lines[i]);
    if exists i :: 0 <= i < |es| && Sets(es[i], key) {
      var i :| 0 <= i < |es| && Sets(es[i], key);
      assert Defines(lines[i], key);
    }
  }

  /** A key no line defines keeps whatever `m` says of it: lines that are not entries change nothing. */
  lemma UndefinedKeyKept(m: map<string, string>, lines: seq<string>, key: string)
    requires forall i :: 0 <= i < |lines| ==> !Defines(lines[i], key)
    ensures key in ParseLines(m, lines) <==> key in m
    ensures key in m ==> ParseLines(m, lines)[key] == m[key]
  {
    var es := Entries(lines);
    forall i | 0 <= i < |es|
      ensures !Sets(es[i], key)
    {
      assert es[i] == ParseLine(lines[i]);
      assert !Defines(lines[i], key);
    }
    OverlayKeeps(m, es, key);
  }

  /** The second loop of ReadUserDirs: a default key whose value is missing or empty takes its default. */
  function Merge(userDirs: map<string, string>, defaults: map<string, string>): map<string, string> {
    map k | k in userDirs.Keys + defaults.Keys ::
      if k in defaults && (k !in userDirs || userDirs[k] == "") then defaults[k] else userDirs[k]
  }

  /** Merging the merged map again changes nothing: every default key already has its value. */
  lemma MergeIdempotent(u: map<string, string>, defaults: map<string, string>)
    ensures Merge(Merge(u, defaults), defaults) == Merge(u, defaults)
  {
    var w := Merge(u, defaults);
    forall k | k in w
      ensures Merge(w, defaults)[k] == w[k]
    {
      MergeAt(u, defaults, k);
      MergeAt(w, defaults, k);
    }
  }

  /** After the merge every default key is there, and it is empty only when its default is. */
  lemma MergeFillsDefaults(u: map<string, string>, defaults: map<string, string>, key: string)
    requires key in defaults
    ensures key in Merge(u, defaults)
    ensures Merge(u, defaults)[key] == "" ==> defaults[key] == ""
    ensures Merge(u, defaults)[key] == (if key in u && u[key] != "" then u[key] else defaults[key])
  {
    MergeAt(u, defaults, key);
  }

  lemma MergeAt(u: map<string, string>, defaults: map<string, string>, key: string)
    ensures key in Merge(u, defaults) <==> key in u || key in defaults
    ensures key in Merge(u, defaults) ==>
      Merge(u, defaults)[key] == (if key in defaults && (key !in u || u[key] == "") then defaults[key] else u[key])
  {
  }

  /**
    ReadUserDirs: the defaults overlaid with the entries of generated.dirs. A file that cannot be
    stat'ed counts as absent; an error comes only from the home-directory lookup or from reading
    a file that stat found.
   */
  function ReadMerged(vars: map<string, string>, t: Tree, denied: set<string>, unreadable: set<string>,
                      defaults: map<string, string>): Result<map<string, string>, XdgError>
  {
    match UserDirsPath(vars)
    case Failure(e) => Failure(e)
    case Success(path) =>
      if StatIn(t, denied, path).Failure? then Success(Merge(defaults, defaults))
      else
        match ReadFileIn(t, denied, unreadable, path)
        case Failure(e) => Failure(ReadFailed(e))
        case Success(content) => Success(Merge(ParseLines(defaults, Split(content, '\n')), defaults))
  }

  // ---------------------------------------------------------------- writing

  /**
    The comment header WriteUserDirs puts first, the one of xdg-user-dirs' user-dirs.dirs, one
    string per line. The longer lines are written as concatenations of short pieces, which the
    verifier can take apart character by character.
   */
  const HeaderLines: seq<string> := [
    "# This file is written by " + "xdg-user-dirs-update",
    "# If you want to change or " + "add directories, just edit " + "the line you're",
    "# interested in. All local " + "changes will be retained on " + "the next run.",
    "# Format is XDG_xxx_DIR=" + "\"$HOME/yyy\", where yyy is " + "a shell-escaped",
    "# homedir-relative path, or " + "XDG_xxx_DIR=\"/yyy\", where " + "/yyy is an",
    "# absolute path. No other " + "format is supported.",
    "#"
  ]

  const Header: string := Unlines(HeaderLines)

  /** One entry line, `KEY="value"`, without its newline. */
  function EntryLine(key: string, value: string): string {
    key + "=\"" + value + "\""
  }

  /** The entry lines of `m`, one per key, in the order the write loop visits the keys. */
  function EntryLines(m: map<string, string>, order: seq<string>): (lines: seq<string>)
    requires forall i :: 0 <= i < |order| ==> order[i] in m
    ensures |lines| == |order|
  {
    seq(|order|, i requires 0 <= i < |order| => EntryLine(order[i], m[order[i]]))
  }

  /** The whole text of generated.dirs after WriteUserDirs. */
  function Render(m: map<string, string>, order: seq<string>): string
    requires forall i :: 0 <= i < |order| ==> order[i] in m
  {
    Header + Unlines(EntryLines(m, order))
  }

  /**
    WriteUserDirs writing `content`: find the configuration directory, then write the file in
    its `xdg` directory. What WriteUserDirs writes is Render(userDirs, order).
   */
  function WriteSpec(vars: map<string, string>, t: Tree, denied: set<string>, content: string): (Outcome<XdgError>, Tree) {
    match XdgConfigDir(vars)
    case Failure(e) => (Fail(e), t)
    case Success(dir) => WriteIn(t, denied, dir, content)
  }

  /** Make `dir` with its parents, truncate (or create) `dir/generated.dirs` and write `content` to it. */
  function WriteIn(t: Tree, denied: set<string>, dir: string, content: string): (Outcome<XdgError>, Tree) {
    var (made, t1) := MkdirAllIn(t, denied, dir);
    if made.Fail? then (Fail(ConfigDirFailed(made.error)), t1)
    else
      var path := PathJoin(dir, "generated.dirs");
      var (created, t2) := OpenTruncIn(t1, denied, path);
      if created.Fail? then (Fail(CreateFileFailed(created.error)), t2)
      else (Pass, t2[path := File(content)])
  }

  // ---------------------------------------------------------------- what the writer and the reader agree on

  /** The parser reads a written entry line back as the key and value that were written. */
  lemma CutEntryLine(key: string, value: string)
    requires WellFormedKey(key) && WellFormedValue(value)
    ensures SplitN2(EntryLine(key, value), '=') == [key, "\"" + value + "\""]
  {
    var quoted := "\"" + value + "\"";
    var line := EntryLine(key, value);
    assert line == key + ['='] + quoted;
    assert line[|key|] == '=';
    var parts := SplitN2(line, '=');
    CutUnique(parts[0], parts[1], key, quoted, '=');
  }

  lemma TrimKey(key: string)
    requires WellFormedKey(key)
    ensures TrimSpace(key) == key
  {
    assert key[0] == key[..4][0] == 'X';
    TrimFuncNoop(key, IsSpace);
  }

  lemma ParseEntryLine(key: string, value: string)
    requires WellFormedKey(key) && WellFormedValue(value)
    ensures ParseLine(EntryLine(key, value)) == Some((key, value))
  {
    var line := EntryLine(key, value);
    assert line[..4] == key[..4];
    assert line[|key|] == '=';
    CutEntryLine(key, value);
    TrimKey(key);
    TrimQuotedValue(value);
  }

  /** A line that starts with `#` and holds no newline. */
  predicate IsComment(line: string) {
    line != [] && line[0] == '#' && '\n' !in line
  }

  lemma CommentConcat(a: string, b: string)
    requires IsComment(a) && '\n' !in b
    ensures IsComment(a + b)
  {
    assert (a + b)[0] == a[0];
  }

  lemma HeaderLine0IsComment()
    ensures IsComment("# This file is written by " + "xdg-user-dirs-update")
  {
    CommentConcat("# This file is written by ", "xdg-user-dirs-update");
  }

  lemma HeaderLine1IsComment()
    ensures IsComment("# If you want to change or " + "add directories, just edit " + "the line you're")
  {
    CommentConcat("# If you want to change or ", "add directories, just edit ");
    CommentConcat("# If you want to change or " + "add directories, just edit ", "the line you're");
  }

  lemma HeaderLine2IsComment()
    ensures IsComment("# interested in. All local " + "changes will be retained on " + "the next run.")
  {
    CommentConcat("# interested in. All local ", "changes will be retained on ");
    CommentConcat("# interested in. All local " + "changes will be retained on ", "the next run.");
  }

  lemma HeaderLine3IsComment()
    ensures IsComment("# Format is XDG_xxx_DIR=" + "\"$HOME/yyy\", where yyy is " + "a shell-escaped")
  {
    CommentConcat("# Format is XDG_xxx_DIR=", "\"$HOME/yyy\", where yyy is ");
    CommentConcat("# Format is XDG_xxx_DIR=" + "\"$HOME/yyy\", where yyy is ", "a shell-escaped");
  }

  lemma HeaderLine4IsComment()
    ensures IsComment("# homedir-relative path, or " + "XDG_xxx_DIR=\"/yyy\", where " + "/yyy is an")
  {
    CommentConcat("# homedir-relative path, or ", "XDG_xxx_DIR=\"/yyy\", where ");
    CommentConcat("# homedir-relative path, or " + "XDG_xxx_DIR=\"/yyy\", where ", "/yyy is an");
  }

  lemma HeaderLine5IsComment()
    ensures IsComment("# absolute path. No other " + "format is supported.")
  {
    CommentConcat("# absolute path. No other ", "format is supported.");
  }

  lemma HeaderIsComments()
    ensures forall i :: 0 <= i < |HeaderLines| ==> IsComment(HeaderLines[i])
  {
    HeaderLine0IsComment();
    HeaderLine1IsComment();
    HeaderLine2IsComment();
    HeaderLine3IsComment();
    HeaderLine4IsComment();
    HeaderLine5IsComment();
  }

  /** A comment line is not an entry. */
  lemma CommentIsNoEntry(line: string)
    requires IsComment(line)
    ensures ParseLine(line).None?
  {
    assert !HasPrefix(line, "XDG_") by {
      if |line| >= 4 {
        assert line[..4][0] == '#';
      }
    }
  }

  /** The header is comment lines: none of them holds a newline or is an entry. */
  lemma HeaderHasNoEntries()
    ensures forall i :: 0 <= i < |HeaderLines| ==> '\n' !in HeaderLines[i]
    ensures forall i :: 0 <= i < |Entries(HeaderLines)| ==> Entries(HeaderLines)[i].None?
  {
    HeaderIsComments();
    forall i | 0 <= i < |HeaderLines|
      ensures Entries(HeaderLines)[i].None?
    {
      CommentIsNoEntry(HeaderLines[i]);
    }
  }

  /** The entries of map `m` restricted to the keys in `order`. */
  function Restrict(m: map<string, string>, order: seq<string>): (r: map<string, string>)
    requires forall i :: 0 <= i < |order| ==> order[i] in m
    ensures forall k :: k in r <==> k in m && k in order
    ensures forall k :: k in r ==> r[k] == m[k]
  {
    map k | k in order :: m[k]
  }

  /** The entries the lines of EntryLines(m, order) stand for. */
  function Written(m: map<string, string>, order: seq<string>): (es: seq<Parsed>)
    requires forall i :: 0 <= i < |order| ==> order[i] in m
    ensures |es| == |order|
  {
    seq(|order|, i requires 0 <= i < |order| => Some((order[i], m[order[i]])))
  }

  lemma ParseEntryLines(m: map<string, string>, order: seq<string>)
    requires forall i :: 0 <= i < |order| ==> order[i] in m
    requires forall k :: k in m ==> WellFormedKey(k) && WellFormedValue(m[k])
    ensures Entries(EntryLines(m, order)) == Written(m, order)
  {
    forall i | 0 <= i < |order|
      ensures Entries(EntryLines(m, order))[i] == Written(m, order)[i]
    {
      ParseEntryLine(order[i], m[order[i]]);
    }
  }

  /** Overlaying the entries of `m` onto `d` sets exactly the keys written, to their values. */
  lemma {:induction false} OverlayWritten(d: map<string, string>, m: map<string, string>, order: seq<string>)
    requires forall i :: 0 <= i < |order| ==> order[i] in m
    ensures Overlay(d, Written(m, order)) == d + Restrict(m, order)
  {
    if order == [] {
      assert Restrict(m, order) == map[];
      assert d + map[] == d;
    } else {
      var n := |order| - 1;
      var key := order[n];
      var init := order[..n];
      var w := Written(m, order);
      assert w[..n] == Written(m, init);
      assert w[n] == Some((key, m[key]));
      assert Overlay(d, w) == Overlay(d, w[..n])[key := m[key]];
      OverlayWritten(d, m, init);
      assert order == init + [key];
      RestrictSnoc(d, m, init, key);
    }
  }

  /** Writing one more key sets it on top of what the keys before it set. */
  lemma RestrictSnoc(d: map<string, string>, m: map<string, string>, init: seq<string>, key: string)
    requires forall i :: 0 <= i < |init| ==> init[i] in m
    requires key in m
    ensures (d + Restrict(m, init))[key := m[key]] == d + Restrict(m, init + [key])
  {
    var order := init + [key];
    assert forall k :: k in order <==> k in init || k == key;
  }

  /** The entries of a written file: none for the header, one per key, none for the empty last line. */
  lemma EntriesOfRender(m: map<string, string>, order: seq<string>)
    requires forall i :: 0 <= i < |order| ==> order[i] in m
    requires forall k :: k in m ==> WellFormedKey(k) && WellFormedValue(m[k])
    ensures Entries(Split(Render(m, order), '\n')) == Entries(HeaderLines) + Written(m, order) + [None]
  {
    var body := EntryLines(m, order);
    RenderLines(m, order);
    EntriesAppend(HeaderLines, body);
    EntriesAppend(HeaderLines + body, [""]);
    assert Entries([""])[0] == ParseLine("") == None;
    assert Entries([""]) == [None];
    ParseEntryLines(m, order);
  }

  lemma OverlayOfRender(d: map<string, string>, m: map<string, string>, order: seq<string>)
    requires IsOrdering(order, m.Keys)
    ensures Overlay(d, Entries(HeaderLines) + Written(m, order) + [None]) == d + m
  {
    var header := Entries(HeaderLines);
    var written := Written(m, order);
    HeaderHasNoEntries();
    OverlayAppend(d, header, written);
    OverlayAppend(d, header + written, [None]);
    OverlayNothing(d, header);
    OverlayNothing(Overlay(d, header + written), [None]);
    OverlayWritten(d, m, order);
    assert Restrict(m, order) == m;
  }

  /** Reading back what the writer wrote for `m`, over the defaults `d`, gives `d` overlaid with `m`. */
  lemma ParseRender(d: map<string, string>, m: map<string, string>, order: seq<string>)
    requires IsOrdering(order, m.Keys)
    requires forall k :: k in m ==> WellFormedKey(k) && WellFormedValue(m[k])
    ensures ParseLines(d, Split(Render(m, order), '\n')) == d + m
  {
    EntriesOfRender(m, order);
    OverlayOfRender(d, m, order);
  }

  /** The lines of a written file: the header, one line per entry, and the empty text after the last newline. */
  lemma RenderLines(m: map<string, string>, order: seq<string>)
    requires forall i :: 0 <= i < |order| ==> order[i] in m
    requires forall k :: k in m ==> WellFormedKey(k) && WellFormedValue(m[k])
    ensures Split(Render(m, order), '\n') == HeaderLines + EntryLines(m, order) + [""]
  {
    var body := EntryLines(m, order);
    EntryLinesHaveNoNewline(m, order);
    HeaderHasNoEntries();
    UnlinesAppend(HeaderLines, body);
    var lines := HeaderLines + body;
    assert Render(m, order) == Unlines(lines) + "";
    SplitUnlines(lines, "");
    assert Split("", '\n') == [""];
  }


  lemma EntryLinesHaveNoNewline(m: map<string, string>, order: seq<string>)
    requires forall i :: 0 <= i < |order| ==> order[i] in m
    requires forall k :: k in m ==> WellFormedKey(k) && WellFormedValue(m[k])
    ensures forall i :: 0 <= i < |order| ==> '\n' !in EntryLines(m, order)[i]
  {
    forall i | 0 <= i < |order|
      ensures '\n' !in EntryLines(m, order)[i]
    {
      var line := EntryLine(order[i], m[order[i]]);
      assert forall c :: c in line ==> c in order[i] || c in m[order[i]] || c == '=' || c == '"';
    }
  }

  // ---------------------------------------------------------------- what ReadUserDirs and WriteUserDirs promise

  /** With generated.dirs a file that can be read, ReadUserDirs returns its parsed lines over the defaults, merged. */
  lemma ReadFileContent(vars: map<string, string>, t: Tree, denied: set<string>, unreadable: set<string>,
                        defaults: map<string, string>, content: string)
    requires UserDirsPath(vars).Success? && ReadFileIn(t, denied, unreadable, UserDirsPath(vars).value) == Success(content)
    ensures ReadMerged(vars, t, denied, unreadable, defaults) ==
      Success(Merge(ParseLines(defaults, Split(content, '\n')), defaults))
  {
  }

  /** Merging changes nothing in a map that gives every default key a non-empty value. */
  lemma MergeCovered(m: map<string, string>, defaults: map<string, string>)
    requires forall k :: k in defaults ==> k in m && m[k] != ""
    ensures Merge(defaults + m, defaults) == m
  {
    assert (defaults + m).Keys == m.Keys;
  }

  /** Without a generated.dirs that stat can see, ReadUserDirs returns the defaults. */
  lemma ReadMissingFile(vars: map<string, string>, t: Tree, denied: set<string>, unreadable: set<string>,
                        defaults: map<string, string>)
    requires UserDirsPath(vars).Success? && StatIn(t, denied, UserDirsPath(vars).value).Failure?
    ensures ReadMerged(vars, t, denied, unreadable, defaults) == Success(defaults)
  {
    assert Merge(defaults, defaults) == defaults;
  }

  /**
    ReadUserDirs fails exactly when there is no config home to look in, or when stat sees
    generated.dirs but it cannot be read: it is unreadable (EACCES) or a directory (EISDIR).
   */
  lemma ReadErrors(vars: map<string, string>, t: Tree, denied: set<string>, unreadable: set<string>,
                   defaults: map<string, string>)
    ensures ReadMerged(vars, t, denied, unreadable, defaults).Failure? <==>
      || (Getenv(vars, "XDG_CONFIG_HOME") == "" && Getenv(vars, "HOME") == "")
      || (StatIn(t, denied, UserDirsPath(vars).value).Success? &&
          (UserDirsPath(vars).value in unreadable || StatIn(t, denied, UserDirsPath(vars).value).value == Dir))
    ensures Getenv(vars, "XDG_CONFIG_HOME") == "" && Getenv(vars, "HOME") == "" ==>
      ReadMerged(vars, t, denied, unreadable, defaults) == Failure(HomeDirFailed(ErrNoHome))
    ensures UserDirsPath(vars).Success? && StatIn(t, denied, UserDirsPath(vars).value).Success? ==>
      && (UserDirsPath(vars).value in unreadable ==>
            ReadMerged(vars, t, denied, unreadable, defaults) == Failure(ReadFailed(ErrPermission)))
      && (UserDirsPath(vars).value !in unreadable && StatIn(t, denied, UserDirsPath(vars).value).value == Dir ==>
            ReadMerged(vars, t, denied, unreadable, defaults) == Failure(ReadFailed(ErrIsDir)))
  {
  }

  /** Every default key is in what ReadUserDirs returns. */
  lemma ReadCoversDefaults(vars: map<string, string>, t: Tree, denied: set<string>, unreadable: set<string>,
                           defaults: map<string, string>)
    requires ReadMerged(vars, t, denied, unreadable, defaults).Success?
    ensures defaults.Keys <= ReadMerged(vars, t, denied, unreadable, defaults).value.Keys
  {
  }

  /** The keys ReadUserDirs returns are the default keys and the keys some line of generated.dirs sets. */
  lemma ReadKeys(vars: map<string, string>, t: Tree, denied: set<string>, unreadable: set<string>,
                 defaults: map<string, string>, content: string, key: string)
    requires UserDirsPath(vars).Success? && ReadFileIn(t, denied, unreadable, UserDirsPath(vars).value) == Success(content)
    ensures ReadMerged(vars, t, denied, unreadable, defaults).Success?
    ensures var lines := Split(content, '\n');
      key in ReadMerged(vars, t, denied, unreadable, defaults).value <==>
        key in defaults || exists i :: 0 <= i < |lines| && Defines(lines[i], key)
  {
    var lines := Split(content, '\n');
    ReadFileContent(vars, t, denied, unreadable, defaults, content);
    ParseLinesKeys(defaults, lines, key);
    MergeAt(ParseLines(defaults, lines), defaults, key);
  }

  /**
    The last line of generated.dirs that sets `key` decides it, except that an empty value
    gives way to the default.
   */
  lemma ReadLastLineDecides(vars: map<string, string>, t: Tree, denied: set<string>, unreadable: set<string>,
                            defaults: map<string, string>, content: string, i: nat)
    requires UserDirsPath(vars).Success? && ReadFileIn(t, denied, unreadable, UserDirsPath(vars).value) == Success(content)
    requires var lines := Split(content, '\n');
      i < |lines| && ParseLine(lines[i]).Some? &&
      forall j :: i < j < |lines| ==> !Defines(lines[j], ParseLine(lines[i]).value.0)
    ensures ReadMerged(vars, t, denied, unreadable, defaults).Success?
    ensures var (key, value) := ParseLine(Split(content, '\n')[i]).value;
            var r := ReadMerged(vars, t, denied, unreadable, defaults).value;
      key in r && r[key] == if key in defaults && value == "" then defaults[key] else value
  {
    var lines := Split(content, '\n');
    ReadFileContent(vars, t, denied, unreadable, defaults, content);
    LastOccurrenceWins(defaults, lines, i);
    MergeAt(ParseLines(defaults, lines), defaults, ParseLine(lines[i]).value.0);
  }

  /** A key no line of generated.dirs sets is in the result only as a default key, with its default. */
  lemma ReadUndefinedKey(vars: map<string, string>, t: Tree, denied: set<string>, unreadable: set<string>,
                         defaults: map<string, string>, content: string, key: string)
    requires UserDirsPath(vars).Success? && ReadFileIn(t, denied, unreadable, UserDirsPath(vars).value) == Success(content)
    requires var lines := Split(content, '\n');
      forall j :: 0 <= j < |lines| ==> !Defines(lines[j], key)
    ensures ReadMerged(vars, t, denied, unreadable, defaults).Success?
    ensures var r := ReadMerged(vars, t, denied, unreadable, defaults).value;
      (key in r <==> key in defaults) && (key in defaults ==> r[key] == defaults[key])
  {
    var lines := Split(content, '\n');
    ReadFileContent(vars, t, denied, unreadable, defaults, content);
    UndefinedKeyKept(defaults, lines, key);
    MergeAt(ParseLines(defaults, lines), defaults, key);
  }

  /**
    After a successful WriteUserDirs of `m`, ReadUserDirs returns the defaults overlaid with `m`,
    unless generated.dirs is a file that cannot be opened for reading.
   */
  lemma WriteThenRead(vars: map<string, string>, t: Tree, denied: set<string>, unreadable: set<string>,
                      defaults: map<string, string>, m: map<string, string>, order: seq<string>, t': Tree)
    requires IsOrdering(order, m.Keys)
    requires forall k :: k in m ==> WellFormedKey(k) && WellFormedValue(m[k])
    requires WriteSpec(vars, t, denied, Render(m, order)) == (Pass, t')
    ensures UserDirsPath(vars).Success?
    ensures ReadMerged(vars, t', denied, unreadable, defaults) ==
      if UserDirsPath(vars).value in unreadable then Failure(ReadFailed(ErrPermission))
      else Success(Merge(defaults + m, defaults))
  {
    WriteResult(vars, t, denied, Render(m, order), t');
    if UserDirsPath(vars).value !in unreadable {
      ReadFileContent(vars, t', denied, unreadable, defaults, Render(m, order));
      ParseRender(defaults, m, order);
    }
  }

  /**
    When `m` gives every default key a non-empty value, reading back what was written gives
    exactly `m`, unless generated.dirs cannot be opened for reading.
   */
  lemma WriteThenReadExact(vars: map<string, string>, t: Tree, denied: set<string>, unreadable: set<string>,
                           defaults: map<string, string>, m: map<string, string>, order: seq<string>, t': Tree)
    requires IsOrdering(order, m.Keys)
    requires forall k :: k in m ==> WellFormedKey(k) && WellFormedValue(m[k])
    requires forall k :: k in defaults ==> k in m && m[k] != ""
    requires WriteSpec(vars, t, denied, Render(m, order)) == (Pass, t')
    ensures UserDirsPath(vars).Success?
    ensures ReadMerged(vars, t', denied, unreadable, defaults) ==
      if UserDirsPath(vars).value in unreadable then Failure(ReadFailed(ErrPermission)) else Success(m)
  {
    WriteThenRead(vars, t, denied, unreadable, defaults, m, order, t');
    MergeCovered(m, defaults);
  }

  /**
    WriteUserDirs leaves generated.dirs holding the header and one line per entry, where stat
    sees it; every other entry of the tree is kept, and what it adds besides is directories.
   */
  lemma WriteResult(vars: map<string, string>, t: Tree, denied: set<string>, content: string, t': Tree)
    requires WriteSpec(vars, t, denied, content) == (Pass, t')
    ensures UserDirsPath(vars).Success?
    ensures var path := UserDirsPath(vars).value;
      && StatIn(t', denied, path) == Success(File(content))
      && (forall p :: p in t && p != path ==> p in t' && t'[p] == t[p])
      && (forall p :: p in t' && p !in t && p != path ==> t'[p] == Dir)
  {
    WriteInResult(t, denied, XdgConfigDir(vars).value, content, t');
  }

  lemma WriteInResult(t: Tree, denied: set<string>, dir: string, content: string, t': Tree)
    requires WriteIn(t, denied, dir, content) == (Pass, t')
    ensures var path := PathJoin(dir, "generated.dirs");
      && StatIn(t', denied, path) == Success(File(content))
      && (forall p :: p in t && p != path ==> p in t' && t'[p] == t[p])
      && (forall p :: p in t' && p !in t && p != path ==> t'[p] == Dir)
  {
    var t1 := MkdirAllIn(t, denied, dir).1;
    var path := PathJoin(dir, "generated.dirs");
    MkdirAllGrows(t, denied, dir);
    var t2 := OpenTruncIn(t1, denied, path).1;
    assert t' == t2[path := File(content)];
    LookupShorter(t2, t', path);
  }

  /** A failed WriteUserDirs loses nothing: at most it has made some of the directories. */
  lemma WriteFailureKeepsTree(vars: map<string, string>, t: Tree, denied: set<string>, content: string)
    requires WriteSpec(vars, t, denied, content).0.Fail?
    ensures Grows(t, WriteSpec(vars, t, denied, content).1)
  {
    match XdgConfigDir(vars)
    case Failure(_) =>
    case Success(dir) => WriteInFailureKeepsTree(t, denied, dir, content);
  }

  lemma WriteInFailureKeepsTree(t: Tree, denied: set<string>, dir: string, content: string)
    requires WriteIn(t, denied, dir, content).0.Fail?
    ensures WriteIn(t, denied, dir, content).1 == MkdirAllIn(t, denied, dir).1
    ensures Grows(t, WriteIn(t, denied, dir, content).1)
  {
    MkdirAllGrows(t, denied, dir);
  }

  // ---------------------------------------------------------------- the loops of ReadUserDirs and WriteUserDirs

  /** One more line of the first loop of ReadUserDirs: an entry line sets its key, any other line changes nothing. */
  lemma ParseLinesStep(m: map<string, string>, lines: seq<string>, i: nat)
    requires i < |lines|
    ensures ParseLines(m, lines[..i + 1]) ==
      match ParseLine(lines[i])
      case Some((key, value)) => ParseLines(m, lines[..i])[key := value]
      case None => ParseLines(m, lines[..i])
  {
    MapSeqSnoc(ParseLine, lines, i);
    OverlaySnoc(m, Entries(lines[..i]), ParseLine(lines[i]));
  }

  /** Overlaying one more entry applies it to the overlay of the others. */
  lemma OverlaySnoc(m: map<string, string>, es: seq<Parsed>, e: Parsed)
    ensures Overlay(m, es + [e]) ==
      match e
      case Some((key, value)) => Overlay(m, es)[key := value]
      case None => Overlay(m, es)
  {
    assert (es + [e])[..|es|] == es;
  }

  /** The defaults for the keys in `keys`. */
  function Only(defaults: map<string, string>, keys: set<string>): (r: map<string, string>)
    ensures r.Keys == defaults.Keys * keys
    ensures forall k :: k in r ==> r[k] == defaults[k]
  {
    map k | k in defaults.Keys * keys :: defaults[k]
  }

  /** Merging no defaults changes nothing. */
  lemma MergeNone(u: map<string, string>)
    ensures Merge(u, map[]) == u
  {
  }

  /** One more key of the second loop of ReadUserDirs: a missing or empty value takes the default. */
  lemma MergeStep(u: map<string, string>, defaults: map<string, string>, done: set<string>, key: string)
    requires key in defaults && key !in done
    ensures var w := Merge(u, Only(defaults, done));
      Merge(u, Only(defaults, done + {key})) ==
        if key !in w || w[key] == "" then w[key := defaults[key]] else w
  {
    var w := Merge(u, Only(defaults, done));
    assert key in w <==> key in u;
    assert key in w ==> w[key] == u[key];
  }

  /** One more key of the loop of WriteUserDirs: its line goes after the lines before it. */
  lemma EntryLinesStep(m: map<string, string>, order: seq<string>, key: string)
    requires forall i :: 0 <= i < |order| ==> order[i] in m
    requires key in m
    ensures Unlines(EntryLines(m, order + [key])) == Unlines(EntryLines(m, order)) + EntryLine(key, m[key]) + "\n"
  {
    var lines := EntryLines(m, order + [key]);
    assert lines[..|order|] == EntryLines(m, order);
  }

  /** WriteIn when the directory and the file could be made: the file holds `content`. */
  lemma WriteInPass(t: Tree, denied: set<string>, dir: string, content: string)
    requires MkdirAllIn(t, denied, dir).0.Pass?
    requires OpenTruncIn(MkdirAllIn(t, denied, dir).1, denied, PathJoin(dir, "generated.dirs")).0.Pass?
    ensures WriteIn(t, denied, dir, content) ==
      (Pass, MkdirAllIn(t, denied, dir).1[PathJoin(dir, "generated.dirs") := File(content)])
  {
    var t1 := MkdirAllIn(t, denied, dir).1;
    var path := PathJoin(dir, "generated.dirs");
    assert t1[path := File("")][path := File(content)] == t1[path := File(content)];
  }

  /** The `XDGDirs` object: its directory map starts as the platform defaults. */
  class XDGDirs {
    /** What `github.com/adrg/xdg` computed; getDefaultXDGDirs reads it on every call. */
    const xdg: Platform
    var dirs: map<string, string>

    /** NewXDGDirs. */
    constructor (xdg: Platform)
      ensures this.xdg == xdg && dirs == GetDefaultXDGDirs(xdg)
    {
      this.xdg := xdg;
      dirs := GetDefaultXDGDirs(xdg);
    }

    /** ReadUserDirs: the file's entries over the defaults, then every missing or empty default filled in. */
    method ReadUserDirs(env: Environment, fs: FileSystem) returns (r: Result<map<string, string>, XdgError>)
      ensures r == ReadMerged(env.vars, fs.entries, fs.denied, fs.unreadable, GetDefaultXDGDirs(xdg))
    {
      var defaults := GetDefaultXDGDirs(xdg);
      var userDirs := defaults;
      var configHome := Getenv(env.vars, "XDG_CONFIG_HOME");
      if configHome == "" {
        var home := UserHomeDir(env.vars);
        if home.Failure? {
          return Failure(HomeDirFailed(home.error));
        }
        configHome := PathJoin(home.value, ".config");
      }
      var path := PathJoin(PathJoin(configHome, "xdg"), "generated.dirs");
      assert UserDirsPath(env.vars) == Success(path);
      if fs.Stat(path).Success? {
        var content := fs.ReadFile(path);
        if content.Failure? {
          return Failure(ReadFailed(content.error));
        }
        userDirs := ParseUserDirs(defaults, Split(content.value, '\n'));
      }
      userDirs := MergeDefaults(userDirs, defaults);
      return Success(userDirs);
    }

    /** The first loop of ReadUserDirs: each entry line of the file sets its key, later lines overriding earlier ones. */
    method ParseUserDirs(defaults: map<string, string>, lines: seq<string>) returns (userDirs: map<string, string>)
      ensures userDirs == ParseLines(defaults, lines)
    {
      userDirs := defaults;
      var i := 0;
      while i < |lines|
        invariant i <= |lines|
        invariant userDirs == ParseLines(defaults, lines[..i])
      {
        ParseLinesStep(defaults, lines, i);
        match ParseLine(lines[i]) {
          case Some((key, value)) =>
            userDirs := userDirs[key := value];
          case None =>
        }
        i := i + 1;
      }
      assert lines[..i] == lines;
    }

    /** The second loop of ReadUserDirs: every default key whose value is missing or empty gets the default. */
    method MergeDefaults(parsed: map<string, string>, defaults: map<string, string>) returns (userDirs: map<string, string>)
      ensures userDirs == Merge(parsed, defaults)
    {
      userDirs := parsed;
      MergeNone(parsed);
      var keys := defaults.Keys;
      ghost var done: set<string> := {};
      while keys != {}
        invariant keys == defaults.Keys - done && done <= defaults.Keys
        invariant userDirs == Merge(parsed, Only(defaults, done))
        decreases keys
      {
        var key :| key in keys;
        MergeStep(parsed, defaults, done, key);
        if key !in userDirs || userDirs[key] == "" {
          userDirs := userDirs[key := defaults[key]];
        }
        keys := keys - {key};
        done := done + {key};
      }
      assert Only(defaults, done) == defaults;
    }

    /**
      WriteUserDirs: the file ends up holding the header and one line per entry of `userDirs`,
      in the order `order` in which the map was visited.
     */
    method WriteUserDirs(env: Environment, fs: FileSystem, userDirs: map<string, string>)
      returns (err: Outcome<XdgError>, ghost order: seq<string>)
      modifies fs
      ensures IsOrdering(order, userDirs.Keys)
      ensures (err, fs.entries) == WriteSpec(env.vars, old(fs.entries), fs.denied, Render(userDirs, order))
    {
      order := Enumerate(userDirs.Keys);
      var configHome := Getenv(env.vars, "XDG_CONFIG_HOME");
      if configHome == "" {
        var home := UserHomeDir(env.vars);
        if home.Failure? {
          return Fail(HomeDirFailed(home.error)), order;
        }
        configHome := PathJoin(home.value, ".config");
      }
      var dir := PathJoin(configHome, "xdg");
      assert XdgConfigDir(env.vars) == Success(dir);
      err, order := WriteFile(fs, dir, userDirs);
    }

    /** The part of WriteUserDirs after the configuration directory is known: make it, then write the file in it. */
    method WriteFile(fs: FileSystem, dir: string, userDirs: map<string, string>)
      returns (err: Outcome<XdgError>, ghost order: seq<string>)
      modifies fs
      ensures IsOrdering(order, userDirs.Keys)
      ensures (err, fs.entries) == WriteIn(old(fs.entries), fs.denied, dir, Render(userDirs, order))
    {
      order := Enumerate(userDirs.Keys);
      var made := fs.MkdirAll(dir);
      if made.Fail? {
        return Fail(ConfigDirFailed(made.error)), order;
      }
      ghost var made_tree := fs.entries;
      var path := PathJoin(dir, "generated.dirs");
      var created := fs.OpenTrunc(path);
      if created.Fail? {
        return Fail(CreateFileFailed(created.error)), order;
      }
      assert fs.entries == made_tree[path := File("")];
      fs.WriteString(path, Header);
      AppendEmpty(Header);
      UpdateTwice(made_tree, path, File(""), File("" + Header));
      order := WriteEntries(fs, path, userDirs);
      UpdateTwice(made_tree, path, File(Header), File(Render(userDirs, order)));
      WriteInPass(old(fs.entries), fs.denied, dir, Render(userDirs, order));
      return Pass, order;
    }

    /** The loop of WriteUserDirs: one `key="value"` line per entry, appended in the order the map is visited. */
    method WriteEntries(fs: FileSystem, path: string, userDirs: map<string, string>) returns (ghost order: seq<string>)
      requires path in fs.entries && fs.entries[path].File?
      modifies fs
      ensures IsOrdering(order, userDirs.Keys)
      ensures fs.entries == old(fs.entries)[path := File(old(fs.entries)[path].content + Unlines(EntryLines(userDirs, order)))]
    {
      ghost var start := fs.entries;
      ghost var text := start[path].content;
      var keys := userDirs.Keys;
      order := [];
      assert Unlines(EntryLines(userDirs, order)) == "";
      AppendEmpty(text);
      assert start == start[path := File(text + "")];
      while keys != {}
        invariant keys <= userDirs.Keys
        invariant IsOrdering(order, userDirs.Keys - keys)
        invariant forall i :: 0 <= i < |order| ==> order[i] in userDirs
        invariant fs.entries == start[path := File(text + Unlines(EntryLines(userDirs, order)))]
        decreases keys
      {
        var key :| key in keys;
        ghost var before := Unlines(EntryLines(userDirs, order));
        var line := EntryLine(key, userDirs[key]);
        fs.WriteString(path, line + "\n");
        EntryLinesStep(userDirs, order, key);
        AppendAfter(text, before, line + "\n");
        assert before + (line + "\n") == before + line + "\n";
        UpdateTwice(start, path, File(text + before), File(text + (before + (line + "\n"))));
        OrderingSnoc(order, userDirs.Keys - keys, key);
        assert userDirs.Keys - (keys - {key}) == (userDirs.Keys - keys) + {key};
        order := order + [key];
        keys := keys - {key};
      }
      assert userDirs.Keys - keys == userDirs.Keys;
    }
  }
}
