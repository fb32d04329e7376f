# xdg-dirs core, modelled in Dafny

xdg-dirs keeps a user's XDG base and user directories in one file,
`<config>/xdg/generated.dirs`, and prints them as `export` lines for a shell. This project
models the three packages that make its decisions:

- **`internal/xdgdirs`** (`xdgdirs.dfy`, module `XdgDirs`) holds the defaults and the reader and writer of `generated.dirs`.
  - **Defaults.** There are thirteen default keys. The platform supplies their values.
  - **Path.** The file lives at `<config>/xdg/generated.dirs`. `<config>` is `$XDG_CONFIG_HOME` when it is non-empty, or `<home>/.config` otherwise.
  - **Parser.** The parser is lenient. Only lines that start with `XDG_` and contain `=` are entries. A line is cut at its first `=`. The key is trimmed of white space. The value is trimmed of white space and then of every leading and trailing `"`.
  - **Merge.** Entries overlay the defaults, and the last line for a key wins. Then every default key whose value is missing or empty gets its default.
  - **Writer.** The writer makes the directory and truncates the file. It writes the comment header of xdg-user-dirs' `user-dirs.dirs`, then one `KEY="value"` line per entry.
- **`internal/updater`** (`updater.dfy`, module `Updater`) holds the reconciler and the export formatter.
  - **`Update`.** Nothing happens in a dry run. Otherwise `ensureDirectories` runs first, when `createDirs` is set, and then `generated.dirs` is written.
  - **`ensureDirectories`.** It skips empty values. A resolved path must be absolute. A missing path is created with its parents. A path that exists must be a directory. The first failure ends the loop.
  - **`ExportEnv`.** It prints one `export K="V"` line per `XDG_` key of the merged map, then one per default key the merged map lacks. The lines are joined by newlines.
- **`internal/setup`** (`setup.dfy`, module `Setup`) prepares the environment.
  - **Unset.** It unsets the thirteen XDG variables that are set to a non-empty value and records them.
  - **Backup.** It moves a legacy `~/.config/user-dirs.dirs` to `~/.config/xdg/user-dirs.dirs-backup`.

The supporting modules model the parts of Go's standard library the core calls:

- **`wrappers.dfy`**: Option, Result, and an Outcome for calls that return only an error.
- **`text.dfy`**: `strings.Split`, `SplitN(…, 2)`, `Join`, `TrimSpace`, `Trim(…, "\"")`, `HasPrefix`.
- **`collections.dfy`**: visiting the keys of a map in some order.
- **`os.dfy`**: the process environment and the filesystem.
  - The filesystem is a class over a flat map from paths to `Dir` or `File(content)`.
  - The directories above a path are walked as the kernel walks them: a missing one gives ENOENT, a regular file ENOTDIR.
  - A set of `denied` paths makes every system call on them fail with EACCES. A set of `unreadable` paths makes only `ReadFile` fail, as a file without read permission does.
  - `Rename` moves a whole subtree.
  - The system calls are `Stat`, `ReadFile`, `MkdirAll`, an `OpenFile` with `O_TRUNC`, `WriteString` and `Rename`.

Code that changes state in place is a method, proved equal to a specification function:

- the environment, the filesystem, `XDGDirs` and `Updater` are classes;
- `ReadUserDirs`, `WriteUserDirs`, `Update`, `ensureDirectories`, `ExportEnv`, `unsetXDGEnvVars`, `backupUserDirsFile` and `Prepare` are those methods.

The properties are lemmas about those functions.

Go does not fix the order in which a `range` over a map visits its keys. Each such loop therefore picks an arbitrary remaining key. The method returns the order it used as a ghost value, and the specification function takes that order as a parameter. Where the result does not depend on the order, the lemmas hold for every order.

## Model

| member | source | states |
|---|---|---|
| XdgDirs.GetDefaultXDGDirs | internal/xdgdirs/xdgdirs.go:31-47 | the defaults have exactly the thirteen XDG keys, and each key is one the writer and the parser agree on |
| XdgDirs.DefaultKeysWellFormed | internal/xdgdirs/xdgdirs.go:32-46 | every default key starts with `XDG_` and holds no `=`, white space or newline |
| XdgDirs.XDGDirs.constructor | internal/xdgdirs/xdgdirs.go:24-29 | a new XDGDirs holds the platform defaults in `Dirs` |
| XdgDirs.ConfigHome | internal/xdgdirs/xdgdirs.go:54-62 | `$XDG_CONFIG_HOME` is used whenever it is non-empty; the lookup fails exactly when it and `$HOME` are both empty; a result is never empty |
| XdgDirs.ParseLine | internal/xdgdirs/xdgdirs.go:75-80 | a line is an entry iff it starts with `XDG_` and contains `=`; the key keeps its prefix and has no `=` and no trailing white space; the value has no `"` at either end |
| XdgDirs.KeyPartOfEntry | internal/xdgdirs/xdgdirs.go:75-78 | the text before the first `=` of an `XDG_` line, once trimmed, is a key of that form |
| XdgDirs.CommentIsNoEntry | internal/xdgdirs/xdgdirs.go:75 | a `#` comment line is never an entry |
| XdgDirs.HeaderHasNoEntries | internal/xdgdirs/xdgdirs.go:123 | no line of the written header holds a newline, and the parser skips every one of them |
| XdgDirs.OverlayAppend | internal/xdgdirs/xdgdirs.go:74-83 | reading the lines in two parts gives the same map as reading them all at once |
| XdgDirs.LastOccurrenceWins | internal/xdgdirs/xdgdirs.go:74-80 | when a key is on several lines, the last of them decides its value |
| XdgDirs.UndefinedKeyKept | internal/xdgdirs/xdgdirs.go:74-80 | a key that no line defines keeps its presence and its value |
| XdgDirs.Overlay | internal/xdgdirs/xdgdirs.go:74-83 | the map after the line loop: each entry, in order, sets its key, so a later entry overrides an earlier one |
| XdgDirs.ParseLines | internal/xdgdirs/xdgdirs.go:73-83 | the line loop over the lines of the file, each parsed by ParseLine |
| XdgDirs.OverlayKeys | internal/xdgdirs/xdgdirs.go:74-83 | a key is in the overlay iff it was in the map or some entry sets it |
| XdgDirs.ParseLinesKeys | internal/xdgdirs/xdgdirs.go:73-83 | a key is in the map after the line loop iff it was in the defaults or some line defines it |
| XdgDirs.Merge | internal/xdgdirs/xdgdirs.go:88-94 | the default loop: a default key whose value is missing or empty takes the default; every other value is kept |
| XdgDirs.MergeIdempotent | internal/xdgdirs/xdgdirs.go:88-94 | merging the merged map with the same defaults again changes nothing |
| XdgDirs.MergeFillsDefaults | internal/xdgdirs/xdgdirs.go:88-94 | after the merge every default key is present, with the parsed value when that is non-empty and the default otherwise, so it is empty only when its default is |
| XdgDirs.UserDirsPath | internal/xdgdirs/xdgdirs.go:54-63 | the file read is `<config>/xdg/generated.dirs`, `<config>` as ConfigHome gives it |
| XdgDirs.ReadMerged | internal/xdgdirs/xdgdirs.go:49-97 | ReadUserDirs: the home-lookup error, the defaults when stat fails, a ReadFile error, or the parsed lines over the defaults, merged |
| XdgDirs.ReadMissingFile | internal/xdgdirs/xdgdirs.go:66-96 | when stat fails for any reason, the result is exactly the defaults and no error |
| XdgDirs.ReadErrors | internal/xdgdirs/xdgdirs.go:54-71 | reading fails iff `$XDG_CONFIG_HOME` and `$HOME` are both empty, or stat sees the file but ReadFile cannot read it; a missing home gives the home-directory error, an unreadable file EACCES and a directory EISDIR |
| XdgDirs.ReadCoversDefaults | internal/xdgdirs/xdgdirs.go:89-94 | every default key is in a successful result |
| XdgDirs.ReadKeys | internal/xdgdirs/xdgdirs.go:66-94 | for a file ReadFile can read, a key is in the result iff it is a default key or some line of the file defines it |
| XdgDirs.ReadLastLineDecides | internal/xdgdirs/xdgdirs.go:66-94 | for a file ReadFile can read, the last line for a key sets it in the result: a non-empty value, or any value of a non-default key, is kept; an empty value of a default key becomes the default |
| XdgDirs.ReadUndefinedKey | internal/xdgdirs/xdgdirs.go:66-94 | for a file ReadFile can read, a key that no line defines is in the result iff it is a default key, with the default value |
| XdgDirs.CutEntryLine | internal/xdgdirs/xdgdirs.go:76 | a written line is cut into the key and the quoted value, even when the value itself contains `=` |
| XdgDirs.ParseEntryLine | internal/xdgdirs/xdgdirs.go:75-80 | parsing a written `KEY="value"` line gives back the key and value, for a well-formed key and a value without a newline or end quotes |
| XdgDirs.EntryLine | internal/xdgdirs/xdgdirs.go:130 | one written entry line, `KEY="value"`, without its newline |
| XdgDirs.Render | internal/xdgdirs/xdgdirs.go:123-135 | the whole written text: the comment header of line 123, then one entry line and a newline per key, in write order |
| XdgDirs.RenderLines | internal/xdgdirs/xdgdirs.go:123-135 | splitting the written text at newlines gives the header lines, one entry line per key in write order, and a final empty string |
| XdgDirs.EntryLinesHaveNoNewline | internal/xdgdirs/xdgdirs.go:130 | no entry line of well-formed keys and values holds a newline |
| XdgDirs.ParseRender | internal/xdgdirs/xdgdirs.go:73-83 | parsing the written text over a map `d` gives `d` overlaid with the written map, whatever the write order |
| XdgDirs.WriteThenRead | internal/xdgdirs/xdgdirs.go:99-135 | after a successful write of a well-formed map, reading gives that map merged with the defaults, or EACCES when the file cannot be opened for reading |
| XdgDirs.WriteThenReadExact | internal/xdgdirs/xdgdirs.go:99-135 | a written map that gives every default key a non-empty value reads back exactly, unless the file cannot be opened for reading |
| XdgDirs.WriteSpec | internal/xdgdirs/xdgdirs.go:99-139 | WriteUserDirs writing a given text: the home-lookup error, or the write in `<config>/xdg` |
| XdgDirs.WriteIn | internal/xdgdirs/xdgdirs.go:109-135 | MkdirAll of the directory, then the truncating open of `generated.dirs`, then the text, each failure wrapped in its own error |
| XdgDirs.XdgConfigDir | internal/xdgdirs/xdgdirs.go:100-109 | the directory written is `<config>/xdg`, or the home-directory error |
| XdgDirs.WriteResult | internal/xdgdirs/xdgdirs.go:109-135 | after a successful write stat sees the file, which holds exactly the new text, with the old content discarded; every other entry is kept; whatever is new is a directory |
| XdgDirs.WriteInResult | internal/xdgdirs/xdgdirs.go:109-135 | the same, for the file in a given configuration directory |
| XdgDirs.WriteFailureKeepsTree | internal/xdgdirs/xdgdirs.go:100-120 | a write that fails at the home lookup, at MkdirAll or at the open removes and changes no entry; at most directories were made |
| XdgDirs.WriteInFailureKeepsTree | internal/xdgdirs/xdgdirs.go:109-120 | a write that fails at MkdirAll or at the open leaves exactly what MkdirAll made |
| XdgDirs.XDGDirs.ReadUserDirs | internal/xdgdirs/xdgdirs.go:49-97 | the method returns the specified read of the environment and the filesystem with the platform defaults |
| XdgDirs.XDGDirs.ParseUserDirs | internal/xdgdirs/xdgdirs.go:73-83 | the line loop builds the defaults overlaid with the file's entries |
| XdgDirs.XDGDirs.MergeDefaults | internal/xdgdirs/xdgdirs.go:89-94 | the default loop builds the merge |
| XdgDirs.XDGDirs.WriteUserDirs | internal/xdgdirs/xdgdirs.go:99-139 | the error and the new filesystem are the specified write of the header and the entries, in an order that visits every key once |
| XdgDirs.XDGDirs.WriteFile | internal/xdgdirs/xdgdirs.go:109-135 | mkdir, truncate and write in a given configuration directory are the specified write |
| XdgDirs.XDGDirs.WriteEntries | internal/xdgdirs/xdgdirs.go:129-135 | the loop appends one entry line per key, in an order that visits every key once, and changes nothing else |
| Text.SplitN2 | internal/xdgdirs/xdgdirs.go:76-77 | there are two parts iff the separator occurs; they are cut at its first occurrence |
| Text.Split | internal/xdgdirs/xdgdirs.go:73 | there is at least one part, and no part holds the separator |
| Text.JoinOfSplit | internal/xdgdirs/xdgdirs.go:73 | joining the parts of a split gives the text back |
| Text.SplitOfJoin | internal/updater/updater.go:107 | splitting a join of one or more separator-free parts gives the parts back |
| Text.TrimLeftFunc | internal/xdgdirs/xdgdirs.go:78-79 | the result is a suffix that does not start with a trimmed character |
| Text.TrimRightFunc | internal/xdgdirs/xdgdirs.go:78-79 | the result is a prefix that does not end with a trimmed character |
| Text.TrimQuotesEnds | internal/xdgdirs/xdgdirs.go:79 | after the quote trim, neither end is a `"` |
| Text.TrimQuotedValue | internal/xdgdirs/xdgdirs.go:79 | trimming `"v"` gives `v` back, for a `v` without end quotes |
| Text.IsSpace | internal/xdgdirs/xdgdirs.go:78 | the white space `strings.TrimSpace` removes: the ASCII space characters and the other `unicode.IsSpace` characters |
| Text.TrimSpace | internal/xdgdirs/xdgdirs.go:78-79 | `strings.TrimSpace`: leading and trailing white space removed |
| Text.TrimQuotes | internal/xdgdirs/xdgdirs.go:79 | `strings.Trim(s, "\"")`: every leading and trailing `"` removed |
| Text.HasPrefix | internal/updater/updater.go:94 | `strings.HasPrefix` |
| Text.Join | internal/updater/updater.go:107 | `strings.Join` with a one-character separator |
| Os.MkdirAllIn | internal/updater/updater.go:67 | success leaves the path a directory that stat sees; a path stat already sees as a directory is success with no change |
| Os.MkdirAllGrows | internal/setup/setup.go:56 | MkdirAll keeps every entry and adds only directories |
| Os.Getenv | internal/xdgdirs/xdgdirs.go:54 | `os.Getenv`: an unset variable reads as `""` |
| Os.UserHomeDir | internal/setup/setup.go:39-43 | `os.UserHomeDir` on Unix: `$HOME`, an error when it is empty |
| Os.PathJoin | internal/xdgdirs/xdgdirs.go:61-63 | `filepath.Join` of two elements, with one separator between them |
| Os.IsAbs | internal/updater/updater.go:59 | `filepath.IsAbs` on Unix: the path starts with `/` |
| Os.MkdirParent | internal/updater/updater.go:67 | the parent `os.MkdirAll` makes first is strictly shorter than the path |
| Os.Lookup | internal/updater/updater.go:65-66 | the walk through the directories above a path, root first: ENOENT at the first missing one, ENOTDIR at the first regular file |
| Os.LookupShorter | internal/updater/updater.go:65-66 | the walk depends only on the entries at shorter paths |
| Os.LookupGrows | internal/updater/updater.go:65-67 | a walk that finds every directory still does after the tree has only grown |
| Os.LookupUpdate | internal/xdgdirs/xdgdirs.go:116-123 | a walk that finds every directory still does after an entry that was not a directory is written |
| Os.StatIn | internal/updater/updater.go:65-66 | `os.Stat`: EACCES on a denied path, then the walk's error, then the entry or ENOENT |
| Os.StatBelowFile | internal/setup/setup.go:46-51 | below a regular file that stat sees, stat fails with ENOTDIR |
| Os.StatGrows | internal/updater/updater.go:65-67 | what stat finds it still finds after the tree has only grown |
| Os.StatUpdate | internal/xdgdirs/xdgdirs.go:116-123 | a directory stat finds is still found after an entry that was not a directory is written |
| Os.ReadFileIn | internal/xdgdirs/xdgdirs.go:67-71 | `ioutil.ReadFile` succeeds iff stat sees a regular file that is not unreadable; otherwise the stat error, EACCES or EISDIR |
| Os.ParentOfJoin | internal/setup/setup.go:56 | the parent os.MkdirAll sees in a joined path is the directory it was joined to |
| Os.OpenTruncIn | internal/xdgdirs/xdgdirs.go:116 | a successful open leaves an empty file at the path, which stat sees; a failed one changes nothing |
| Os.Rerooted | internal/setup/setup.go:60 | the new place of an entry within the renamed path lies within the destination, at the same depth below it |
| Os.Unrooted | internal/setup/setup.go:60 | where an entry now within the destination was before the rename: a path within the source |
| Os.UnrootRerooted | internal/setup/setup.go:60 | moving an entry from the source to the destination and back gives the path it started at, so no two entries land on one place |
| Os.Moved | internal/setup/setup.go:60 | the moved subtree holds every entry within the source at its new place, and only paths within the destination |
| Os.WithinBoth | internal/setup/setup.go:60 | a path within two paths lies within the one of them that is equal to or below the other |
| Os.RerootMoves | internal/setup/setup.go:60 | when neither path is below the other, the move places every entry within the source under the destination, leaves nothing within the source, keeps every entry outside both and adds nothing outside the destination |
| Os.Within | internal/setup/setup.go:60 | the entries `os.Rename` moves: the source path and every path below it |
| Os.Reroot | internal/setup/setup.go:60 | the tree after the move: every entry outside the source, and the moved subtree over it |
| Os.RenameIn | internal/setup/setup.go:60 | `os.Rename` on Unix: a directory that stat sees at the destination makes it fail with EEXIST, or with the source's stat error, and change nothing; any failed rename changes nothing; a successful one had a source stat sees and moves every entry within the source to its place within the destination, leaves nothing within the source, keeps every entry outside both and adds nothing outside the destination |
| Os.RenameOntoDirectory | internal/setup/setup.go:60 | with a source stat sees and a directory stat sees at the destination, `os.Rename` fails with EEXIST and changes nothing |
| Os.RenamePasses | internal/setup/setup.go:60 | a rename succeeds iff stat sees the source, the destination is not denied and its directories exist, whatever is at the destination is a file and so is the source, and, for two different paths, neither lies below the other |
| Os.Environment.Unsetenv | internal/setup/setup.go:31 | the variable is removed from the environment |
| Os.FileSystem.MkdirAll | internal/updater/updater.go:67 | the method is the specified MkdirAll |
| Os.FileSystem.OpenTrunc | internal/xdgdirs/xdgdirs.go:116 | the method is the specified truncating open |
| Os.FileSystem.WriteString | internal/xdgdirs/xdgdirs.go:123 | the text is appended to the file and nothing else changes |
| Os.FileSystem.Rename | internal/setup/setup.go:60 | the method is the specified `os.Rename`: EEXIST onto a directory, otherwise the move of a whole subtree |
| Updater.Updater.constructor | internal/updater/updater.go:18-23 | a new Updater owns a fresh XDGDirs holding the platform defaults |
| Updater.Updater.Update | internal/updater/updater.go:25-46 | the error and the new filesystem are the specified update, with both loops visiting every key once |
| Updater.UpdateDryRun | internal/updater/updater.go:26-29 | a dry run succeeds and changes nothing |
| Updater.UpdateWithoutCreate | internal/updater/updater.go:31-42 | without `createDirs` no directory is checked; the result is that of the write, with a write error wrapped with the generated.dirs path |
| Updater.GeneratedDirsPath | internal/updater/updater.go:38 | the path named in a write error, built from `$HOME` |
| Updater.UpdateSpec | internal/updater/updater.go:25-46 | Update: nothing in a dry run; the directory loop when `createDirs` is set; then the write, its error wrapped with GeneratedDirsPath |
| Updater.UpdateEnsureFailure | internal/updater/updater.go:31-35 | when ensureDirectories fails, Update returns its error and nothing is written; at most directories were made |
| Updater.UpdateRefusesFile | internal/updater/updater.go:25-36 | with createDirs, a value whose path is a regular file makes Update fail in ensureDirectories, whatever the order; generated.dirs is not written, and at most directories were made |
| Updater.WriteKeepsDirs | internal/updater/updater.go:38-42 | writing generated.dirs keeps every directory stat sees |
| Updater.UpdateMakesDirs | internal/updater/updater.go:25-42 | after a successful update with `createDirs`, every non-empty value of any map resolves to a path that stat sees as a directory |
| Updater.UpdateEstablishes | internal/updater/updater.go:25-46 | after a successful update of a well-formed map, reading gives back the written map merged with the defaults, or EACCES when the file cannot be opened for reading |
| Updater.Updater.EnsureDirectories | internal/updater/updater.go:48-82 | nothing without `createDirs`; otherwise the specified loop over an order that visits every key once |
| Updater.Updater.EnsureEach | internal/updater/updater.go:52-81 | the loop's error and filesystem are the specified loop, over an order that visits every key once |
| Updater.Updater.EnsureDirectory | internal/updater/updater.go:53-79 | one iteration of the loop is the specified check of one entry |
| Updater.EnsureOne | internal/updater/updater.go:53-79 | one iteration: skip an empty value; refuse a relative path; make a missing one; report any other stat error; accept a directory; refuse anything else |
| Updater.EnsureAll | internal/updater/updater.go:52-81 | the loop over the keys in a given order, stopping at the first error |
| Updater.EnsureSpec | internal/updater/updater.go:48-82 | ensureDirectories: nothing without `createDirs`, the loop otherwise |
| Updater.EnsureOneGrows | internal/updater/updater.go:65-72 | one iteration keeps every entry and adds only directories |
| Updater.EnsureOnePass | internal/updater/updater.go:56-79 | a non-empty value that passes resolves to an absolute path that stat now sees as a directory |
| Updater.EnsureOneDone | internal/updater/updater.go:53-79 | an empty value, or one whose path stat already sees as a directory, passes with no change |
| Updater.EnsureOneFail | internal/updater/updater.go:53-79 | a failure comes only from a non-empty value and names its key |
| Updater.EnsureOneInvalid | internal/updater/updater.go:59-62 | a path that is not absolute is refused with that key and path before any stat or mkdir |
| Updater.EnsureOneNotDir | internal/updater/updater.go:65-78 | a path that stat sees as a regular file fails with NotADirectory, naming the key and the path, and changes nothing |
| Updater.EnsureOneBelowFile | internal/updater/updater.go:65-75 | a path below a regular file fails to be checked with ENOTDIR, with no change |
| Updater.EnsureAllGrows | internal/updater/updater.go:52-80 | the loop keeps every entry, including directories made before a failure, and adds only directories |
| Updater.EnsuredDirs | internal/updater/updater.go:52-81 | after a successful loop every non-empty value resolves to an absolute path that stat sees as a directory |
| Updater.EnsureAllFailStays | internal/updater/updater.go:52-80 | after the first failure the remaining keys change nothing |
| Updater.EnsureAllFailNamesKey | internal/updater/updater.go:52-80 | the loop's error names a visited key with a non-empty value |
| Updater.EnsureAllRefusesRelative | internal/updater/updater.go:59-62 | a non-empty value that does not resolve to an absolute path makes the loop fail, whatever the order |
| Updater.EnsureAllRefusesFile | internal/updater/updater.go:52-81 | a non-empty value whose path stat sees as a regular file makes the loop fail, whatever the order |
| Updater.EnsureAllAgain | internal/updater/updater.go:52-81 | running the loop again after a success, in any order, succeeds and changes nothing |
| Updater.EnsureStopsEarly | internal/updater/updater.go:52-80 | returning at a failure gives the same result as visiting the remaining keys too |
| Updater.Updater.GetUserDirs | internal/updater/updater.go:84-86 | the result is the specified read with the owned XDGDirs' platform defaults |
| Updater.ExportLines | internal/updater/updater.go:93-105 | one line per key, `export K="V"`, with the merged value when there is one and the default otherwise, empty values included |
| Updater.ExportLine | internal/updater/updater.go:95 | one line, `export KEY="value"` |
| Updater.ExportValue | internal/updater/updater.go:93-104 | the value exported for a key: the merged one when there is one, else the default |
| Updater.ExportKeysOnce | internal/updater/updater.go:88-105 | together the two loops visit every `XDG_` key of either map exactly once |
| Updater.ExportLinesHaveNoNewline | internal/updater/updater.go:95 | export lines of newline-free keys and values hold no newline |
| Updater.ExportSplits | internal/updater/updater.go:107 | no keys give the empty string; otherwise splitting the output at newlines gives back the lines, with no trailing newline |
| Updater.DefaultsVisitStep | internal/updater/updater.go:100-104 | the second loop exports a key only if it is an unseen `XDG_` key; that key is missing from the merged map and gets its default |
| Updater.Updater.ExportEnv | internal/updater/updater.go:88-108 | the output is the export lines of the merged `XDG_` keys, then of the default `XDG_` keys they lack, joined by newlines |
| Updater.Updater.ExportMerged | internal/updater/updater.go:93-98 | the first loop exports every `XDG_` key of the merged map with its value and marks each one as seen |
| Updater.Updater.ExportDefaults | internal/updater/updater.go:100-105 | the second loop exports every default `XDG_` key the merged map lacks, with its default value |
| Setup.NonEmptyVars | internal/setup/setup.go:28-33 | a variable is in the result iff it is listed and set to a non-empty value |
| Setup.Unsets | internal/setup/setup.go:27-33 | the unset loop over the list: the environment without the listed non-empty variables, and their names in list order |
| Setup.UnsetsClears | internal/setup/setup.go:28-33 | after the loop no listed variable reads as non-empty |
| Setup.UnsetsKeepsEmpty | internal/setup/setup.go:29 | a variable set to `""` stays set to `""` |
| Setup.UnsetsKeepsOthers | internal/setup/setup.go:21-33 | a variable that is not listed is unchanged |
| Setup.UnsetsRemoves | internal/setup/setup.go:28-33 | a variable is removed iff it is listed and was non-empty, and nothing is added |
| Setup.UnsetsKeepsValues | internal/setup/setup.go:28-33 | every remaining variable keeps its value |
| Setup.UnsetsRecords | internal/setup/setup.go:27-33 | the recorded names are exactly the listed non-empty variables, in list order |
| Setup.XdgEnvVarsDistinct | internal/setup/setup.go:21-26 | no name is listed twice |
| Setup.HomeSurvivesUnset | internal/setup/setup.go:14-17 | the unset step leaves the home directory lookup unchanged |
| Setup.UnsetXDGEnvVars | internal/setup/setup.go:20-36 | the method always succeeds; the new environment and the recorded names are the specified unset loop |
| Setup.BackupPathsDiffer | internal/setup/setup.go:44-56 | the legacy file, the backup directory and the backup file are three different paths, and the backup directory is the backup file's parent |
| Setup.BackupWithoutHome | internal/setup/setup.go:39-43 | without a home directory the backup fails and nothing changes |
| Setup.BackupSpec | internal/setup/setup.go:38-66 | backupUserDirsFile: the home error; nothing when stat reports not-exist; any other stat error; otherwise MkdirAll of the backup directory, then `os.Rename`, whose error is returned |
| Setup.ConfigDir | internal/setup/setup.go:44 | `<home>/.config`, the first two elements of both joins |
| Setup.LegacyFile | internal/setup/setup.go:44 | the legacy file `<home>/.config/user-dirs.dirs` |
| Setup.BackupFile | internal/setup/setup.go:55 | the backup `<home>/.config/xdg/user-dirs.dirs-backup` |
| Setup.BackupDir | internal/setup/setup.go:56 | `filepath.Dir` of the backup file, `<home>/.config/xdg` |
| Setup.BackupWithoutLegacyFile | internal/setup/setup.go:44-52 | when stat of the legacy file reports not-exist the backup succeeds with no change; any other stat error, EACCES or ENOTDIR below a regular file, is returned with no change |
| Setup.BackupBelowFile | internal/setup/setup.go:44-51 | with `<home>/.config` a regular file, the backup returns ENOTDIR and changes nothing |
| Setup.BackupOntoDirectory | internal/setup/setup.go:55-63 | with a legacy file stat sees and a directory already at the backup path, the backup returns EEXIST and changes nothing |
| Setup.BackupMoves | internal/setup/setup.go:44-64 | a successful backup of a legacy file stat sees moves it, and everything below it, to the backup path; nothing is left within the legacy path, so stat reports it missing; stat sees the backup directory; every entry outside the two paths is kept |
| Setup.MoveInto | internal/setup/setup.go:56-63 | making a directory and then renaming a longer path to a still longer one moves the subtree and keeps the rest; the directory is still one stat sees and the source is gone |
| Setup.BackupFailureKeeps | internal/setup/setup.go:38-63 | a failed backup removes and changes no entry; at most directories were made |
| Setup.BackupAgain | internal/setup/setup.go:38-66 | backing up again after a success finds no legacy file and changes nothing |
| Setup.BackupUserDirsFile | internal/setup/setup.go:38-66 | the error and the new filesystem are the specified backup |
| Setup.Prepare | internal/setup/setup.go:13-18 | the environment is the result of the unset loop; the backup then runs and is the specified backup of the original filesystem with the original home directory |

## Left out

- Logging (`internal/logger`), the static help text (`internal/conf`) and the two commands under `cmd/` are not part of this model. Log calls change nothing the model observes.
- The `sync.Mutex` of XDGDirs, and races with other processes, are left out: the model is sequential.
- The permission modes 0700, 0755 and 0644 are not recorded, because the filesystem model has no permission bits. A path on which every system call fails with EACCES is in the `denied` set. A file stat sees but ReadFile cannot open is in the `unreadable` set. Ownership, search permission on the directories above a path and read-only filesystems are not modelled apart from these two sets.
- The platform defaults from `github.com/adrg/xdg` are the fields of a `Platform` value. How that library computes them is not modelled.
- `os.ExpandEnv` and `filepath.Clean` in ensureDirectories are the parameter `resolve`. The model says nothing about how a value becomes a path. `filepath.IsAbs` is "starts with `/`".
- `filepath.Join` is modelled as joining with one `/` and does not clean its result. The `filepath.Clean` at internal/xdgdirs/xdgdirs.go:114 is left out for the same reason, so the read path and the write path are the same string by construction.
- `filepath.Dir` of the backup file is modelled by the join it was built from: the backup directory is `<home>/.config/xdg`.
- `os.UserHomeDir` follows its Unix rule: `$HOME`, and an error when that is empty.
- XdgDirs.XDGDirs.WriteFile: errors from `WriteString` after the file was opened (internal/xdgdirs/xdgdirs.go:124-127 and :131-134) are not modelled, because the filesystem model has no failure for writing to an open file. Closing the file is not modelled either.
- XdgDirs.WriteFailureKeepsTree: a failure of `WriteString` (internal/xdgdirs/xdgdirs.go:124-127, :131-134) happens after `O_TRUNC` has emptied the file and may leave part of the text. The model has no such failure, so the lemma covers only failures at the home lookup, at MkdirAll and at the open.
- XdgDirs.WriteInFailureKeepsTree: for the same reason, it covers only failures at MkdirAll and at the open. An emptied or partly written file after a failed `WriteString` is not modelled.
- Os.RenameIn: `os.Rename` is modelled on Unix and on one filesystem. Its first stat of the destination, which refuses any directory there with EEXIST, is modelled, and `rename(2)` after it. `os.SameFile` always differs for two different paths, since there are no hard links or case-insensitive names. There are no devices, so EXDEV is not modelled. There are no symbolic links, so Lstat is stat. Paths are compared as strings without cleaning.
- The comment header is written as concatenations of short pieces. The text is the same as the source's.
- Setup.UnsetXDGEnvVars: the source only logs the names it unset. The model returns them, so that what was recorded can be stated.
- Go map order is a ghost ordering returned by each loop. The model does not fix which order Go picks.

## Where the code and its description differ

- **Quotes.** The description strips a single layer of quotes from a value. The code uses `strings.Trim(…, "\"")`, which strips every leading and trailing `"` (internal/xdgdirs/xdgdirs.go:79). The model follows the code.
- **Stat errors.** The code has an error for a stat failure other than "does not exist" in ensureDirectories (internal/updater/updater.go:73-75), which the description does not list. The model has it as `CheckFailed`.
- **Error path.** The path Update names in a write error is built from `$HOME` (internal/updater/updater.go:38), whatever `$XDG_CONFIG_HOME` says. The file WriteUserDirs writes can therefore be elsewhere. The model keeps that path as written (`Updater.GeneratedDirsPath`).
