# anvil.js core, modelled in Dafny

anvil.js is a pluggable build orchestrator. This project models four of its
pieces and proves properties of them:

- **The file system service** (`src/fileSystem.js`). `buildPath` turns a
  path given as text or as a list of segments into one path and keeps a
  leading `./`. `buildFileData` derives a file record: its name, relative
  directory and working-copy directory. `getFiles` maps crawler output to
  records. `read`, `write`, `transform`, `ensurePath`, `delete` and
  `pathExists` work over a host file system. That file system is modelled as
  a store of file contents and directories keyed by resolved path. The built
  text is resolved lexically (`path.resolve`) before it reaches the store; ""
  names nothing, and a text ending in '/' names only a directory. Completion callbacks become
  returned values: an error, or none.
- **The configuration service** (`src/config.js`). It covers the default
  configuration and activity order, and the choice of build file from
  `-b NAME` / `--build NAME`. It covers the quiet and verbose log-flag rules,
  the `-v` / `--version` test, the loading and merging of the user and local
  configuration files, and the check that the working and source directories
  differ.
- **The token-replacement plugin** (`plugins/replace/plugin.js`). It scans
  files left to right for `{{{name}}}` tokens. Every token with a truthy value
  is substituted, globally and in discovery order. The working copy is
  rewritten only if something was replaced. The plugin also chooses where the
  token values come from: the package data, or a values file that overrides
  it.
- **The fileLoader plugin** (`plugins/fileLoader/plugin.js`). This is a
  three-state machine: `waiting`, `scanning`, `watching`. It loads the
  project's source and spec records, keeps an exclusion list and a stack of
  watchers, and calls the stored completion callback once on every entry to
  `watching`.

Files:

- `common.dfy`: options, callback errors, the event bus.
- `strings.dfy`: the JavaScript string operations used (`indexOf`, `replace`,
  `split`, `join`).
- `paths.dfy`: the POSIX behaviour of node's `path` module (`join`,
  `normalize`, `resolve`, `dirname`, `basename`, `extname`). A resolved path
  is the list of its segments below the root, and the working directory is a
  parameter.
- `filesystem.dfy`, `config.dfy`, `replace.dfy`, `fileloader.dfy`: the four
  pieces above.

Behaviour of the code worth stating plainly:

- The working, source and spec directories are not checked to be pairwise
  distinct. Only working and source are compared (src/config.js:43).
- No home-directory expansion happens. `"~/.anvil"` is taken as a path
  relative to the working directory (src/config.js:119).
- `buildPath` only joins segments; it does not resolve them.
- The relative path of a record comes from removing the first occurrence of
  the project base anywhere in the resolved path (src/fileSystem.js:72). It
  is not a prefix substitution.
- `delete` neither recurses into directories nor retries. `watch` does not
  debounce.

## Model

| member | source | states |
|---|---|---|
| FileSystem.BuildPath | src/fileSystem.js:7-15 | building fails (the TypeError) exactly for an empty segment array |
| FileSystem.BuildPathIdempotent | src/fileSystem.js:9-14 | a string is returned unchanged, nothing becomes "", so building a built path changes nothing |
| FileSystem.BuildPathParts | src/fileSystem.js:10-14 | a segment array keeps the "./" of its first segment, is `path.join` of the segments otherwise, and resolves like the segments joined with '/' |
| Paths.ResolveJoin | src/fileSystem.js:12 | `path.join` of segments resolves like their '/'-joined text |
| Paths.ResolveNormalize | src/fileSystem.js:12 | normalising a path does not change what it resolves to |
| Paths.ResolveLocalPrefix | src/fileSystem.js:14 | a leading "./" does not change what a relative path resolves to |
| FileSystem.BuildFileData | src/fileSystem.js:60-75 | a new record has 0 dependents, no imports, and full and original path equal to the resolved file |
| FileSystem.BuildFileDataMirrors | src/fileSystem.js:61-73 | for a file in directory `dir` under the project base: name is the file name, relativePath is the text of `dir`, workingPath is `dir` under the resolved working base (a directory, without the file name); the working directory must not be the root "/" |
| Paths.ResolveRender | src/fileSystem.js:61-62 | resolving the text of a resolved path gives it back |
| Paths.DirnameChild | src/fileSystem.js:72 | `path.dirname` of a child of a resolved path is the parent's text |
| Paths.ResolveUnder | src/fileSystem.js:73 | a directory put under a base resolves to that directory below the resolved base |
| FileSystem.FileRecord.Extension | src/fileSystem.js:66 | a record's extension is the extension of its name as one segment |
| Paths.ExtOfName | src/fileSystem.js:66 | the extension of a segment is a '.'-suffix with no other '.', and it is empty exactly when the segment has no '.', its only '.' leads it, or it is ".." |
| Paths.Extname | src/fileSystem.js:66 | `path.extname` of a name without '/' is that name's extension |
| Paths.Resolve | src/fileSystem.js:61-62 | `path.resolve` from a resolved working directory yields a resolved path: no ".", ".." or empty segments |
| Strings.ReplaceFirst | src/fileSystem.js:72 | `replace` with a string removes a leading occurrence, and changes nothing when there is no occurrence |
| FileSystem.GetFiles | src/fileSystem.js:77-86 | one record per crawled file, in crawl order, for the resolved file; directories passed through; the filter defaults to [] |
| FileSystem.ReadFrom | src/fileSystem.js:104-113 | a read succeeds exactly on a file and yields its content; on failure the content is "" with the error |
| FileSystem.Reach | src/fileSystem.js:106 | a text reaches its resolved path, and always does when it is neither "" nor ends in '/' |
| FileSystem.ReadAt | src/fileSystem.js:104-113 | reading a text succeeds exactly when it is not "", does not end in '/' and resolves to a file, and yields that file's content; "" fails with ENOENT; failures hand over "" |
| FileSystem.FileSystem.Read | src/fileSystem.js:104-113 | the callback gets what reading the built text gives |
| FileSystem.WriteThenRead | src/fileSystem.js:144-153 | a write succeeds exactly when the target is not a directory and its parent directory exists; what was written is read back; no other path changes |
| FileSystem.WritePreservesWellformed | src/fileSystem.js:144-153 | writing keeps the store a tree |
| FileSystem.WriteAt | src/fileSystem.js:144-153 | a text that is not "" and does not end in '/' writes its resolved path; any other text fails and leaves the store as it was, "" with ENOENT |
| FileSystem.FileSystem.Write | src/fileSystem.js:144-153 | the store and the completion error are those of writing the built text |
| FileSystem.EnsurePathEstablishes | src/fileSystem.js:43-58 | after a successful ensurePath a non-empty text exists; files are untouched; no directory is lost; the store stays a tree |
| FileSystem.FileSystem.EnsurePath | src/fileSystem.js:43-58 | an existing text completes without error; otherwise its resolved path and the ancestors are made, failing with EEXIST when the path is a file and ENOTDIR when an ancestor is |
| FileSystem.TransformWritesOnlyOnSuccess | src/fileSystem.js:124-137 | a failed transform or write leaves the store as it was, and a transform error is the completion error; on success the target reads back as the output and no other path changes; a failed read feeds "" to the transform |
| FileSystem.FileSystem.Transform | src/fileSystem.js:124-137 | the new store and error are those of transforming the built `from` text into the built `to` text |
| FileSystem.DeleteRemovesFile | src/fileSystem.js:34-41 | unlinking an existing file removes it; the callback is skipped exactly for missing paths; nothing else changes |
| FileSystem.DeleteAt | src/fileSystem.js:34-41 | with a working existence test the callback is skipped exactly when the text does not exist ("" among them); a text that neither is "" nor ends in '/' deletes exactly as `DeleteRemovesFile` states for its resolved path; only such a text removes a file, and nothing but that file changes |
| FileSystem.FileSystem.Delete | src/fileSystem.js:34-41 | delete with a working existence test: the store and callback are those `DeleteAt` gives for the built text |
| FileSystem.FileSystem.DeleteAsWritten | src/fileSystem.js:34-41 | as written, delete never unlinks and never calls its callback |
| FileSystem.HostExists | src/fileSystem.js:101 | `existsSync` of a text: false for "", true of a directory, and true of a file only when the text does not end in '/' |
| FileSystem.ExistsAsWritten | src/fileSystem.js:99-102 | as written, the existence test yields a falsy value for every text |
| FileSystem.ExistsAsWrittenMissesExisting | src/fileSystem.js:99-102 | the as-written test denies every text that exists |
| FileSystem.FileSystem.PathExists | src/fileSystem.js:99-102 | the intended existence test: the built text is not "" and names a directory, or a file when it does not end in '/' |
| FileSystem.FileSystem.PathExistsAsWritten | src/fileSystem.js:99-102 | the as-written existence test is always false |
| Config.LogFlags.Default | src/config.js:19-26 | the default log switches: events, steps, completions and errors on; debug and warnings off |
| Config.ProjectConfig.Default | src/config.js:3-27 | the default directories, activity order and log switches |
| Config.ActivityOrderShape | src/config.js:4-13 | eight distinct activities from identify to test, with compile between pre- and post-process |
| Config.MatchAt | src/config.js:88 | the pattern captures a non-empty run of word characters |
| Config.FirstMatch | src/config.js:88 | a position found lies at or after the search start and the pattern matches there |
| Config.FirstMatchSkips | src/config.js:88 | the pattern matches nowhere between the search start and the position found, nor anywhere after the start when none is found |
| Config.BuildFileChoice | src/config.js:87-89 | no match gives "./build.json"; otherwise the leftmost match's name gives "./NAME.json" |
| Config.BuildFlagSelects | src/config.js:87-89 | "-b NAME" or "--build NAME" after arguments without '-' selects "./NAME.json" |
| Config.VersionFlagExact | src/config.js:51 | the version pattern accepts exactly "-v" and "--version" |
| Config.CommandFor | src/config.js:49-56 | the version path is taken exactly when the third argument is "-v" or "--version" |
| Config.Config.CreateCommand | src/config.js:49-56 | the same test over the stored arguments |
| Common.Override | src/config.js:78 | `_.deepExtend` of flat maps: the result has both key sets, the overriding map's values win, and the other keys keep the base values |
| Config.LoadedFromAsWritten | src/config.js:106-127 | as written, loading a configuration file always yields {} |
| Config.LoadedFromMeans | src/config.js:106-127 | with the corrected existence test a configuration is the parsed file when the text names a file, {} when it names nothing, and the parse of "" for a directory |
| Config.Config.LoadConfig | src/config.js:106-115 | with the corrected existence test: what `LoadedFrom` gives for the resolved file's text, so its parsed content, or {} when it does not exist |
| Config.Config.LoadPreferences | src/config.js:117-127 | with the corrected existence test: what `LoadedFrom` gives for "~/.anvil", so its parsed content, or {} when it does not exist |
| Config.Config.GetConfiguration | src/config.js:58-81 | with the corrected existence test: the user preferences overridden by the build file's configuration |
| Config.LogFlags.ApplyArguments | src/config.js:91-98 | a quiet flag turns debug, event and warning off; otherwise --verbose turns debug and warning on and leaves event; step, complete and error never change |
| Config.Config.Initialize | src/config.js:83-104 | stores the arguments, selects the build file, applies quiet (which wins) or verbose to debug, event and warning, leaves step, complete and error, loads and merges with the corrected existence test, and picks the command |
| Config.Config.constructor | src/config.js:31-36 | no arguments are stored yet |
| Config.CheckDirectories | src/config.js:38-47 | working, source and spec become their resolved texts; all.stop with -1 is raised exactly when working and source resolve to the same directory; spec is never compared |
| Config.RenderInjective | src/config.js:43 | comparing resolved texts compares the directories |
| Config.DefaultsDistinct | src/config.js:14-15 | the default working and source directories never collide |
| ReplacePlugin.TokenAtOccurs | plugins/replace/plugin.js:13 | a captured name has no '}' and its whole token occurs where it matched |
| ReplacePlugin.NextToken | plugins/replace/plugin.js:74 | a position found lies at or after the search start, inside the text, and the pattern matches there |
| ReplacePlugin.NextTokenSkips | plugins/replace/plugin.js:74 | the pattern matches nowhere between the search start and the position found, nor anywhere after the start when none is found |
| ReplacePlugin.ExecShift | plugins/replace/plugin.js:74 | exec looks only forward: text in front of the search start changes nothing but the positions, which move by its length |
| ReplacePlugin.Exec | plugins/replace/plugin.js:74 | a match moves the search start forward, within the text |
| ReplacePlugin.ScanStepAt | plugins/replace/plugin.js:74-77 | one exec from lastIndex is one step of the scan of the rest of the text |
| ReplacePlugin.ScanFromRest | plugins/replace/plugin.js:74-77 | the exec chain from lastIndex yields the names the scan finds on the rest of the text |
| ReplacePlugin.ScanTokens | plugins/replace/plugin.js:72-77 | the while-exec loop collects exactly the scan's names, in order |
| ReplacePlugin.ScanSound | plugins/replace/plugin.js:13 | every name found is free of '}' and its token occurs in the text |
| ReplacePlugin.ScanEmpty | plugins/replace/plugin.js:78 | the scan finds nothing exactly when the pattern matches nowhere |
| ReplacePlugin.ScanTokenThen | plugins/replace/plugin.js:72-77 | a token in front of a text is found first and the scan resumes after it |
| ReplacePlugin.ScanTemplate | plugins/replace/plugin.js:72-77 | scanning a text made of tokens gives the names back, in order and with duplicates |
| ReplacePlugin.WithValues | plugins/replace/plugin.js:81-83 | the names with truthy values; empty exactly when none has one |
| ReplacePlugin.SubstituteSkipsFalsy | plugins/replace/plugin.js:81-83 | tokens without truthy values are left verbatim |
| ReplacePlugin.NoValuesNoChange | plugins/replace/plugin.js:79-94 | when no found name has a value the content is unchanged |
| ReplacePlugin.ApplyReplacesEveryOccurrence | plugins/replace/plugin.js:84-88 | every occurrence of a valued token is replaced and the text between occurrences is kept |
| Strings.ReplaceAllIsJoin | plugins/replace/plugin.js:87-88 | a global replace is splitting at the occurrences and joining with the replacement |
| Strings.JoinSplitOn | plugins/replace/plugin.js:87-88 | joining the pieces of a split with the separator gives the text back |
| Strings.ReplaceAllAbsent | plugins/replace/plugin.js:87-88 | a global replace of a text that does not occur changes nothing |
| ReplacePlugin.SubstituteAppend | plugins/replace/plugin.js:80-90 | substitution processes the names in discovery order, one after the other |
| ReplacePlugin.SubstituteTokens | plugins/replace/plugin.js:79-90 | the per-name loop yields the substitution, and hadReplacement holds exactly when some name has a value |
| ReplacePlugin.ReplacedWritesOnlyOnReplacement | plugins/replace/plugin.js:64-104 | the working copy is rewritten exactly when it was read (a file, named by a text not ending in '/'), tokens were found and one had a value; it then holds the substituted content; nothing else changes |
| ReplacePlugin.ReplacedLeavesUnvalued | plugins/replace/plugin.js:91-95 | a file whose tokens have no values completes without a write |
| ReplacePlugin.ReplacePlugin.ReplaceTokens | plugins/replace/plugin.js:64-104 | the store and outcome are those of replacing in the file's working copy with the current token data |
| ReplacePlugin.RunAllTouchesOnlyWorkingCopies | plugins/replace/plugin.js:60-62 | a run changes only the working copies of the project's files and keeps the store a tree |
| ReplacePlugin.ReplacePlugin.Run | plugins/replace/plugin.js:60-62 | the files are handled one after the other; done is reached when none throws |
| ReplacePlugin.ValuesPath | plugins/replace/plugin.js:23 | a non-empty command-line values path wins over the configured one; with neither there is none |
| Strings.IndexOf | plugins/replace/plugin.js:45 | `indexOf` yields the first occurrence at or after the start, and none exactly when there is none |
| ReplacePlugin.IsYamlPath | plugins/replace/plugin.js:45-47 | YAML exactly when the first "yaml" in the path is past index 0 |
| ReplacePlugin.ReplacePlugin.constructor | plugins/replace/plugin.js:10-18 | token data starts as {}; no package data yet |
| ReplacePlugin.ReplacePlugin.LoadPackage | plugins/replace/plugin.js:33-41 | package data is the parsed package file when it can be read, unchanged otherwise |
| ReplacePlugin.ValuesLoaded | plugins/replace/plugin.js:43-58 | unless the read fails, the values are copied over the package data, which becomes the token data; a failed read makes the package data the token data; copying non-empty values onto missing package data throws and changes nothing |
| ReplacePlugin.ReplacePlugin.LoadValues | plugins/replace/plugin.js:43-58 | the package data, the token data and the exception are those `ValuesLoaded` gives for reading the values file's text, parsed as YAML or JSON by its name |
| ReplacePlugin.ReplacePlugin.Configure | plugins/replace/plugin.js:20-31 | the package is loaded first; with no values path the package data is the token data; otherwise the chosen values file is loaded over the new package data |
| FileLoaderPlugin.ReverseIndex | plugins/fileLoader/plugin.js:76-80 | popping order: the last watcher comes first, and every watcher is kept |
| FileLoaderPlugin.FileLoader.constructor | plugins/fileLoader/plugin.js:12-28 | starts in waiting, not continuous, with empty lists and the no-op callback |
| FileLoaderPlugin.FileLoader.Configure | plugins/fileLoader/plugin.js:30-37 | --ci turns continuous on; the exclusion list is unchanged |
| FileLoaderPlugin.FileLoader.LoadSource | plugins/fileLoader/plugin.js:39-46 | files and directories become the source crawl's, filtered by the exclusion list |
| FileLoaderPlugin.FileLoader.LoadSpecs | plugins/fileLoader/plugin.js:48-55 | specs become the unfiltered spec crawl's records and its directories are appended |
| FileLoaderPlugin.FileLoader.Watch | plugins/fileLoader/plugin.js:67-74 | a watcher for the path is pushed |
| FileLoaderPlugin.FileLoader.WatchAll | plugins/fileLoader/plugin.js:62-65 | watchers for source and spec are pushed |
| FileLoaderPlugin.FileLoader.UnwatchAll | plugins/fileLoader/plugin.js:76-80 | every watcher is ended, most recent first, and none is left |
| FileLoaderPlugin.FileLoader.EnterScanning | plugins/fileLoader/plugin.js:92-101 | output is excluded, then sources, then specs load, then the machine is watching |
| FileLoaderPlugin.FileLoader.EnterWatching | plugins/fileLoader/plugin.js:104-110 | two watchers are pushed exactly when continuous, then the callback is invoked once |
| FileLoaderPlugin.FileLoader.Run | plugins/fileLoader/plugin.js:57-60 | done is stored and invoked once; the machine ends in watching with the project loaded and the invariant kept |
| FileLoaderPlugin.FileLoader.HandleFileChange | plugins/fileLoader/plugin.js:111-114 | file.changed with ("change", file, path) is raised exactly in watching |
| FileLoaderPlugin.FileLoader.HandleBuildDone | plugins/fileLoader/plugin.js:83-89 | build.done throws exactly in waiting and is ignored elsewhere |
| FileLoaderPlugin.ExcludedCountsRuns | plugins/fileLoader/plugin.js:95 | after n runs the exclusion list holds exactly n copies of the output directory |

## Left out

- `copy`, `watch`, `metadata` and `readSync` in src/fileSystem.js: these are streams, change notification, `fs.stat` and synchronous I/O. `copy` also calls `fs.createWriterStream`, which does not exist.
- FileSystem.BuildFileData: the `originalName` and `outputPaths` fields refer to undeclared identifiers. They are omitted, and so is the ReferenceError they would raise.
- FileSystem.BuildFileDataMirrors: stated only for a working directory other than the root. When the working directory is "/", the project base is "/", and removing it also removes the leading '/' of the file's text. The relativePath is then "a" for "/a/b.js" and "." for "/b.js", not the text of the directory. `BuildFileData` computes this case as the source does, but no lemma states it.
- FileSystem.FileSystem.Read and the other store operations require a spec other than an empty segment array. The TypeError that case throws is modelled only in `BuildPath`.
- Paths.Normalize and the other `path` functions: only POSIX behaviour is modelled. Windows paths are not.
- Crawling, JSON and YAML parsing, `commander`, the scheduler and machina's engine are external code. The crawler and the parsers are parameters. `commander` is reduced to the choice of command.
- Common.Override: `_.deepExtend` (src/config.js:78) and `_.extend` (plugins/replace/plugin.js:52) are modelled as one shallow, right-biased map override. Configuration values are strings.
- `processArguments` (src/config.js:129-138) is left out. It merges through `commander` and external state, then calls `checkDirectories`, which is modelled.
- Log output and the messages passed to it are left out.
- Concurrency: `scheduler.parallel` over files and the `mapped` configuration load are modelled as sequential calls.
- ReplacePlugin.Apply: token names are matched as literal text, and values are inserted literally. In the source a name is spliced into a RegExp, so regex metacharacters in a name, or `$` patterns in a value, behave differently.
- ReplacePlugin.Truthy: token values are strings, and a value is truthy when it is not empty. Numbers, booleans and objects as values are not modelled. A name missing from the data has no value; in the source a name inherited from `Object.prototype` (`{{{toString}}}`, `{{{constructor}}}`) finds a function, which is truthy, so such a token is replaced by the function's text and the file is rewritten.
- ReplacePlugin.ReplacePlugin.Run: `run` passes `this.replaceTokens` to `anvil.scheduler.parallel` without binding it (plugins/replace/plugin.js:61), and `replaceTokens` reaches the token data through `this` (`self = this` at line 65, `self.config.sourceData` at line 82). The model assumes that `anvil.plugin` (line 4) or the scheduler binds each call to the plugin, as `_.bindAll(this)` does for the configuration service and the file system (src/config.js:32, src/fileSystem.js:4); `Run` calls `ReplaceTokens` on the plugin itself. Without that binding `self.config` is undefined, and every file that holds a token throws a TypeError at line 82 instead of being rewritten. Files without tokens are unaffected.
- ReplacePlugin.ReplacePlugin.ReplaceTokens: only the single default token configuration is modelled. With several configured tokens, `done` would be called once per token.
- ReplacePlugin.ReplacePlugin.LoadValues: `--values` given without a value (a boolean) is not modelled. Later aliasing between the package data and the token data is not tracked.
- FileLoaderPlugin.FileLoader.Configure: the flag set through `anvil.config.fileLoader` and the one read through the plugin's own `config` are assumed to be the same object.
- FileLoaderPlugin.FileLoader.Watch: the change handler a watcher installs is not modelled. Change events enter through `HandleFileChange`.
- Config.LoadedFrom: the parser is a total function. `JSON.parse` throws on malformed text, including the "" a failed read hands over (a directory named as the build file), and then the callback is never reached.
- Config.Config.LoadConfig: a malformed build file throws in `JSON.parse` (src/config.js:110), so `createCommand` never runs; the model always yields the parse.
- Config.Config.LoadPreferences: a malformed "~/.anvil" throws in `JSON.parse` (src/config.js:121); the model always yields the parse.
- ReplacePlugin.ReplacePlugin.LoadPackage: a malformed package file throws in `JSON.parse` (plugins/replace/plugin.js:37); the model always stores the parse.
- ReplacePlugin.ValuesLoaded: a malformed values file throws in `JSON.parse` or `yaml.load` (plugins/replace/plugin.js:51); the model always uses the parse.
- FileSystem.WriteAt: a missing path written with a trailing '/' fails with EISDIR in the model even when an ancestor is missing (ENOENT) or is a file (ENOTDIR). Through a text without a trailing '/', a file as any ancestor gives ENOTDIR and a missing parent ENOENT, as in the host.
- FileSystem.Reach: texts are resolved lexically (`path.resolve`), so "." or ".." after a missing or non-directory component does not fail as it does in the host: "nope/.." reaches the working directory, and "f/." reaches file `f`, where node's `fs` calls give ENOENT or ENOTDIR.
- FileSystem.HostExists: texts are resolved lexically (`path.resolve`), so "." or ".." after a missing or non-directory component does not fail as it does in the host: "nope/.." reaches the working directory, and "f/." reaches file `f`, where node's `fs` calls give ENOENT or ENOTDIR.
- FileSystem.ReadAt: texts are resolved lexically (`path.resolve`), so "." or ".." after a missing or non-directory component does not fail as it does in the host: "nope/.." reaches the working directory, and "f/." reaches file `f`, where node's `fs` calls give ENOENT or ENOTDIR.
- FileSystem.WriteAt: texts are resolved lexically (`path.resolve`), so "." or ".." after a missing or non-directory component does not fail as it does in the host: "nope/.." reaches the working directory, and "f/." reaches file `f`, where node's `fs` calls give ENOENT or ENOTDIR.
- FileSystem.DeleteAt: texts are resolved lexically (`path.resolve`), so "." or ".." after a missing or non-directory component does not fail as it does in the host: "nope/.." reaches the working directory, and "f/." reaches file `f`, where node's `fs` calls give ENOENT or ENOTDIR.
- FileSystem.EnsurePathIn: texts are resolved lexically (`path.resolve`), so "." or ".." after a missing or non-directory component does not fail as it does in the host: "nope/.." reaches the working directory, and "f/." reaches file `f`, where node's `fs` calls give ENOENT or ENOTDIR.
- FileSystem.FileSystem.PathExists: texts are resolved lexically (`path.resolve`), so "." or ".." after a missing or non-directory component does not fail as it does in the host: "nope/.." reaches the working directory, and "f/." reaches file `f`, where node's `fs` calls give ENOENT or ENOTDIR.
- src/anvil.js and src/log.js are not part of this model.

## Findings

| source | as written | input that shows it | evidently intended | confidence | as-written member | corrected member |
|---|---|---|---|---|---|---|
| src/fileSystem.js:99-102 | `pathExists` computes `path.existsSync(pathSpec)` but has no `return`, so it yields `undefined`. As a result `delete` never unlinks (src/fileSystem.js:36), and `loadConfig` / `loadPreferences` always yield `{}` (src/config.js:108,119). | an existing file "./build.json" in the working directory: `pathExists("./build.json")` is falsy | return the result of `path.existsSync` | not executed | FileSystem.ExistsAsWrittenMissesExisting | FileSystem.FileSystem.PathExists |
