/** The configuration service of src/config.js: the default configuration,
    the choice of build file from the command line, the quiet and verbose
    log-flag rules, the version-flag test, the loading and merging of the
    user and local configuration files, and the check that the working and
    source directories differ. */
module Config {
  import opened Common
  import opened Strings
  import opened Paths
  import opened FileSystem

  /** The default order of build activities. */
  const ActivityOrder: seq<string> :=
    ["identify", "pull", "combine", "pre-process", "compile", "post-process", "push", "test"]

  /** A configuration value as loaded from a file: keys to values. */
  type Settings = map<string, string>

  /** The log switches of the configuration; `initialize` updates them in place. */
  class LogFlags {
    var debug: bool
    var event: bool
    var step: bool
    var complete: bool
    var warning: bool
    var error: bool

    /** The defaults: events, steps, completions and errors are logged. */
    constructor Default()
      ensures !debug && event && step && complete && !warning && error
    {
      debug, event, step, complete, warning, error := false, true, true, true, false, true;
    }

    /** The verbosity arguments of `initialize`: "-q" or "--quiet" silences
        debug, event and warning output and wins over "--verbose", which turns
        debug and warning output on. */
    method ApplyArguments(argList: seq<string>)
      modifies this
      ensures if "-q" in argList || "--quiet" in argList then
          !debug && !event && !warning
        else if "--verbose" in argList then
          debug && warning && event == old(event)
        else
          debug == old(debug) && event == old(event) && warning == old(warning)
      ensures step == old(step) && complete == old(complete) && error == old(error)
    {
      if "-q" in argList || "--quiet" in argList {
        debug := false;
        event := false;
        warning := false;
      } else if "--verbose" in argList {
        debug := true;
        warning := true;
      }
    }
  }

  /** A configuration object: the project directories, the activity order
      and the log switches. */
  class ProjectConfig {
    var working: string
    var source: string
    var spec: string
    var output: string
    var tasks: string
    var activityOrder: seq<string>
    const log: LogFlags

    /** The default configuration. */
    constructor Default()
      ensures working == "./.anvil/tmp" && source == "./src" && spec == "./spec"
      ensures output == "./lib" && tasks == "./tasks"
      ensures activityOrder == ActivityOrder
      ensures fresh(log)
      ensures !log.debug && log.event && log.step && log.complete && !log.warning && log.error
    {
      working, source, spec, output, tasks := "./.anvil/tmp", "./src", "./spec", "./lib", "./tasks";
      activityOrder := ActivityOrder;
      log := new LogFlags.Default();
    }
  }

  /** The default activity order has eight distinct activities, from
      identification to testing, with compilation between pre- and
      post-processing. */
  lemma ActivityOrderShape()
    ensures |ActivityOrder| == 8
    ensures forall i, j :: 0 <= i < j < |ActivityOrder| ==> ActivityOrder[i] != ActivityOrder[j]
    ensures ActivityOrder[0] == "identify" && ActivityOrder[7] == "test"
    ensures ActivityOrder[3] == "pre-process" && ActivityOrder[4] == "compile" && ActivityOrder[5] == "post-process"
  {
  }

  // ---------------------------------------------------------------------------
  // The build file: /(([-]b)|([-]{2}build))[ ](\w+)/ on the space-joined arguments

  /** The characters of `\w`. */
  predicate IsWordChar(c: char)
  {
    ('a' <= c <= 'z') || ('A' <= c <= 'Z') || ('0' <= c <= '9') || c == '_'
  }

  predicate IsWord(s: string)
  {
    s != "" && forall k :: 0 <= k < |s| ==> IsWordChar(s[k])
  }

  /** The length of the longest run of word characters starting at `i`. */
  function WordLength(s: string, i: nat): (n: nat)
    requires i <= |s|
    ensures i + n <= |s|
    ensures i + n == |s| || !IsWordChar(s[i + n])
    decreases |s| - i
  {
    if i < |s| && IsWordChar(s[i]) then 1 + WordLength(s, i + 1) else 0
  }

  /** The run `WordLength` measures is made of word characters. */
  lemma {:induction false} WordLengthChars(s: string, i: nat)
    requires i <= |s|
    ensures forall k :: i <= k < i + WordLength(s, i) ==> IsWordChar(s[k])
    decreases |s| - i
  {
    if i < |s| && IsWordChar(s[i]) {
      WordLengthChars(s, i + 1);
    }
  }

  /** Where the flag part of the pattern ends when it matches at `i`: "-b" or
      "--build" (the two alternatives cannot both start at one position). */
  function FlagEnd(line: string, i: nat): (r: Option<nat>)
    ensures r.Some? ==> i < r.value <= |line| && line[i] == '-'
  {
    if OccursAt(line, "-b", i) then Some(i + 2)
    else if OccursAt(line, "--build", i) then Some(i + 7)
    else None
  }

  /** The name the pattern captures when it matches at `i`: the flag, one
      space, and the longest run of word characters, which must not be empty. */
  function MatchAt(line: string, i: nat): (r: Option<string>)
    ensures r.Some? ==> IsWord(r.value)
  {
    match FlagEnd(line, i)
    case None => None
    case Some(e) =>
      if e < |line| && line[e] == ' ' && WordLength(line, e + 1) > 0 then
        var word := line[e + 1..e + 1 + WordLength(line, e + 1)];
        WordLengthChars(line, e + 1);
        assert forall k :: 0 <= k < |word| ==> word[k] == line[e + 1 + k];
        Some(word)
      else None
  }

  /** The leftmost position at or after `from` where the pattern matches. */
  function FirstMatch(line: string, from: nat): (r: Option<nat>)
    ensures r.Some? ==> from <= r.value && MatchAt(line, r.value).Some?
    decreases |line| - from
  {
    if from >= |line| then None
    else if MatchAt(line, from).Some? then Some(from)
    else FirstMatch(line, from + 1)
  }

  /** No match starts between the search start and the match found, nor
      anywhere after the start when none is found. */
  lemma {:induction false} FirstMatchSkips(line: string, from: nat)
    ensures forall j: nat :: from <= j && (FirstMatch(line, from).None? || j < FirstMatch(line, from).value) ==> MatchAt(line, j).None?
    decreases |line| - from
  {
    if from < |line| && MatchAt(line, from).None? {
      FirstMatchSkips(line, from + 1);
    }
  }

  /** The build file `initialize` selects for the arguments. */
  function BuildFile(args: seq<string>): string
  {
    var line := JoinWith(args, " ");
    match FirstMatch(line, 0)
    case Some(i) => "./" + MatchAt(line, i).value + ".json"
    case None => "./build.json"
  }

  /** Without a match the build file is "./build.json"; with one it is
      "./NAME.json" for the name of the leftmost match. */
  lemma BuildFileChoice(args: seq<string>)
    ensures (forall j: nat :: MatchAt(JoinWith(args, " "), j).None?) ==> BuildFile(args) == "./build.json"
    ensures forall i: nat ::
      (MatchAt(JoinWith(args, " "), i).Some? && (forall j: nat :: j < i ==> MatchAt(JoinWith(args, " "), j).None?))
      ==> BuildFile(args) == "./" + MatchAt(JoinWith(args, " "), i).value + ".json"
  {
    var line := JoinWith(args, " ");
    var r := FirstMatch(line, 0);
    FirstMatchSkips(line, 0);
    forall i: nat | MatchAt(line, i).Some? && (forall j: nat :: j < i ==> MatchAt(line, j).None?)
      ensures r == Some(i)
    {
      assert r.Some?;
      assert !(r.value < i) && !(i < r.value);
    }
  }

  /** A character absent from every piece and from the separator is absent
      from their join. */
  lemma {:induction false} JoinWithAvoids(pieces: seq<string>, sep: string, c: char)
    requires c !in sep
    requires forall k :: 0 <= k < |pieces| ==> c !in pieces[k]
    ensures c !in JoinWith(pieces, sep)
    decreases |pieces|
  {
    if |pieces| > 1 {
      JoinWithAvoids(pieces[1..], sep, c);
    }
  }

  /** The space-joined flag, name and later arguments: the flag, a space, the
      name, and then the end or a space. */
  lemma JoinFlagTail(flag: string, name: string, post: seq<string>) returns (rest: string)
    ensures JoinWith([flag, name] + post, " ") == flag + " " + name + rest
    ensures rest == "" || rest[0] == ' '
  {
    var tail := JoinWith([name] + post, " ");
    assert ([flag, name] + post)[1..] == [name] + post;
    assert JoinWith([flag, name] + post, " ") == flag + " " + tail;
    if post == [] {
      assert [name] + post == [name];
      rest := "";
    } else {
      assert ([name] + post)[1..] == post;
      rest := " " + JoinWith(post, " ");
    }
  }

  /** Arguments free of '-' in front of others join into a head free of '-'. */
  lemma JoinDashFreeHead(pre: seq<string>, xs: seq<string>) returns (head: string)
    requires |xs| >= 1
    requires forall k :: 0 <= k < |pre| ==> '-' !in pre[k]
    ensures JoinWith(pre + xs, " ") == head + JoinWith(xs, " ")
    ensures '-' !in head
  {
    if pre == [] {
      assert pre + xs == xs;
      head := "";
    } else {
      JoinWithAppend(pre, xs, " ");
      JoinWithAvoids(pre, " ", '-');
      head := JoinWith(pre, " ") + " ";
    }
  }

  /** The space-joined arguments around a build flag: a head free of '-',
      the flag, a space, the name, and the end or a space. */
  lemma JoinAroundFlag(pre: seq<string>, flag: string, name: string, post: seq<string>)
    returns (head: string, rest: string)
    requires forall k :: 0 <= k < |pre| ==> '-' !in pre[k]
    ensures JoinWith(pre + [flag, name] + post, " ") == head + flag + " " + name + rest
    ensures '-' !in head
    ensures rest == "" || rest[0] == ' '
  {
    rest := JoinFlagTail(flag, name, post);
    assert pre + [flag, name] + post == pre + ([flag, name] + post);
    head := JoinDashFreeHead(pre, [flag, name] + post);
  }

  /** The pattern's flag part matches a flag written at `at`. */
  lemma FlagEndAt(line: string, at: nat, flag: string)
    requires flag == "-b" || flag == "--build"
    requires OccursAt(line, flag, at)
    ensures FlagEnd(line, at) == Some(at + |flag|)
  {
    if flag == "--build" {
      assert line[at + 1] == flag[1] == '-';
    }
  }

  /** The longest run of word characters at `start` is a word written there
      and followed by the end or a space. */
  lemma WordLengthAt(line: string, start: nat, name: string)
    requires start + |name| <= |line|
    requires line[start..start + |name|] == name
    requires IsWord(name)
    requires start + |name| == |line| || line[start + |name|] == ' '
    ensures WordLength(line, start) == |name|
  {
    WordLengthChars(line, start);
    assert forall k :: start <= k < start + |name| ==> line[k] == name[k - start];
  }

  /** A flag, a space and a word followed by the end or a space: the pattern
      matches there and captures the word. */
  lemma FlagCaptures(line: string, at: nat, flag: string, name: string)
    requires flag == "-b" || flag == "--build"
    requires OccursAt(line, flag, at)
    requires at + |flag| + 1 + |name| <= |line|
    requires line[at + |flag|] == ' '
    requires line[at + |flag| + 1..at + |flag| + 1 + |name|] == name
    requires IsWord(name)
    requires at + |flag| + 1 + |name| == |line| || line[at + |flag| + 1 + |name|] == ' '
    ensures MatchAt(line, at) == Some(name)
  {
    FlagEndAt(line, at, flag);
    WordLengthAt(line, at + |flag| + 1, name);
  }

  /** No match starts at a position whose character is not '-'. */
  lemma NoMatchBeforeDash(line: string, at: nat)
    requires at <= |line| && '-' !in line[..at]
    ensures forall j: nat :: j < at ==> MatchAt(line, j).None?
  {
    forall j: nat | j < at
      ensures MatchAt(line, j).None?
    {
      assert line[..at][j] == line[j];
    }
  }

  /** Where the parts of a line laid out as head, flag, space, name and rest
      sit. */
  lemma FlagLayout(line: string, head: string, flag: string, name: string, rest: string)
    requires line == head + flag + " " + name + rest
    requires rest == "" || rest[0] == ' '
    ensures OccursAt(line, flag, |head|)
    ensures |head| + |flag| + 1 + |name| <= |line|
    ensures line[|head| + |flag|] == ' '
    ensures line[|head| + |flag| + 1..|head| + |flag| + 1 + |name|] == name
    ensures |head| + |flag| + 1 + |name| == |line| || line[|head| + |flag| + 1 + |name|] == ' '
    ensures line[..|head|] == head
  {
    var at := |head|;
    var e := at + |flag|;
    var tail := flag + " " + name + rest;
    assert line == head + tail;
    assert tail[..|flag|] == flag && tail[|flag|] == ' ';
    assert tail[|flag| + 1..|flag| + 1 + |name|] == name;
    assert |flag| + 1 + |name| == |tail| || tail[|flag| + 1 + |name|] == ' ';
    assert line[at..e] == flag;
    assert line[e + 1..e + 1 + |name|] == name;
  }

  /** A flag, a space and a word after a head free of '-' are the leftmost
      match, and the word is what it captures. */
  lemma FlagAfterDashFree(line: string, head: string, flag: string, name: string, rest: string)
    requires flag == "-b" || flag == "--build"
    requires line == head + flag + " " + name + rest
    requires '-' !in head && IsWord(name) && (rest == "" || rest[0] == ' ')
    ensures MatchAt(line, |head|) == Some(name)
    ensures FirstMatch(line, 0) == Some(|head|)
  {
    FlagLayout(line, head, flag, name, rest);
    FlagCaptures(line, |head|, flag, name);
    NoMatchBeforeDash(line, |head|);
    LeftmostMatch(line, |head|);
  }

  /** A match with none before it is the one `FirstMatch` finds. */
  lemma LeftmostMatch(line: string, at: nat)
    requires MatchAt(line, at).Some?
    requires forall j: nat :: j < at ==> MatchAt(line, j).None?
    ensures FirstMatch(line, 0) == Some(at)
  {
    FirstMatchSkips(line, 0);
    var r := FirstMatch(line, 0);
    assert !(r.Some? && r.value < at);
  }

  /** The first "-b NAME" or "--build NAME" selects "./NAME.json": arguments
      before the flag that hold no '-' cannot start a match. */
  lemma BuildFlagSelects(pre: seq<string>, flag: string, name: string, post: seq<string>)
    requires flag == "-b" || flag == "--build"
    requires forall k :: 0 <= k < |pre| ==> '-' !in pre[k]
    requires IsWord(name)
    ensures BuildFile(pre + [flag, name] + post) == "./" + name + ".json"
  {
    var head, rest := JoinAroundFlag(pre, flag, name, post);
    FlagAfterDashFree(JoinWith(pre + [flag, name] + post, " "), head, flag, name, rest);
  }

  // ---------------------------------------------------------------------------
  // The version flag: /^([-]v$|[-]{2}version)$/ on the third argument

  /** The version pattern: "-v" followed by the end, or "--version" followed
      by the end. */
  predicate IsVersionFlag(s: string)
  {
    (StartsWith(s, "-v") && |s| == 2) || (StartsWith(s, "--version") && |s| == 9)
  }

  /** The pattern accepts exactly "-v" and "--version". */
  lemma VersionFlagExact(s: string)
    ensures IsVersionFlag(s) <==> s == "-v" || s == "--version"
  {
    if StartsWith(s, "-v") && |s| == 2 {
      assert s == s[..2];
    }
    if StartsWith(s, "--version") && |s| == 9 {
      assert s == s[..9];
    }
  }

  /** Which way `createCommand` goes. */
  datatype Command = ParseVersion | OnCommander

  /** `createCommand`: the version is printed when the third argument is the
      version flag; otherwise the loaded configuration is handed on. */
  function CommandFor(args: seq<string>): (c: Command)
    ensures c == ParseVersion <==> |args| > 2 && (args[2] == "-v" || args[2] == "--version")
  {
    if |args| > 2 then VersionFlagExact(args[2]); (if IsVersionFlag(args[2]) then ParseVersion else OnCommander)
    else OnCommander
  }

  // ---------------------------------------------------------------------------
  // Loading and merging configuration files

  /** What a configuration file yields with a working `pathExists`: its
      parsed content when the text exists, and an empty configuration
      otherwise. */
  function LoadedFrom(s: Store, cwd: Path, text: string, parse: string -> Settings): Settings
  {
    if HostExists(s, cwd, text) then parse(ReadAt(s, cwd, text).content) else map[]
  }

  /** With a working existence test a configuration is the parsed file when
      the text names a file, `{}` when it names nothing, and the parse of ""
      when it names a directory (whose read fails). */
  lemma LoadedFromMeans(s: Store, cwd: Path, text: string, parse: string -> Settings)
    requires Wellformed(s)
    ensures Plain(text) && Resolve(cwd, text) in s.files ==>
      LoadedFrom(s, cwd, text, parse) == parse(s.files[Resolve(cwd, text)])
    ensures !HostExists(s, cwd, text) ==> LoadedFrom(s, cwd, text, parse) == map[]
    ensures HostExists(s, cwd, text) && Resolve(cwd, text) in s.dirs ==> LoadedFrom(s, cwd, text, parse) == parse("")
  {
  }

  /** `loadConfig` and `loadPreferences` as written: `pathExists` never
      holds, so they always yield `{}`. */
  function LoadedFromAsWritten(s: Store, cwd: Path, text: string, parse: string -> Settings): (r: Settings)
    ensures r == map[]
  {
    if ExistsAsWritten(s, cwd, text) then parse(ReadAt(s, cwd, text).content) else map[]
  }

  /** Equal texts of resolved paths are equal paths: comparing the resolved
      texts compares the directories. */
  lemma RenderInjective(a: Path, b: Path)
    requires Canonical(a) && Canonical(b)
    ensures Render(a) == Render(b) <==> a == b
  {
    ResolveRender([], a);
    ResolveRender([], b);
  }

  lemma ResolveLocal(cwd: Path, names: seq<string>)
    requires Canonical(names) && |names| >= 1
    ensures Resolve(cwd, "./" + JoinWith(names, "/")) == cwd + names
  {
    JoinWithNotAbsolute(names);
    ResolveLocalPrefix(cwd, JoinWith(names, "/"));
    SplitSlashFree(JoinWith(names, "/"));
    SplitJoin(names);
    FoldNames(cwd, names, false);
  }

  lemma DefaultWorking(cwd: Path)
    ensures Resolve(cwd, "./.anvil/tmp") == cwd + [".anvil", "tmp"]
  {
    var names := [".anvil", "tmp"];
    assert JoinWith(names, "/") == ".anvil/tmp";
    assert "./" + ".anvil/tmp" == "./.anvil/tmp";
    assert Canonical(names);
    ResolveLocal(cwd, names);
  }

  lemma DefaultSource(cwd: Path)
    ensures Resolve(cwd, "./src") == cwd + ["src"]
  {
    assert JoinWith(["src"], "/") == "src";
    assert "./" + "src" == "./src";
    assert Canonical(["src"]);
    ResolveLocal(cwd, ["src"]);
  }

  /** The default working and source directories never collide. */
  lemma DefaultsDistinct(cwd: Path)
    ensures Resolve(cwd, "./.anvil/tmp") != Resolve(cwd, "./src")
  {
    DefaultWorking(cwd);
    DefaultSource(cwd);
    assert (cwd + [".anvil", "tmp"])[|cwd|] != (cwd + ["src"])[|cwd|];
  }

  /** `checkDirectories`: the working, source and spec directories are
      replaced by their resolved texts; the stop event with exit code -1 is
      raised exactly when working and source resolve to the same directory.
      The spec directory takes no part in the comparison. */
  method CheckDirectories(config: ProjectConfig, cwd: Path, bus: EventBus)
    requires Canonical(cwd)
    modifies config, bus
    ensures config.working == Render(Resolve(cwd, old(config.working)))
    ensures config.source == Render(Resolve(cwd, old(config.source)))
    ensures config.spec == Render(Resolve(cwd, old(config.spec)))
    ensures config.output == old(config.output) && config.tasks == old(config.tasks)
    ensures config.activityOrder == old(config.activityOrder)
    ensures bus.raised == old(bus.raised) +
      (if Resolve(cwd, old(config.working)) == Resolve(cwd, old(config.source)) then [AllStop(-1)] else [])
  {
    var working := Resolve(cwd, config.working);
    var source := Resolve(cwd, config.source);
    config.working := Render(working);
    config.source := Render(source);
    config.spec := Render(Resolve(cwd, config.spec));
    RenderInjective(working, source);
    if config.working == config.source {
      bus.Raise(AllStop(-1));
    }
  }

  /** The configuration service. */
  class Config {
    var args: seq<string>
    /** The shared configuration whose log switches `initialize` updates. */
    const defaults: ProjectConfig

    constructor (defaults: ProjectConfig)
      ensures this.defaults == defaults && args == []
    {
      this.defaults := defaults;
      args := [];
    }

    /** `loadConfig`: the resolved file's parsed content, or `{}` when the
        file does not exist. */
    method LoadConfig(fs: FileSystem, file: string, parse: string -> Settings) returns (config: Settings)
      ensures config == LoadedFrom(fs.store, fs.cwd, Render(Resolve(fs.cwd, file)), parse)
    {
      var p := Resolve(fs.cwd, file);
      var resolved := Render(p);
      if fs.PathExists(Text(resolved)) {
        var reply := fs.Read(Text(resolved));
        config := parse(reply.content);
      } else {
        config := map[];
      }
    }

    /** `loadPreferences`: the parsed content of "~/.anvil" (taken literally,
        relative to the working directory), or `{}` when it does not exist. */
    method LoadPreferences(fs: FileSystem, parse: string -> Settings) returns (config: Settings)
      ensures config == LoadedFrom(fs.store, fs.cwd, "~/.anvil", parse)
    {
      var userDefaults: Settings := map[];
      if fs.PathExists(Text("~/.anvil")) {
        var reply := fs.Read(Text("~/.anvil"));
        userDefaults := parse(reply.content);
      }
      config := userDefaults;
    }

    /** `getConfiguration`: the user preferences overridden by the build
        file's configuration. */
    method GetConfiguration(fs: FileSystem, buildFile: string, parse: string -> Settings) returns (config: Settings)
      ensures config == Override(
        LoadedFrom(fs.store, fs.cwd, "~/.anvil", parse),
        LoadedFrom(fs.store, fs.cwd, Render(Resolve(fs.cwd, buildFile)), parse))
    {
      var user := LoadPreferences(fs, parse);
      var local := LoadConfig(fs, buildFile, parse);
      config := Override(user, local);
    }

    /** `createCommand` over the stored arguments. */
    method CreateCommand() returns (command: Command)
      ensures command == ParseVersion <==> |args| > 2 && (args[2] == "-v" || args[2] == "--version")
    {
      if |args| > 2 && IsVersionFlag(args[2]) {
        command := ParseVersion;
      } else {
        command := OnCommander;
      }
      VersionFlagExact(if |args| > 2 then args[2] else "");
    }

    /** `initialize(argList)`: stores the arguments, selects the build file,
        applies the quiet rule (which wins) or the verbose rule to the shared
        log switches, loads the configuration and creates the command. */
    method Initialize(argList: seq<string>, fs: FileSystem, parse: string -> Settings)
      returns (buildFile: string, loaded: Settings, command: Command)
      modifies this, defaults.log
      ensures args == argList
      ensures buildFile == BuildFile(argList)
      ensures var log := defaults.log;
        if "-q" in argList || "--quiet" in argList then
          !log.debug && !log.event && !log.warning
        else if "--verbose" in argList then
          log.debug && log.warning && log.event == old(log.event)
        else
          log.debug == old(log.debug) && log.event == old(log.event) && log.warning == old(log.warning)
      ensures defaults.log.step == old(defaults.log.step)
      ensures defaults.log.complete == old(defaults.log.complete)
      ensures defaults.log.error == old(defaults.log.error)
      ensures loaded == Override(
        LoadedFrom(fs.store, fs.cwd, "~/.anvil", parse),
        LoadedFrom(fs.store, fs.cwd, Render(Resolve(fs.cwd, buildFile)), parse))
      ensures command == CommandFor(argList)
    {
      args := argList;
      buildFile := BuildFile(argList);
      defaults.log.ApplyArguments(argList);
      loaded := GetConfiguration(fs, buildFile, parse);
      command := CreateCommand();
    }
  }
}
