/** The fileLoader plugin of plugins/fileLoader/plugin.js: a three-state
    machine (waiting, scanning, watching) that loads the project's source and
    spec files, keeps an exclusion list and a stack of watchers, and calls the
    stored completion callback on every entry to `watching`.

    The state machine's `transition` sets the new state and then runs the new
    state's entry action; asynchronous completions are taken in the order the
    code chains them. */
module FileLoaderPlugin {
  import opened Common
  import opened Paths
  import opened FileSystem

  datatype State = Waiting | Scanning | Watching

  /** A watch handle returned by `fs.watch` for a root directory. */
  datatype Watcher = Watcher(root: string)

  /** The stored completion callback: the initial no-op, or the `done` handed
      to a `run`. */
  datatype Callback = Noop | Done(run: nat)

  /** `s` in reverse order. */
  function Reverse<T>(s: seq<T>): (r: seq<T>)
    ensures |r| == |s|
  {
    if s == [] then [] else Reverse(s[1..]) + [s[0]]
  }

  /** Reversal puts the last element first and keeps every element. */
  lemma {:induction false} ReverseIndex<T>(s: seq<T>)
    ensures forall i :: 0 <= i < |s| ==> Reverse(s)[i] == s[|s| - 1 - i]
    ensures multiset(Reverse(s)) == multiset(s)
  {
    if s != [] {
      ReverseIndex(s[1..]);
      assert s == [s[0]] + s[1..];
    }
  }

  /** The project's file lists, which the loader overwrites. */
  class Project {
    var files: seq<FileRecord>
    var specs: seq<FileRecord>
    var directories: seq<string>

    constructor ()
      ensures files == [] && specs == [] && directories == []
    {
      files, specs, directories := [], [], [];
    }
  }

  class FileLoader {
    /** The configured source, spec, working and output directories. */
    const source: string
    const spec: string
    const working: string
    const output: string
    /** The process working directory and the crawler `getFiles` uses. */
    const cwd: Path
    const crawler: Crawler
    const project: Project
    const bus: EventBus

    var state: State
    /** `config.continuous`: watch for changes after the build. */
    var continuous: bool
    var excluded: seq<string>
    var watchers: seq<Watcher>
    /** The watchers whose `end()` has been called, in call order. */
    var ended: seq<Watcher>
    var callback: Callback
    /** The callbacks invoked, in call order. */
    var invoked: seq<Callback>

    /** Between calls the machine is never left in `scanning`; it is in
        `waiting` until the first run ends; every run has added the output
        directory to the exclusion list once. */
    predicate Valid()
      reads this
    {
      && state != Scanning
      && (state == Waiting <==> invoked == [])
      && |excluded| == |invoked|
      && (forall i :: 0 <= i < |excluded| ==> excluded[i] == output)
    }

    constructor (source: string, spec: string, working: string, output: string,
                 cwd: Path, crawler: Crawler, project: Project, bus: EventBus)
      ensures this.source == source && this.spec == spec && this.working == working && this.output == output
      ensures this.cwd == cwd && this.crawler == crawler && this.project == project && this.bus == bus
      ensures state == Waiting && !continuous && callback == Noop
      ensures excluded == [] && watchers == [] && ended == [] && invoked == []
      ensures Valid()
    {
      this.source, this.spec, this.working, this.output := source, spec, working, output;
      this.cwd, this.crawler, this.project, this.bus := cwd, crawler, project, bus;
      state := Waiting;
      continuous := false;
      excluded, watchers, ended := [], [], [];
      callback := Noop;
      invoked := [];
    }

    /** `configure`: `--ci` turns continuous watching on; the exclusion list
        is left as it was. */
    method Configure(ci: bool)
      modifies this
      ensures continuous == (old(continuous) || ci)
      ensures excluded == old(excluded) && state == old(state) && watchers == old(watchers)
      ensures ended == old(ended) && callback == old(callback) && invoked == old(invoked)
    {
      if ci {
        continuous := true;
      }
    }

    /** `loadSource`: the source records, crawled with the exclusion list,
        replace the project's files and directories. */
    method LoadSource()
      modifies project
      ensures var listing := GetFiles(cwd, Text(source), working, crawler, Some(excluded));
        project.files == listing.records && project.directories == listing.directories
      ensures project.specs == old(project.specs)
    {
      var listing := GetFiles(cwd, Text(source), working, crawler, Some(excluded));
      project.files := listing.records;
      project.directories := listing.directories;
    }

    /** `loadSpecs`: the spec records, crawled with no filter, replace the
        project's specs, and their directories follow the source ones. */
    method LoadSpecs()
      modifies project
      ensures var listing := GetFiles(cwd, Text(spec), working, crawler, None);
        project.specs == listing.records && project.directories == old(project.directories) + listing.directories
      ensures project.files == old(project.files)
    {
      var listing := GetFiles(cwd, Text(spec), working, crawler, None);
      project.specs := listing.records;
      project.directories := project.directories + listing.directories;
    }

    /** `watch(path)`: a watcher for `path` is pushed. */
    method Watch(path: string)
      modifies this
      ensures watchers == old(watchers) + [Watcher(path)]
      ensures state == old(state) && continuous == old(continuous) && excluded == old(excluded)
      ensures ended == old(ended) && callback == old(callback) && invoked == old(invoked)
    {
      watchers := watchers + [Watcher(path)];
    }

    /** `watchAll`: the source and spec directories are watched. */
    method WatchAll()
      modifies this
      ensures watchers == old(watchers) + [Watcher(source), Watcher(spec)]
      ensures state == old(state) && continuous == old(continuous) && excluded == old(excluded)
      ensures ended == old(ended) && callback == old(callback) && invoked == old(invoked)
    {
      Watch(source);
      Watch(spec);
    }

    /** `unwatchAll`: every watcher is popped and ended, the most recent
        first, until none is left. */
    method UnwatchAll()
      modifies this
      ensures watchers == []
      ensures ended == old(ended) + Reverse(old(watchers))
      ensures state == old(state) && continuous == old(continuous) && excluded == old(excluded)
      ensures callback == old(callback) && invoked == old(invoked)
    {
      while |watchers| > 0
        invariant watchers == old(watchers)[..|watchers|]
        invariant ended == old(ended) + Reverse(old(watchers)[|watchers|..])
        invariant state == old(state) && continuous == old(continuous) && excluded == old(excluded)
        invariant callback == old(callback) && invoked == old(invoked)
        decreases |watchers|
      {
        var k := |watchers| - 1;
        var top := watchers[k];
        assert old(watchers)[k..][1..] == old(watchers)[k + 1..];
        watchers := watchers[..k];
        ended := ended + [top];
      }
    }

    /** Entering `watching`: with continuous watching on, the source and spec
        directories are watched; then the stored callback is invoked. */
    method EnterWatching()
      modifies this
      ensures state == old(state)
      ensures watchers == old(watchers) + (if continuous then [Watcher(source), Watcher(spec)] else [])
      ensures invoked == old(invoked) + [callback]
      ensures continuous == old(continuous) && excluded == old(excluded)
      ensures ended == old(ended) && callback == old(callback)
    {
      if continuous {
        WatchAll();
      }
      invoked := invoked + [callback];
    }

    /** Entering `scanning`: the output directory joins the exclusion list,
        then the sources are loaded, then the specs, then the machine moves to
        `watching`. */
    method EnterScanning()
      modifies this, project
      ensures state == Watching
      ensures excluded == old(excluded) + [output]
      ensures var sources := GetFiles(cwd, Text(source), working, crawler, Some(old(excluded) + [output]));
        var specs := GetFiles(cwd, Text(spec), working, crawler, None);
        && project.files == sources.records
        && project.specs == specs.records
        && project.directories == sources.directories + specs.directories
      ensures watchers == old(watchers) + (if continuous then [Watcher(source), Watcher(spec)] else [])
      ensures invoked == old(invoked) + [callback]
      ensures continuous == old(continuous) && ended == old(ended) && callback == old(callback)
    {
      excluded := excluded + [output];
      LoadSource();
      LoadSpecs();
      state := Watching;
      EnterWatching();
    }

    /** `run(done)`: `done` becomes the stored callback and the machine moves
        to `scanning`, which ends in `watching` with `done` called once. */
    method Run(done: Callback)
      requires Valid()
      modifies this, project
      ensures Valid()
      ensures state == Watching && callback == done
      ensures invoked == old(invoked) + [done]
      ensures excluded == old(excluded) + [output]
      ensures var sources := GetFiles(cwd, Text(source), working, crawler, Some(old(excluded) + [output]));
        var specs := GetFiles(cwd, Text(spec), working, crawler, None);
        && project.files == sources.records
        && project.specs == specs.records
        && project.directories == sources.directories + specs.directories
      ensures watchers == old(watchers) + (if continuous then [Watcher(source), Watcher(spec)] else [])
      ensures continuous == old(continuous) && ended == old(ended)
    {
      callback := done;
      state := Scanning;
      EnterScanning();
    }

    /** `handle("file.change", file, path)`: only `watching` handles it, by
        raising `file.changed` with ("change", file, path). */
    method HandleFileChange(file: string, path: string)
      modifies bus
      ensures bus.raised == old(bus.raised) + (if state == Watching then [FileChanged("change", file, path)] else [])
    {
      if state == Watching {
        bus.Raise(FileChanged("change", file, path));
      }
    }

    /** `handle("build.done")`: the `waiting` handler refers to an undeclared
        `self` and throws; the other states have no handler and ignore it. */
    method HandleBuildDone() returns (threw: bool)
      ensures threw <==> state == Waiting
    {
      threw := state == Waiting;
    }
  }

  /** Every run grows the exclusion list by one more copy of the output
      directory: after `n` runs it holds exactly `n` copies. */
  lemma ExcludedCountsRuns(loader: FileLoader)
    requires loader.Valid()
    ensures multiset(loader.excluded)[loader.output] == |loader.invoked|
  {
    var xs := loader.excluded;
    assert forall i :: 0 <= i < |xs| ==> xs[i] == loader.output;
    OnlyCopies(xs, loader.output);
  }

  lemma {:induction false} OnlyCopies(xs: seq<string>, x: string)
    requires forall i :: 0 <= i < |xs| ==> xs[i] == x
    ensures multiset(xs)[x] == |xs|
  {
    if xs != [] {
      OnlyCopies(xs[1..], x);
      assert xs == [xs[0]] + xs[1..];
    }
  }
}
