/** The file system service of src/fileSystem.js: path building, the file
    record derived for every crawled file, the mapping of crawler output to
    records, and read/write/transform/ensurePath/delete over the host file
    system, which is modelled as a store of files and directories keyed by
    resolved path. Completion callbacks become returned values: an error, or
    none. */
module FileSystem {
  import opened Common
  import opened Strings
  import opened Paths

  /** What `buildPath` accepts: nothing (`undefined`), a string, or an array
      of segments. */
  datatype PathSpec = Missing | Text(text: string) | Parts(parts: seq<string>)

  /** Every spec but an empty array: `buildPath` reads `pathSpec[0].match`
      and so throws a TypeError on `[]`. */
  predicate Buildable(spec: PathSpec)
  {
    !(spec.Parts? && spec.parts == [])
  }

  /** The "local" marker of a first segment: it starts with "./". */
  predicate HasLocalPrefix(seg: string)
  {
    StartsWith(seg, "./")
  }

  /** `buildPath` of a non-empty segment array: the joined segments, with "./"
      put back in front when the first segment had it. */
  function BuildPathFromParts(parts: seq<string>): string
    requires |parts| > 0
  {
    (if HasLocalPrefix(parts[0]) then "./" else "") + Join(parts)
  }

  /** `buildPath(pathSpec)`; `None` is the TypeError thrown for `[]`. */
  function BuildPath(spec: PathSpec): (r: Option<string>)
    ensures r.None? <==> !Buildable(spec)
  {
    match spec
    case Missing => Some("")
    case Text(s) => Some(s)
    case Parts(parts) => if parts == [] then None else Some(BuildPathFromParts(parts))
  }

  /** A string, or nothing, is passed through unchanged (nothing becomes ""),
      so building a path that was already built changes nothing. */
  lemma BuildPathIdempotent(spec: PathSpec)
    requires Buildable(spec)
    ensures spec.Text? ==> BuildPath(spec) == Some(spec.text)
    ensures spec.Missing? ==> BuildPath(spec) == Some("")
    ensures BuildPath(Text(BuildPath(spec).value)) == BuildPath(spec)
  {
  }

  lemma NormalizeKeepsRelative(s: string)
    requires !IsAbsolute(s)
    ensures !IsAbsolute(Normalize(s))
  {
    if s != "" {
      var segs := Split(s);
      SplitSlashFree(s);
      var n := Fold([], segs, true);
      FoldSegments([], segs, true);
      JoinWithEmpty(n);
      if JoinWith(n, "/") != "" {
        JoinWithNotAbsolute(n);
      }
    }
  }

  /** Joining segments whose first one starts with "./" gives a relative path. */
  lemma LocalJoinRelative(parts: seq<string>)
    requires |parts| > 0 && HasLocalPrefix(parts[0])
    ensures !IsAbsolute(Join(parts))
  {
    var joined := JoinWith(NonEmpty(parts), "/");
    assert NonEmpty(parts)[0] == parts[0];
    assert joined[0] == parts[0][0] == '.';
    NormalizeKeepsRelative(joined);
  }

  /** A segment array builds to a path that keeps the "./" marker of its first
      segment, is exactly `path.join` of the segments otherwise, and resolves
      like the segments joined with '/'. */
  lemma BuildPathParts(cwd: Path, parts: seq<string>)
    requires |parts| > 0
    ensures BuildPath(Parts(parts)).Some?
    ensures HasLocalPrefix(parts[0]) ==> HasLocalPrefix(BuildPath(Parts(parts)).value)
    ensures !HasLocalPrefix(parts[0]) ==> BuildPath(Parts(parts)).value == Join(parts)
    ensures Resolve(cwd, BuildPath(Parts(parts)).value) == Resolve(cwd, JoinWith(NonEmpty(parts), "/"))
  {
    ResolveJoin(cwd, parts);
    if HasLocalPrefix(parts[0]) {
      LocalJoinRelative(parts);
      ResolveLocalPrefix(cwd, Join(parts));
      assert ("./" + Join(parts))[..2] == "./";
    }
  }

  /** A file record: the fields `buildFileData` fills in. */
  datatype FileRecord = FileRecord(
    name: string,
    dependents: int,
    fullPath: string,
    imports: seq<string>,
    originalPath: string,
    relativePath: string,
    workingPath: string)
  {
    /** The record's `extension()`: `path.extname` of its name, which for a
        name (no '/') is its last '.'-suffix unless that dot leads the name. */
    function Extension(): (ext: string)
      ensures '/' !in name ==> ext == ExtOfName(name)
    {
      Extname(name)
    }
  }

  /** `buildFileData(workingBase, file)` with the process working directory
      `cwd`: the project base is `path.resolve("./")`, the relative path is the
      directory of the resolved file once the first occurrence of the project
      base is removed, and the working path puts that directory under
      `workingBase`. */
  function BuildFileData(cwd: Path, workingBase: string, file: string): (r: FileRecord)
    ensures r.dependents == 0 && r.imports == []
    ensures r.fullPath == r.originalPath == Render(Resolve(cwd, file))
  {
    var projectBase := Render(Resolve(cwd, "./"));
    var full := Resolve(cwd, file);
    var relative := Dirname(ReplaceFirst(Render(full), projectBase, ""));
    FileRecord(
      name := Basename(full),
      dependents := 0,
      fullPath := Render(full),
      imports := [],
      originalPath := Render(full),
      relativePath := relative,
      workingPath := Render(Resolve(cwd, BuildPathFromParts([workingBase, relative]))))
  }

  lemma ResolveHere(cwd: Path)
    requires Canonical(cwd)
    ensures Resolve(cwd, "./") == cwd
  {
    SplitConcat(".", "");
    assert "." + "/" + "" == "./";
    SplitNoSlash(".");
    assert Split("") == [""];
    FoldNames([], cwd, false);
  }

  /** Removing the first occurrence of a path's text from the text of a path
      below it leaves the text of the rest. */
  lemma StripBase(base: Path, rest: Path)
    requires base != [] && rest != []
    ensures ReplaceFirst(Render(base + rest), Render(base), "") == Render(rest)
  {
    JoinWithAppend(base, rest, "/");
    var text := Render(base + rest);
    assert text == Render(base) + Render(rest);
    assert text[..|Render(base)|] == Render(base);
    assert text[|Render(base)|..] == Render(rest);
  }

  /** The working path built from a working base and the text of a directory
      is that directory under the resolved working base. */
  lemma WorkingPathUnder(cwd: Path, workingBase: string, dir: Path)
    requires Canonical(dir) && workingBase != ""
    ensures Render(Resolve(cwd, BuildPathFromParts([workingBase, Render(dir)]))) == Render(Resolve(cwd, workingBase) + dir)
  {
    var relative := Render(dir);
    BuildPathParts(cwd, [workingBase, relative]);
    assert NonEmpty([workingBase, relative]) == [workingBase, relative] by {
      assert [workingBase, relative][1..] == [relative];
      assert [relative][1..] == [];
    }
    assert JoinWith([workingBase, relative], "/") == workingBase + "/" + relative;
    ResolveUnder(cwd, workingBase, dir);
  }

  /** For a file in directory `dir` below the project base: the record's name
      is the file's name, its relative path is the text of `dir`, and its
      working path is `dir` placed under the resolved working base. The
      working path is a directory: it does not end in the file name. */
  lemma BuildFileDataMirrors(cwd: Path, workingBase: string, file: string, dir: seq<string>, name: string)
    requires Canonical(cwd) && cwd != []
    requires Canonical(dir) && IsName(name)
    requires Resolve(cwd, file) == cwd + dir + [name]
    requires workingBase != ""
    ensures BuildFileData(cwd, workingBase, file).name == name
    ensures BuildFileData(cwd, workingBase, file).relativePath == Render(dir)
    ensures BuildFileData(cwd, workingBase, file).workingPath == Render(Resolve(cwd, workingBase) + dir)
  {
    ResolveHere(cwd);
    assert cwd + dir + [name] == cwd + (dir + [name]);
    StripBase(cwd, dir + [name]);
    DirnameChild(dir, name);
    WorkingPathUnder(cwd, workingBase, dir);
  }

  /** What the crawler reports for a root and an exclusion list: the files and
      the directories it found, in discovery order. */
  datatype Crawl = Crawl(files: seq<string>, directories: seq<string>)

  type Crawler = (string, seq<string>) -> Crawl

  /** What `getFiles` hands its callback. */
  datatype Listing = Listing(records: seq<FileRecord>, directories: seq<string>)

  /** `getFiles(pathSpec, workingPath, onFiles, filter)`: crawls the built
      path with `filter` (an empty list when none is given) and maps every
      crawled file to its record. */
  function GetFiles(cwd: Path, spec: PathSpec, workingPath: string, crawler: Crawler, filter: Option<seq<string>>): (listing: Listing)
    requires Buildable(spec)
    ensures var crawl := crawler(BuildPath(spec).value, if filter.Some? then filter.value else []);
      && |listing.records| == |crawl.files|
      && (forall i :: 0 <= i < |crawl.files| ==> listing.records[i] == BuildFileData(cwd, workingPath, crawl.files[i]))
      && (forall i :: 0 <= i < |crawl.files| ==> listing.records[i].fullPath == Render(Resolve(cwd, crawl.files[i])))
      && listing.directories == crawl.directories
  {
    var crawl := crawler(BuildPath(spec).value, if filter.Some? then filter.value else []);
    Listing(
      seq(|crawl.files|, i requires 0 <= i < |crawl.files| => BuildFileData(cwd, workingPath, crawl.files[i])),
      crawl.directories)
  }

  // ---------------------------------------------------------------------------
  // The host file system

  /** The host file system: file contents and directories by resolved path. */
  datatype Store = Store(files: map<Path, string>, dirs: set<Path>)

  function Parent(p: Path): Path
    requires p != []
  {
    p[..|p| - 1]
  }

  /** The store is a tree: the root is a directory, every file sits in a
      directory, every directory but the root sits in a directory, and no path
      is both a file and a directory. */
  predicate Wellformed(s: Store)
  {
    && [] in s.dirs
    && (forall p :: p in s.files ==> p != [] && Parent(p) in s.dirs && p !in s.dirs)
    && (forall d :: d in s.dirs && d != [] ==> Parent(d) in s.dirs)
  }

  predicate Exists(s: Store, p: Path)
  {
    p in s.files || p in s.dirs
  }

  /** What `read` hands its callback: the content, or "" and the error. */
  datatype ReadReply = ReadReply(content: string, error: Option<Error>)

  /** `fs.readFile(p, "utf8")` seen through `read`'s callback convention. */
  function ReadFrom(s: Store, p: Path): (r: ReadReply)
    ensures r.error.None? <==> p in s.files
    ensures r.error.None? ==> r.content == s.files[p]
    ensures r.error.Some? ==> r.content == ""
  {
    if p in s.files then ReadReply(s.files[p], None)
    else if p in s.dirs then ReadReply("", Some(IsDirectory))
    else ReadReply("", Some(NoEntry))
  }

  /** `fs.writeFile(p, content)`: fails on a directory, when an ancestor is a
      file and when the parent is missing; otherwise creates or replaces the
      file. */
  function WriteTo(s: Store, p: Path, content: string): (Store, Option<Error>)
  {
    if p == [] || p in s.dirs then (s, Some(IsDirectory))
    else if exists k :: 0 <= k < |p| && p[..k] in s.files then (s, Some(NotDirectory))
    else if Parent(p) !in s.dirs then (s, Some(NoEntry))
    else (Store(s.files[p := content], s.dirs), None)
  }

  /** A write succeeds exactly when the target is not a directory and its
      parent directory exists; a successful write is read back, and no other
      path changes. */
  lemma WriteThenRead(s: Store, p: Path, content: string, q: Path)
    requires Wellformed(s)
    ensures WriteTo(s, p, content).1.None? <==> (p != [] && p !in s.dirs && Parent(p) in s.dirs)
    ensures WriteTo(s, p, content).1.None? ==> ReadFrom(WriteTo(s, p, content).0, p) == ReadReply(content, None)
    ensures q != p ==> ReadFrom(WriteTo(s, p, content).0, q) == ReadFrom(s, q)
    ensures WriteTo(s, p, content).0.dirs == s.dirs
  {
    if p != [] && Parent(p) in s.dirs {
      DirAncestors(s, Parent(p));
      forall k | 0 <= k < |p|
        ensures p[..k] !in s.files
      {
        assert p[..k] == Parent(p)[..k];
      }
    }
  }

  /** In a tree every ancestor of a directory is a directory. */
  lemma {:induction false} DirAncestors(s: Store, d: Path)
    requires Wellformed(s) && d in s.dirs
    ensures forall k :: 0 <= k <= |d| ==> d[..k] in s.dirs
    decreases |d|
  {
    assert d[..|d|] == d;
    if d != [] {
      DirAncestors(s, Parent(d));
      forall k | 0 <= k < |d|
        ensures d[..k] in s.dirs
      {
        assert d[..k] == Parent(d)[..k];
      }
    }
  }

  lemma WritePreservesWellformed(s: Store, p: Path, content: string)
    requires Wellformed(s)
    ensures Wellformed(WriteTo(s, p, content).0)
  {
  }

  /** All the ancestors of a path, and the path itself. */
  function Prefixes(p: Path): (r: set<Path>)
    ensures forall k :: 0 <= k <= |p| ==> p[..k] in r
  {
    set k | 0 <= k <= |p| :: p[..k]
  }

  /** `mkdir(p, "0755")`, creating missing ancestors: fails with EEXIST when
      the path is a file and with ENOTDIR when one of its ancestors is. */
  function MakeDirs(s: Store, p: Path): (Store, Option<Error>)
  {
    if p in s.files then (s, Some(AlreadyExists))
    else if exists k :: 0 <= k < |p| && p[..k] in s.files then (s, Some(NotDirectory))
    else (Store(s.files, s.dirs + Prefixes(p)), None)
  }

  // ---------------------------------------------------------------------------
  // Path texts as the host's file calls see them

  /** A text that names its resolved path whatever that path is: not "" (which
      names nothing) and not ending in '/' (which names only a directory). */
  predicate Plain(text: string)
  {
    text != "" && text[|text| - 1] != '/'
  }

  /** The path the host's file calls reach through a text in `cwd`: none for
      "", and none for a text ending in '/' unless it resolves to a
      directory. */
  function Reach(s: Store, cwd: Path, text: string): (r: Option<Path>)
    ensures r.Some? ==> r.value == Resolve(cwd, text)
    ensures Plain(text) ==> r == Some(Resolve(cwd, text))
  {
    if text == "" || (!Plain(text) && Resolve(cwd, text) !in s.dirs) then None
    else Some(Resolve(cwd, text))
  }

  /** `fs.existsSync(text)` (and `path.exists`): "" exists nowhere, and a text
      ending in '/' exists only as a directory. */
  predicate HostExists(s: Store, cwd: Path, text: string)
    ensures HostExists(s, cwd, text) <==>
      text != "" && (Resolve(cwd, text) in s.dirs || (Plain(text) && Resolve(cwd, text) in s.files))
  {
    Reach(s, cwd, text).Some? && Exists(s, Reach(s, cwd, text).value)
  }

  /** `fs.readFile(text, "utf8")`: "" gives ENOENT and a file named with a
      trailing '/' gives ENOTDIR; otherwise the resolved path is read. */
  function ReadAt(s: Store, cwd: Path, text: string): (r: ReadReply)
    ensures Plain(text) ==> r == ReadFrom(s, Resolve(cwd, text))
    ensures Wellformed(s) ==> (r.error.None? <==> Plain(text) && Resolve(cwd, text) in s.files)
    ensures r.error.None? ==> Resolve(cwd, text) in s.files && r.content == s.files[Resolve(cwd, text)]
    ensures r.error.Some? ==> r.content == ""
    ensures text == "" ==> r.error == Some(NoEntry)
  {
    match Reach(s, cwd, text)
    case None => ReadReply("", Some(if text != "" && Resolve(cwd, text) in s.files then NotDirectory else NoEntry))
    case Some(p) => ReadFrom(s, p)
  }

  /** `fs.writeFile(text, content)`: "" gives ENOENT, a file named with a
      trailing '/' gives ENOTDIR and a missing one EISDIR; otherwise the
      resolved path is written. */
  function WriteAt(s: Store, cwd: Path, text: string, content: string): (r: (Store, Option<Error>))
    ensures Plain(text) ==> r == WriteTo(s, Resolve(cwd, text), content)
    ensures !Plain(text) ==> r.0 == s && r.1.Some?
    ensures text == "" ==> r.1 == Some(NoEntry)
  {
    match Reach(s, cwd, text)
    case None =>
      (s, Some(if text == "" then NoEntry else if Resolve(cwd, text) in s.files then NotDirectory else IsDirectory))
    case Some(p) => WriteTo(s, p, content)
  }

  /** `ensurePath`: nothing to do when the text exists, otherwise make its
      resolved path and the missing ancestors. */
  function EnsurePathIn(s: Store, cwd: Path, text: string): (Store, Option<Error>)
  {
    if HostExists(s, cwd, text) then (s, None) else MakeDirs(s, Resolve(cwd, text))
  }

  /** After `ensurePath` succeeds on a non-empty text the text exists; files
      are never touched; a tree stays a tree. */
  lemma EnsurePathEstablishes(s: Store, cwd: Path, text: string)
    requires Wellformed(s)
    ensures EnsurePathIn(s, cwd, text).1.None? && text != "" ==> HostExists(EnsurePathIn(s, cwd, text).0, cwd, text)
    ensures EnsurePathIn(s, cwd, text).0.files == s.files
    ensures s.dirs <= EnsurePathIn(s, cwd, text).0.dirs
    ensures Wellformed(EnsurePathIn(s, cwd, text).0)
  {
    var p := Resolve(cwd, text);
    if !HostExists(s, cwd, text) && !(exists k :: 0 <= k <= |p| && p[..k] in s.files) {
      var t := EnsurePathIn(s, cwd, text).0;
      assert p[..|p|] == p;
      assert p in t.dirs;
      forall d | d in t.dirs && d != []
        ensures Parent(d) in t.dirs
      {
        if d !in s.dirs {
          var k :| 0 <= k <= |p| && d == p[..k];
          assert Parent(d) == p[..k - 1];
        }
      }
      forall f, k | f in t.files && 0 <= k <= |p|
        ensures f != p[..k]
      {
      }
    }
  }

  /** What a caller-supplied transform hands back. */
  datatype TransformReply = TransformReply(modified: string, error: Option<Error>)

  /** `transform(from, transform, to)`: the content read from `from` ("" when
      the read fails) is transformed, and the result is written to `to` only
      when the transform reports no error. */
  function TransformIn(s: Store, cwd: Path, from: string, transform: string -> TransformReply, to: string): (Store, Option<Error>)
  {
    var t := transform(ReadAt(s, cwd, from).content);
    if t.error.None? then WriteAt(s, cwd, to, t.modified) else (s, t.error)
  }

  /** A transform that fails, or whose write fails, leaves the store as it
      was; on success the target reads back as the transform's output and no
      other path changes; a failed read feeds the transform "". */
  lemma TransformWritesOnlyOnSuccess(s: Store, cwd: Path, from: string, transform: string -> TransformReply, to: string, q: Path)
    requires Wellformed(s)
    ensures var r := TransformIn(s, cwd, from, transform, to);
      && (r.1.Some? ==> r.0 == s)
      && (transform(ReadAt(s, cwd, from).content).error.Some? ==> r.1 == transform(ReadAt(s, cwd, from).content).error)
      && (r.1.None? ==> ReadAt(r.0, cwd, to) == ReadReply(transform(ReadAt(s, cwd, from).content).modified, None))
      && (q != Resolve(cwd, to) ==> ReadFrom(r.0, q) == ReadFrom(s, q))
    ensures ReadAt(s, cwd, from).error.Some? ==>
      TransformIn(s, cwd, from, transform, to) == TransformIn(s, cwd, from, _ => transform(""), to)
  {
    var t := transform(ReadAt(s, cwd, from).content);
    if t.error.None? && Plain(to) {
      WriteThenRead(s, Resolve(cwd, to), t.modified, q);
    }
  }

  /** Whether `onDeleted` was called, and with which error. */
  datatype DeleteOutcome = NotCalled | Called(error: Option<Error>)

  /** `fs.unlink` of an existing path: removes a file and fails on a
      directory; a missing path is left alone and `onDeleted` is never
      called. */
  function DeleteIn(s: Store, p: Path): (Store, DeleteOutcome)
  {
    if p in s.files then (Store(s.files - {p}, s.dirs), Called(None))
    else if p in s.dirs then (s, Called(Some(IsDirectory)))
    else (s, NotCalled)
  }

  lemma DeleteRemovesFile(s: Store, p: Path)
    requires Wellformed(s)
    ensures p in s.files ==> !Exists(DeleteIn(s, p).0, p) && DeleteIn(s, p).1 == Called(None)
    ensures DeleteIn(s, p).1.NotCalled? <==> !Exists(s, p)
    ensures forall q :: q != p ==> ReadFrom(DeleteIn(s, p).0, q) == ReadFrom(s, q)
    ensures Wellformed(DeleteIn(s, p).0)
  {
  }

  /** `delete` with a working `pathExists`: only a text that exists is
      unlinked, so "" and a file named with a trailing '/' are left alone and
      `onDeleted` is never called for them. */
  function DeleteAt(s: Store, cwd: Path, text: string): (r: (Store, DeleteOutcome))
    ensures Plain(text) ==> r == DeleteIn(s, Resolve(cwd, text))
    ensures r.1.NotCalled? <==> !HostExists(s, cwd, text)
    ensures Wellformed(s) && r.1 == Called(None) ==> Plain(text)
    ensures r.0 != s ==> r.0 == DeleteIn(s, Resolve(cwd, text)).0
    ensures Wellformed(s) && r.0 != s ==> Plain(text)
  {
    match Reach(s, cwd, text)
    case None => (s, NotCalled)
    case Some(p) => DeleteIn(s, p)
  }

  /** `pathExists` as written: it computes `path.existsSync` but has no
      `return`, so every call yields `undefined`. */
  function ExistsAsWritten(s: Store, cwd: Path, text: string): (r: bool)
    ensures !r
  {
    false
  }

  /** The as-written `pathExists` denies every path that exists. */
  lemma ExistsAsWrittenMissesExisting(s: Store, cwd: Path, text: string)
    requires HostExists(s, cwd, text)
    ensures HostExists(s, cwd, text) != ExistsAsWritten(s, cwd, text)
  {
  }

  /** The file system service over the host store, in the working directory
      `cwd`. */
  class FileSystem {
    const cwd: Path
    var store: Store

    constructor (cwd: Path, store: Store)
      ensures this.cwd == cwd && this.store == store
    {
      this.cwd := cwd;
      this.store := store;
    }

    /** The text `buildPath` makes of a spec. */
    function Built(spec: PathSpec): string
      requires Buildable(spec)
    {
      BuildPath(spec).value
    }

    /** The resolved path a spec's text names. */
    function Locate(spec: PathSpec): Path
      requires Buildable(spec)
    {
      Resolve(cwd, Built(spec))
    }

    /** `pathExists` as intended: `path.existsSync` of the built text, which
        is false for "" and, for a text ending in '/', true only of a
        directory. */
    function PathExists(spec: PathSpec): (r: bool)
      requires Buildable(spec)
      reads this
      ensures r <==>
        Built(spec) != "" && (Locate(spec) in store.dirs || (Plain(Built(spec)) && Locate(spec) in store.files))
    {
      HostExists(store, cwd, Built(spec))
    }

    /** `pathExists` as written. */
    function PathExistsAsWritten(spec: PathSpec): (r: bool)
      requires Buildable(spec)
      reads this
      ensures !r
    {
      ExistsAsWritten(store, cwd, Built(spec))
    }

    method Read(spec: PathSpec) returns (reply: ReadReply)
      requires Buildable(spec)
      ensures reply == ReadAt(store, cwd, Built(spec))
    {
      reply := ReadAt(store, cwd, Built(spec));
    }

    method Write(spec: PathSpec, content: string) returns (error: Option<Error>)
      requires Buildable(spec)
      modifies this
      ensures (store, error) == WriteAt(old(store), cwd, Built(spec), content)
    {
      var written := WriteAt(store, cwd, Built(spec), content);
      store, error := written.0, written.1;
    }

    method EnsurePath(spec: PathSpec) returns (error: Option<Error>)
      requires Buildable(spec)
      modifies this
      ensures (store, error) == EnsurePathIn(old(store), cwd, Built(spec))
    {
      if PathExists(spec) {
        error := None;
      } else {
        var made := MakeDirs(store, Locate(spec));
        store, error := made.0, made.1;
      }
    }

    method Transform(from: PathSpec, transform: string -> TransformReply, to: PathSpec) returns (error: Option<Error>)
      requires Buildable(from) && Buildable(to)
      modifies this
      ensures (store, error) == TransformIn(old(store), cwd, Built(from), transform, Built(to))
    {
      var reply := Read(from);
      var t := transform(reply.content);
      if t.error.None? {
        error := Write(to, t.modified);
      } else {
        error := t.error;
      }
    }

    method Delete(spec: PathSpec) returns (outcome: DeleteOutcome)
      requires Buildable(spec)
      modifies this
      ensures (store, outcome) == DeleteAt(old(store), cwd, Built(spec))
    {
      if PathExists(spec) {
        var p := Locate(spec);
        if p in store.files {
          store := Store(store.files - {p}, store.dirs);
          outcome := Called(None);
        } else {
          outcome := Called(Some(IsDirectory));
        }
      } else {
        outcome := NotCalled;
      }
    }

    /** `delete` as written: its `pathExists` test never passes, so nothing is
        unlinked and `onDeleted` is never called. */
    method DeleteAsWritten(spec: PathSpec) returns (outcome: DeleteOutcome)
      requires Buildable(spec)
      ensures outcome == NotCalled
    {
      if PathExistsAsWritten(spec) {
        outcome := Called(None);
      } else {
        outcome := NotCalled;
      }
    }
  }
}
