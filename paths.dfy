/** The POSIX behaviour of node's `path` module that the file system service
    relies on: `join`, `normalize`, `resolve` (against a given working
    directory), `dirname`, `basename` and `extname`.

    A resolved path is kept as the list of its segments below the root, so
    "/home/p/src" is ["home", "p", "src"]; `Render` gives its text. Normalising
    a path is a left fold over its '/'-separated segments that drops empty and
    "." segments and lets ".." remove the segment before it. */
module Paths {
  import opened Common
  import opened Strings

  /** A resolved absolute path: its segments below the root. */
  type Path = seq<string>

  function Split(s: string): seq<string>
  {
    SplitOn(s, "/")
  }

  predicate IsAbsolute(s: string)
  {
    |s| > 0 && s[0] == '/'
  }

  /** A segment that names a file or directory. */
  predicate IsName(seg: string)
  {
    seg != "" && seg != "." && seg != ".." && '/' !in seg
  }

  /** The segments of a resolved path are all names. */
  predicate Canonical(p: seq<string>)
  {
    forall i :: 0 <= i < |p| ==> IsName(p[i])
  }

  /** What a relative normalisation keeps: names, and ".." segments. */
  predicate Segments(r: seq<string>)
  {
    forall i :: 0 <= i < |r| ==> r[i] != "" && r[i] != "." && '/' !in r[i]
  }

  predicate SlashFree(segs: seq<string>)
  {
    forall i :: 0 <= i < |segs| ==> '/' !in segs[i]
  }

  /** One step of normalisation. `aboveRoot` says whether a ".." that has
      nothing left to remove is kept (relative paths) or dropped (absolute). */
  function Step(acc: seq<string>, seg: string, aboveRoot: bool): seq<string>
  {
    if seg == "" || seg == "." then acc
    else if seg == ".." then
      if |acc| > 0 && acc[|acc| - 1] != ".." then acc[..|acc| - 1]
      else if aboveRoot then acc + [".."]
      else acc
    else acc + [seg]
  }

  function Fold(acc: seq<string>, segs: seq<string>, aboveRoot: bool): seq<string>
    decreases |segs|
  {
    if segs == [] then acc else Fold(Step(acc, segs[0], aboveRoot), segs[1..], aboveRoot)
  }

  /** `path.normalize(s)`: a leading '/' and a trailing '/' are kept; an
      empty relative result is "." (or "./" when `s` ended with '/'). */
  function Normalize(s: string): string
  {
    if s == "" then "."
    else
      var absolute := s[0] == '/';
      var trailing := s[|s| - 1] == '/';
      var body := JoinWith(Fold([], Split(s), !absolute), "/");
      if body == "" then (if absolute then "/" else if trailing then "./" else ".")
      else (if absolute then "/" else "") + body + (if trailing then "/" else "")
  }

  /** The arguments `path.join` keeps: the non-empty ones, in order. */
  function NonEmpty(parts: seq<string>): (r: seq<string>)
    ensures forall i :: 0 <= i < |r| ==> r[i] != ""
    ensures |r| <= |parts|
  {
    if parts == [] then []
    else (if parts[0] == "" then [] else [parts[0]]) + NonEmpty(parts[1..])
  }

  /** `path.join(parts...)`. */
  function Join(parts: seq<string>): string
  {
    var joined := JoinWith(NonEmpty(parts), "/");
    if joined == "" then "." else Normalize(joined)
  }

  /** `path.resolve(s)` in the working directory `cwd`: an absolute `s` is
      normalised on its own, a relative one is normalised after `cwd`. */
  function Resolve(cwd: Path, s: string): (p: Path)
    ensures Canonical(cwd) ==> Canonical(p)
  {
    SplitSlashFree(s);
    FoldCanonical(if IsAbsolute(s) then [] else cwd, Split(s));
    Fold(if IsAbsolute(s) then [] else cwd, Split(s), false)
  }

  /** The text of a resolved path. */
  function Render(p: Path): string
  {
    "/" + JoinWith(p, "/")
  }

  /** `path.basename` of a resolved path: its last segment, "" for the root. */
  function Basename(p: Path): string
  {
    if p == [] then "" else p[|p| - 1]
  }

  /** Where `path.dirname` cuts: scanning down from `i` to position 1, the first
      '/' met after at least one other character; -1 when there is none. */
  function DirEnd(s: string, i: int, matchedSlash: bool): (r: int)
    requires i < |s|
    ensures r == -1 || 1 <= r <= i
    decreases i
  {
    if i < 1 then -1
    else if s[i] == '/' then (if matchedSlash then DirEnd(s, i - 1, true) else i)
    else DirEnd(s, i - 1, false)
  }

  /** `path.dirname(s)`. */
  function Dirname(s: string): string
  {
    if s == "" then "."
    else
      var end := DirEnd(s, |s| - 1, true);
      if end == -1 then (if s[0] == '/' then "/" else ".")
      else if s[0] == '/' && end == 1 then "//"
      else s[..end]
  }

  /** `s.lastIndexOf(c)`. */
  function LastIndexOf(s: string, c: char): (r: Option<nat>)
    ensures r.Some? ==> r.value < |s| && s[r.value] == c && c !in s[r.value + 1..]
    ensures r.None? ==> c !in s
    decreases |s|
  {
    if s == [] then None
    else if s[|s| - 1] == c then Some(|s| - 1)
    else
      var r := LastIndexOf(s[..|s| - 1], c);
      assert s == s[..|s| - 1] + [s[|s| - 1]];
      r
  }

  /** The extension of one segment: from its last '.' to its end, unless the
      segment has no '.', its only '.' is its first character, or it is "..". */
  function ExtOfName(name: string): (ext: string)
    ensures ext == "" || (ext[0] == '.' && '.' !in ext[1..] && |ext| < |name| && name[|name| - |ext|..] == ext)
    ensures ext == "" <==> ('.' !in name || name == ".." || (name[0] == '.' && '.' !in name[1..]))
  {
    match LastIndexOf(name, '.')
    case None => ""
    case Some(d) =>
      if d == 0 || name == ".." then ""
      else
        assert name[1..][d - 1] == '.';
        name[d..]
  }

  function TrimTrailingSlashes(s: string): string
  {
    if s != [] && s[|s| - 1] == '/' then TrimTrailingSlashes(s[..|s| - 1]) else s
  }

  /** `path.extname(s)`: the extension of the last segment of `s`, trailing
      slashes ignored. */
  function Extname(s: string): (ext: string)
    ensures '/' !in s ==> ext == ExtOfName(s)
  {
    var parts := Split(TrimTrailingSlashes(s));
    SplitNoSlashTrimmed(s);
    ExtOfName(parts[|parts| - 1])
  }

  // ---------------------------------------------------------------------------
  // Splitting and joining segments

  lemma SplitSlashFree(s: string)
    ensures SlashFree(Split(s))
  {
    var pieces := Split(s);
    SplitOnPiecesFree(s, "/");
    forall i | 0 <= i < |pieces|
      ensures '/' !in pieces[i]
    {
      forall j | 0 <= j < |pieces[i]|
        ensures pieces[i][j] != '/'
      {
        assert !OccursAt(pieces[i], "/", j);
        assert pieces[i][j..j + 1] == [pieces[i][j]];
      }
    }
  }

  lemma {:induction false} SplitNoSlash(s: string)
    requires '/' !in s
    ensures Split(s) == [s]
    decreases |s|
  {
    if s != [] {
      assert !StartsWith(s, "/") by { assert s[..1] == [s[0]]; }
      assert '/' !in s[1..];
      SplitNoSlash(s[1..]);
      assert s == [s[0]] + s[1..];
    }
  }

  lemma SplitNoSlashTrimmed(s: string)
    ensures '/' !in s ==> TrimTrailingSlashes(s) == s && Split(s) == [s]
  {
    if '/' !in s {
      SplitNoSlash(s);
    }
  }

  /** A leading '/' splits off an empty first segment. */
  lemma SplitSlashHead(s: string)
    requires s != [] && s[0] == '/'
    ensures Split(s) == [""] + Split(s[1..])
  {
    assert s[..1] == "/";
  }

  /** Any other leading character joins the first segment of the rest. */
  lemma SplitOtherHead(s: string)
    requires s != [] && s[0] != '/'
    ensures Split(s) == [[s[0]] + Split(s[1..])[0]] + Split(s[1..])[1..]
  {
    assert s[..1] == [s[0]];
  }

  /** Splitting at a '/' splits the two sides independently. */
  lemma {:induction false} SplitConcat(a: string, b: string)
    ensures Split(a + "/" + b) == Split(a) + Split(b)
    decreases |a|
  {
    var s := a + "/" + b;
    if a == [] {
      SplitSlashHead(s);
      assert s[1..] == b;
    } else {
      assert s[0] == a[0] && s[1..] == a[1..] + "/" + b;
      SplitConcat(a[1..], b);
      if a[0] == '/' {
        SplitSlashHead(s);
        SplitSlashHead(a);
      } else {
        SplitOtherHead(s);
        SplitOtherHead(a);
        var rest := Split(a[1..]) + Split(b);
        assert rest[0] == Split(a[1..])[0];
        assert rest[1..] == Split(a[1..])[1..] + Split(b);
      }
    }
  }

  /** Splitting the text of '/'-free segments gives the segments back. */
  lemma {:induction false} SplitJoin(ps: seq<string>)
    requires |ps| >= 1 && SlashFree(ps)
    ensures Split(JoinWith(ps, "/")) == ps
    decreases |ps|
  {
    if |ps| == 1 {
      SplitNoSlash(ps[0]);
    } else {
      assert SlashFree(ps[1..]) by {
        forall i | 0 <= i < |ps| - 1 ensures '/' !in ps[1..][i] {
          assert ps[1..][i] == ps[i + 1];
        }
      }
      SplitJoin(ps[1..]);
      assert JoinWith(ps, "/") == ps[0] + "/" + JoinWith(ps[1..], "/");
      SplitConcat(ps[0], JoinWith(ps[1..], "/"));
      SplitNoSlash(ps[0]);
      assert [ps[0]] + ps[1..] == ps;
    }
  }

  lemma JoinWithEmpty(ps: seq<string>)
    requires forall i :: 0 <= i < |ps| ==> ps[i] != ""
    ensures JoinWith(ps, "/") == "" <==> ps == []
  {
    if |ps| >= 1 {
      assert |JoinWith(ps, "/")| >= |ps[0]|;
    }
  }

  /** The text of non-empty '/'-free segments starts with the first one's
      first character, so it is not absolute. */
  lemma JoinWithNotAbsolute(ps: seq<string>)
    requires |ps| >= 1 && ps[0] != "" && '/' !in ps[0]
    ensures !IsAbsolute(JoinWith(ps, "/"))
  {
    assert JoinWith(ps, "/")[0] == ps[0][0];
  }

  // ---------------------------------------------------------------------------
  // Normalisation

  lemma FoldOne(acc: seq<string>, seg: string, aboveRoot: bool)
    ensures Fold(acc, [seg], aboveRoot) == Step(acc, seg, aboveRoot)
  {
    assert [seg][1..] == [];
  }

  lemma {:induction false} FoldConcat(acc: seq<string>, a: seq<string>, b: seq<string>, aboveRoot: bool)
    ensures Fold(acc, a + b, aboveRoot) == Fold(Fold(acc, a, aboveRoot), b, aboveRoot)
    decreases |a|
  {
    if a == [] {
      assert a + b == b;
    } else {
      assert (a + b)[0] == a[0] && (a + b)[1..] == a[1..] + b;
      FoldConcat(Step(acc, a[0], aboveRoot), a[1..], b, aboveRoot);
    }
  }

  /** Names are appended as they are. */
  lemma {:induction false} FoldNames(acc: seq<string>, names: seq<string>, aboveRoot: bool)
    requires Canonical(names)
    ensures Fold(acc, names, aboveRoot) == acc + names
    decreases |names|
  {
    if names != [] {
      assert IsName(names[0]);
      FoldNames(acc + [names[0]], names[1..], aboveRoot);
      assert acc + [names[0]] + names[1..] == acc + names;
    }
  }

  lemma {:induction false} FoldCanonical(acc: seq<string>, segs: seq<string>)
    ensures Canonical(acc) && SlashFree(segs) ==> Canonical(Fold(acc, segs, false))
    decreases |segs|
  {
    if segs != [] && Canonical(acc) && SlashFree(segs) {
      assert '/' !in segs[0];
      FoldCanonical(Step(acc, segs[0], false), segs[1..]);
    }
  }

  lemma {:induction false} FoldSegments(acc: seq<string>, segs: seq<string>, aboveRoot: bool)
    requires Segments(acc) && SlashFree(segs)
    ensures Segments(Fold(acc, segs, aboveRoot))
    decreases |segs|
  {
    if segs != [] {
      assert '/' !in segs[0];
      FoldSegments(Step(acc, segs[0], aboveRoot), segs[1..], aboveRoot);
    }
  }

  /** One relative step, then resolving, is resolving, then the same step. */
  lemma StepCommutes(c: seq<string>, r: seq<string>, x: string)
    requires Segments(r)
    ensures Fold(c, Step(r, x, true), false) == Step(Fold(c, r, false), x, false)
  {
    if x == "" || x == "." {
    } else if x == ".." {
      if |r| > 0 && r[|r| - 1] != ".." {
        var init, last := r[..|r| - 1], r[|r| - 1];
        assert r == init + [last];
        FoldConcat(c, init, [last], false);
        FoldOne(Fold(c, init, false), last, false);
      } else {
        FoldConcat(c, r, [".."], false);
        FoldOne(Fold(c, r, false), "..", false);
      }
    } else {
      FoldConcat(c, r, [x], false);
      FoldOne(Fold(c, r, false), x, false);
    }
  }

  /** Resolving the relative normalisation of segments gives what resolving
      the segments themselves gives. */
  lemma {:induction false} FoldRelativeThenResolve(c: seq<string>, r: seq<string>, s: seq<string>)
    requires Segments(r) && SlashFree(s)
    ensures Fold(c, Fold(r, s, true), false) == Fold(Fold(c, r, false), s, false)
    decreases |s|
  {
    if s != [] {
      assert '/' !in s[0];
      StepCommutes(c, r, s[0]);
      FoldSegments(r, [s[0]], true);
      FoldOne(r, s[0], true);
      FoldRelativeThenResolve(c, Step(r, s[0], true), s[1..]);
    }
  }

  lemma SplitTrailing(body: string)
    ensures Split(body + "/") == Split(body) + [""]
  {
    SplitConcat(body, "");
    assert body + "/" + "" == body + "/";
  }

  lemma SplitLeading(body: string)
    ensures Split("/" + body) == [""] + Split(body)
  {
    SplitConcat("", body);
    assert "" + "/" + body == "/" + body;
  }

  /** Resolving the text of a resolved path gives the path back. */
  lemma ResolveRender(cwd: Path, p: Path)
    requires Canonical(p)
    ensures Resolve(cwd, Render(p)) == p
  {
    SplitLeading(JoinWith(p, "/"));
    if p == [] {
      assert Split("") == [""];
      assert Fold([], ["", ""], false) == [];
    } else {
      SplitJoin(p);
      FoldConcat([], [""], p, false);
      FoldNames([], p, false);
    }
  }

  /** Resolving a normalised path gives what resolving the path gives. */
  lemma ResolveNormalize(cwd: Path, s: string)
    ensures Resolve(cwd, Normalize(s)) == Resolve(cwd, s)
  {
    if s == "" {
      SplitNoSlash(".");
      assert Split("") == [""];
    } else if s[0] == '/' {
      ResolveNormalizeAbsolute(cwd, s);
    } else {
      ResolveNormalizeRelative(cwd, s);
    }
  }

  /** The absolute text of resolved segments, with or without a trailing
      '/', resolves to the segments. */
  lemma ResolveAbsoluteText(cwd: Path, n: seq<string>, trailing: bool)
    requires Canonical(n)
    ensures Resolve(cwd, if n == [] then "/" else "/" + JoinWith(n, "/") + (if trailing then "/" else "")) == n
  {
    if n == [] {
      SplitLeading("");
      assert Split("") == [""];
      assert Fold([], ["", ""], false) == [];
    } else {
      var body := JoinWith(n, "/");
      SplitJoin(n);
      FoldNames([], n, false);
      FoldConcat([], [""], n, false);
      if trailing {
        assert "/" + body + "/" == "/" + (body + "/");
        SplitLeading(body + "/");
        SplitTrailing(body);
        assert [""] + (n + [""]) == ([""] + n) + [""];
        FoldConcat([], [""] + n, [""], false);
      } else {
        assert "/" + body + "" == "/" + body;
        SplitLeading(body);
      }
    }
  }

  lemma ResolveNormalizeAbsolute(cwd: Path, s: string)
    requires s != "" && s[0] == '/'
    ensures Resolve(cwd, Normalize(s)) == Resolve(cwd, s)
  {
    var n := Fold([], Split(s), false);
    SplitSlashFree(s);
    FoldCanonical([], Split(s));
    JoinWithEmpty(n);
    var trailing := s[|s| - 1] == '/';
    assert Resolve(cwd, s) == n;
    assert Normalize(s) == if n == [] then "/" else "/" + JoinWith(n, "/") + (if trailing then "/" else "");
    ResolveAbsoluteText(cwd, n, trailing);
  }

  /** "." and "./" resolve to the working directory. */
  lemma ResolveDotText(cwd: Path, trailing: bool)
    ensures Resolve(cwd, if trailing then "./" else ".") == cwd
  {
    SplitNoSlash(".");
    if trailing {
      SplitConcat(".", "");
      assert "." + "/" + "" == "./";
      assert Split("") == [""];
      FoldConcat(cwd, ["."], [""], false);
    } else {
      FoldOne(cwd, ".", false);
    }
  }

  /** The relative text of normalised segments, with or without a trailing
      '/', resolves like the segments. */
  lemma ResolveSegmentsText(cwd: Path, n: seq<string>, trailing: bool)
    requires Segments(n) && n != []
    ensures Resolve(cwd, JoinWith(n, "/") + (if trailing then "/" else "")) == Fold(cwd, n, false)
  {
    var body := JoinWith(n, "/");
    assert SlashFree(n);
    SplitJoin(n);
    JoinWithNotAbsolute(n);
    if trailing {
      assert (body + "/")[0] == body[0];
      SplitTrailing(body);
      assert Split("") == [""];
      FoldConcat(cwd, n, [""], false);
    } else {
      assert body + "" == body;
    }
  }

  /** A relative path resolves like its relative normalisation placed after
      the working directory. */
  lemma ResolveRelativeFold(cwd: Path, s: string)
    requires !IsAbsolute(s)
    ensures Segments(Fold([], Split(s), true))
    ensures Resolve(cwd, s) == Fold(cwd, Fold([], Split(s), true), false)
  {
    SplitSlashFree(s);
    FoldSegments([], Split(s), true);
    FoldRelativeThenResolve(cwd, [], Split(s));
  }

  lemma ResolveNormalizeRelative(cwd: Path, s: string)
    requires s != "" && s[0] != '/'
    ensures Resolve(cwd, Normalize(s)) == Resolve(cwd, s)
  {
    var n := Fold([], Split(s), true);
    ResolveRelativeFold(cwd, s);
    JoinWithEmpty(n);
    var trailing := s[|s| - 1] == '/';
    if n == [] {
      assert Normalize(s) == (if trailing then "./" else ".");
      ResolveDotText(cwd, trailing);
    } else {
      assert Normalize(s) == JoinWith(n, "/") + (if trailing then "/" else "");
      ResolveSegmentsText(cwd, n, trailing);
    }
  }

  /** `path.join` resolves like the '/'-joined text of its non-empty arguments. */
  lemma ResolveJoin(cwd: Path, parts: seq<string>)
    ensures Resolve(cwd, Join(parts)) == Resolve(cwd, JoinWith(NonEmpty(parts), "/"))
  {
    var joined := JoinWith(NonEmpty(parts), "/");
    if joined == "" {
      SplitNoSlash(".");
      assert Split("") == [""];
    } else {
      ResolveNormalize(cwd, joined);
    }
  }

  /** A leading "./" does not change what a relative path resolves to. */
  lemma ResolveLocalPrefix(cwd: Path, s: string)
    requires !IsAbsolute(s)
    ensures Resolve(cwd, "./" + s) == Resolve(cwd, s)
  {
    SplitConcat(".", s);
    assert "." + "/" + s == "./" + s;
    SplitNoSlash(".");
    FoldConcat(cwd, ["."], Split(s), false);
  }

  /** The text of a child path is its parent's text, '/', and its name. */
  lemma RenderChild(parent: Path, name: string)
    ensures parent != [] ==> Render(parent + [name]) == Render(parent) + "/" + name
    ensures parent == [] ==> Render(parent + [name]) == "/" + name
  {
    if parent != [] {
      JoinWithAppend(parent, [name], "/");
    } else {
      assert parent + [name] == [name];
    }
  }

  /** Scanning down through a run of non-'/' characters reaches the '/' at `k`. */
  lemma {:induction false} DirEndSkipsName(s: string, k: nat, i: int, matchedSlash: bool)
    requires k < i < |s|
    requires forall t :: k < t <= i ==> s[t] != '/'
    ensures DirEnd(s, i, matchedSlash) == DirEnd(s, k, false)
    decreases i
  {
    if i - 1 > k {
      DirEndSkipsName(s, k, i - 1, false);
    }
  }

  /** `path.dirname` cuts a rooted text followed by "/" and a name at that
      '/'. */
  lemma DirnameAtLastSlash(head: string, name: string)
    requires IsName(name) && (head == "" || head[0] == '/')
    ensures Dirname(head + "/" + name) == (if head == "" then "/" else if |head| == 1 then "//" else head)
  {
    var s := head + "/" + name;
    var k := |head|;
    assert s[k] == '/' && s[0] == '/';
    assert forall t :: k < t < |s| ==> s[t] == name[t - k - 1];
    DirEndSkipsName(s, k, |s| - 1, true);
    assert s[..k] == head;
  }

  /** `path.dirname` of a child of a resolved path is the parent's text. */
  lemma DirnameChild(parent: Path, name: string)
    requires Canonical(parent) && IsName(name)
    ensures Dirname(Render(parent + [name])) == Render(parent)
  {
    RenderChild(parent, name);
    if parent == [] {
      DirnameAtLastSlash("", name);
      assert "" + "/" + name == "/" + name;
    } else {
      JoinWithEmpty(parent);
      DirnameAtLastSlash(Render(parent), name);
    }
  }

  /** A path put under a base, as in `base + "/" + Render(dir)`, resolves to
      the directories of `dir` below the resolved base. */
  lemma ResolveUnder(cwd: Path, base: string, dir: Path)
    requires base != "" && Canonical(dir)
    ensures Resolve(cwd, base + "/" + Render(dir)) == Resolve(cwd, base) + dir
  {
    var start := if IsAbsolute(base) then [] else cwd;
    var s := base + "/" + Render(dir);
    assert IsAbsolute(s) == IsAbsolute(base);
    SplitConcat(base, Render(dir));
    SplitLeading(JoinWith(dir, "/"));
    FoldConcat(start, Split(base), Split(Render(dir)), false);
    var under := Fold(start, Split(base), false);
    if dir == [] {
      assert Split("") == [""];
      assert Fold(under, ["", ""], false) == under;
    } else {
      SplitJoin(dir);
      FoldConcat(under, [""], dir, false);
      FoldNames(under, dir, false);
    }
  }
}
