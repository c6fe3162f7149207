/** The token-replacement plugin of plugins/replace/plugin.js: the choice of
    the data that supplies token values, the left-to-right scan of a file for
    `{{{name}}}` tokens, the substitution of every token that has a value, and
    the rewrite of the working copy only when something was replaced. */
module ReplacePlugin {
  import opened Common
  import opened Strings
  import opened Paths
  import opened FileSystem

  /** Token values by name. A value counts (is truthy) when it is present and
      not empty. */
  type Values = map<string, string>

  predicate Truthy(data: Values, name: string)
  {
    name in data && data[name] != ""
  }

  /** The text of the token for `name`. */
  function Token(name: string): (t: string)
    ensures |t| == |name| + 6
  {
    "{{{" + name + "}}}"
  }

  // ---------------------------------------------------------------------------
  // Scanning: /[{]{3}([^}]*)[}]{3}/g

  /** The first '}' at or after `j`, or the end of the text. */
  function FirstClose(s: string, j: nat): (k: nat)
    requires j <= |s|
    ensures j <= k <= |s|
    ensures k < |s| ==> s[k] == '}'
    decreases |s| - j
  {
    if j == |s| || s[j] == '}' then j else FirstClose(s, j + 1)
  }

  /** Nothing before the first '}' is a '}'. */
  lemma {:induction false} FirstCloseSkips(s: string, j: nat)
    requires j <= |s|
    ensures forall m :: j <= m < FirstClose(s, j) ==> s[m] != '}'
    decreases |s| - j
  {
    if j < |s| && s[j] != '}' {
      FirstCloseSkips(s, j + 1);
    }
  }

  /** Three `c` characters stand at `i`. */
  predicate Triple(s: string, i: nat, c: char)
  {
    i + 3 <= |s| && s[i] == c && s[i + 1] == c && s[i + 2] == c
  }

  /** The name the token pattern captures at `i`: after "{{{", the run of
      non-'}' characters, which must be followed by "}}}". */
  function TokenAt(s: string, i: nat): (r: Option<string>)
    ensures r.Some? ==> i < |s|
  {
    if Triple(s, i, '{') then
      var k := FirstClose(s, i + 3);
      if Triple(s, k, '}') then Some(s[i + 3..k]) else None
    else None
  }

  /** A captured name has no '}' and its whole token stands at the match. */
  lemma TokenAtOccurs(s: string, i: nat)
    requires TokenAt(s, i).Some?
    ensures '}' !in TokenAt(s, i).value && OccursAt(s, Token(TokenAt(s, i).value), i)
  {
    var k := FirstClose(s, i + 3);
    FirstCloseSkips(s, i + 3);
    var name := s[i + 3..k];
    assert forall m :: 0 <= m < |name| ==> name[m] == s[i + 3 + m];
    assert s[i..k + 3] == "{{{" + name + "}}}";
  }

  /** The leftmost position at or after `from` where the pattern matches. */
  function NextToken(s: string, from: nat): (r: Option<nat>)
    ensures r.Some? ==> from <= r.value < |s| && TokenAt(s, r.value).Some?
    decreases |s| - from
  {
    if from >= |s| then None
    else if TokenAt(s, from).Some? then Some(from)
    else NextToken(s, from + 1)
  }

  /** No match starts between the search start and the match found, nor
      anywhere after the start when none is found. */
  lemma {:induction false} NextTokenSkips(s: string, from: nat)
    ensures forall j: nat :: from <= j && (NextToken(s, from).None? || j < NextToken(s, from).value) ==> TokenAt(s, j).None?
    decreases |s| - from
  {
    if from < |s| && TokenAt(s, from).None? {
      NextTokenSkips(s, from + 1);
    }
  }

  /** What one `exec` of the global pattern yields: the captured name and the
      index just past the match, where the next search starts. */
  datatype TokenMatch = TokenMatch(name: string, end: nat)

  /** `exec` with `lastIndex == from`. */
  function Exec(s: string, from: nat): (r: Option<TokenMatch>)
    ensures r.Some? ==> from < r.value.end <= |s|
  {
    match NextToken(s, from)
    case None => None
    case Some(i) =>
      var name := TokenAt(s, i).value;
      Some(TokenMatch(name, i + |Token(name)|))
  }

  /** The names the global pattern yields on a text, left to right,
      duplicates included: each search resumes just past the previous match. */
  function Scan(s: string): (names: seq<string>)
    decreases |s|
  {
    match Exec(s, 0)
    case None => []
    case Some(m) => [m.name] + Scan(s[m.end..])
  }

  /** `exec` at `lastIndex` sees only the text from `lastIndex` on. */
  lemma ExecAt(content: string, lastIndex: nat)
    requires lastIndex <= |content|
    ensures Exec(content, lastIndex) == ShiftMatch(Exec(content[lastIndex..], 0), lastIndex)
  {
    assert content[..lastIndex] + content[lastIndex..] == content;
    ExecShift(content[..lastIndex], content[lastIndex..], 0);
  }

  lemma ScanUnfold(s: string)
    ensures Exec(s, 0).None? ==> Scan(s) == []
    ensures Exec(s, 0).Some? ==> Scan(s) == [Exec(s, 0).value.name] + Scan(s[Exec(s, 0).value.end..])
  {
  }

  /** One `exec` at `lastIndex` is one step of the scan of the rest of the text. */
  lemma ScanStepAt(content: string, lastIndex: nat)
    requires lastIndex <= |content|
    ensures Exec(content, lastIndex).None? ==> Scan(content[lastIndex..]) == []
    ensures Exec(content, lastIndex).Some? ==>
      Scan(content[lastIndex..]) == [Exec(content, lastIndex).value.name] + Scan(content[Exec(content, lastIndex).value.end..])
  {
    var rest := content[lastIndex..];
    ExecAt(content, lastIndex);
    ScanUnfold(rest);
    if Exec(rest, 0).Some? {
      var m := Exec(rest, 0).value;
      var whole := Exec(content, lastIndex).value;
      assert whole.name == m.name && whole.end == lastIndex + m.end;
      assert rest[m.end..] == content[whole.end..];
      assert Scan(rest) == [m.name] + Scan(rest[m.end..]);
    }
  }

  /** The names successive `exec` calls yield once `lastIndex` is `from`. */
  function ScanFrom(s: string, from: nat): seq<string>
    requires from <= |s|
    decreases |s| - from
  {
    match Exec(s, from)
    case None => []
    case Some(m) => [m.name] + ScanFrom(s, m.end)
  }

  /** Searching from `lastIndex` finds what a scan of the rest of the text
      finds. */
  lemma {:induction false} ScanFromRest(s: string, from: nat)
    requires from <= |s|
    ensures ScanFrom(s, from) == Scan(s[from..])
    decreases |s| - from
  {
    ScanStepAt(s, from);
    if Exec(s, from).Some? {
      ScanFromRest(s, Exec(s, from).value.end);
    }
  }

  /** Searching from the start finds what the scan finds. */
  lemma ScanFromStart(s: string)
    ensures ScanFrom(s, 0) == Scan(s)
  {
    ScanFromRest(s, 0);
    assert s[0..] == s;
  }

  /** The `while (exec)` loop of `replaceTokens`: collects the captured names
      in the order they are found. */
  method ScanTokens(content: string) returns (tokens: seq<string>)
    ensures tokens == Scan(content)
  {
    tokens := [];
    var lastIndex := 0;
    var found := Exec(content, lastIndex);
    while found.Some?
      invariant lastIndex <= |content|
      invariant found == Exec(content, lastIndex)
      invariant tokens + ScanFrom(content, lastIndex) == ScanFrom(content, 0)
      decreases |content| - lastIndex
    {
      var m := found.value;
      assert ScanFrom(content, lastIndex) == [m.name] + ScanFrom(content, m.end);
      assert tokens + ([m.name] + ScanFrom(content, m.end)) == (tokens + [m.name]) + ScanFrom(content, m.end);
      tokens := tokens + [m.name];
      lastIndex := m.end;
      found := Exec(content, lastIndex);
    }
    ScanFromStart(content);
  }

  /** `name` has no '}' and its token occurs somewhere in `s`. */
  ghost predicate Found(s: string, name: string)
  {
    '}' !in name && exists i :: OccursAt(s, Token(name), i)
  }

  /** A token found in a suffix is found in the whole text. */
  lemma FoundInSuffix(s: string, off: nat, name: string)
    requires off <= |s| && Found(s[off..], name)
    ensures Found(s, name)
  {
    var j :| OccursAt(s[off..], Token(name), j);
    assert s[off + j..off + j + |Token(name)|] == s[off..][j..j + |Token(name)|];
    assert OccursAt(s, Token(name), off + j);
  }

  /** Every name found is a run of non-'}' characters whose token occurs in
      the text. */
  lemma {:induction false} ScanSound(s: string)
    ensures forall k :: 0 <= k < |Scan(s)| ==> Found(s, Scan(s)[k])
    decreases |s|
  {
    ScanUnfold(s);
    if Exec(s, 0).Some? {
      var m := Exec(s, 0).value;
      var rest := s[m.end..];
      ScanSound(rest);
      var i := NextToken(s, 0).value;
      TokenAtOccurs(s, i);
      assert OccursAt(s, Token(m.name), i);
      assert Found(s, m.name);
      forall k | 1 <= k < |Scan(s)|
        ensures Found(s, Scan(s)[k])
      {
        assert Scan(s)[k] == Scan(rest)[k - 1];
        FoundInSuffix(s, m.end, Scan(rest)[k - 1]);
      }
    }
  }

  /** The scan finds nothing exactly when the pattern matches nowhere. */
  lemma ScanEmpty(s: string)
    ensures Scan(s) == [] <==> forall i: nat :: TokenAt(s, i).None?
  {
    ScanUnfold(s);
    NextTokenSkips(s, 0);
    if NextToken(s, 0).Some? {
      assert TokenAt(s, NextToken(s, 0).value).Some?;
    }
  }

  lemma FirstCloseAt(s: string, j: nat, k: nat)
    requires j <= k < |s| && s[k] == '}'
    requires forall m :: j <= m < k ==> s[m] != '}'
    ensures FirstClose(s, j) == k
  {
    FirstCloseSkips(s, j);
  }

  lemma {:induction false} FirstCloseShift(t: string, s: string, j: nat)
    requires j <= |s|
    ensures FirstClose(t + s, |t| + j) == |t| + FirstClose(s, j)
    decreases |s| - j
  {
    assert j < |s| ==> (t + s)[|t| + j] == s[j];
    if j < |s| && s[j] != '}' {
      FirstCloseShift(t, s, j + 1);
    }
  }

  /** Matching at a position looks only forward from it. */
  lemma TokenAtShift(t: string, s: string, i: nat)
    ensures TokenAt(t + s, |t| + i) == TokenAt(s, i)
  {
    assert Triple(t + s, |t| + i, '{') == Triple(s, i, '{');
    if Triple(s, i, '{') {
      FirstCloseShift(t, s, i + 3);
      var k := FirstClose(s, i + 3);
      assert Triple(t + s, |t| + k, '}') == Triple(s, k, '}');
      SliceShift(t, s, i + 3, k);
    }
  }

  /** A slice of the suffix is the same slice of the whole, moved by `|t|`. */
  lemma SliceShift(t: string, s: string, a: nat, b: nat)
    requires a <= b <= |s|
    ensures (t + s)[|t| + a..|t| + b] == s[a..b]
  {
    var x := (t + s)[|t| + a..|t| + b];
    assert forall m :: 0 <= m < |x| ==> x[m] == s[a..b][m];
  }

  /** An optional position moved right by `d`. */
  function ShiftBy(p: Option<nat>, d: nat): Option<nat>
  {
    match p
    case None => None
    case Some(i) => Some(i + d)
  }

  lemma {:induction false} NextTokenShift(t: string, s: string, from: nat)
    ensures NextToken(t + s, |t| + from) == ShiftBy(NextToken(s, from), |t|)
    decreases |s| - from
  {
    if from >= |s| {
      assert NextToken(t + s, |t| + from) == None;
    } else {
      TokenAtShift(t, s, from);
      if TokenAt(s, from).Some? {
        assert NextToken(t + s, |t| + from) == Some(|t| + from);
      } else {
        NextTokenShift(t, s, from + 1);
        assert NextToken(t + s, |t| + from) == NextToken(t + s, |t| + (from + 1));
        assert NextToken(s, from) == NextToken(s, from + 1);
      }
    }
  }

  /** An optional match moved right by `d`. */
  function ShiftMatch(m: Option<TokenMatch>, d: nat): Option<TokenMatch>
  {
    match m
    case None => None
    case Some(x) => Some(TokenMatch(x.name, x.end + d))
  }

  /** `exec` on a text agrees with `exec` on another when the leftmost match
      and the name captured there agree, `d` positions further right. */
  lemma ExecFromParts(u: string, s: string, d: nat, from: nat)
    requires NextToken(u, d + from) == ShiftBy(NextToken(s, from), d)
    requires NextToken(s, from).Some? ==>
      TokenAt(u, d + NextToken(s, from).value) == TokenAt(s, NextToken(s, from).value)
    ensures Exec(u, d + from) == ShiftMatch(Exec(s, from), d)
  {
  }

  /** `exec` looks only forward from where it starts. */
  lemma ExecShift(t: string, s: string, from: nat)
    ensures Exec(t + s, |t| + from) == ShiftMatch(Exec(s, from), |t|)
  {
    NextTokenShift(t, s, from);
    if NextToken(s, from).Some? {
      TokenAtShift(t, s, NextToken(s, from).value);
    }
    ExecFromParts(t + s, s, |t|, from);
  }

  /** A token in front of a text is found first, and the scan goes on after it. */
  lemma ScanTokenThen(name: string, s: string)
    requires '}' !in name
    ensures Scan(Token(name) + s) == [name] + Scan(s)
  {
    var x := Token(name) + s;
    assert Triple(x, 0, '{');
    assert forall m :: 3 <= m < 3 + |name| ==> x[m] == name[m - 3];
    FirstCloseAt(x, 3, 3 + |name|);
    assert Triple(x, 3 + |name|, '}');
    assert x[3..3 + |name|] == name;
    assert TokenAt(x, 0) == Some(name);
    assert NextToken(x, 0) == Some(0);
    assert x[|Token(name)|..] == s;
  }

  /** The text made of the tokens for `names`, one after the other. */
  function Template(names: seq<string>): string
  {
    if names == [] then "" else Token(names[0]) + Template(names[1..])
  }

  /** Scanning a text made of tokens gives their names back, in order and with
      duplicates. */
  lemma {:induction false} ScanTemplate(names: seq<string>)
    requires forall k :: 0 <= k < |names| ==> '}' !in names[k]
    ensures Scan(Template(names)) == names
    decreases |names|
  {
    if names == [] {
      assert Exec("", 0) == None;
    } else {
      ScanTemplate(names[1..]);
      ScanTokenThen(names[0], Template(names[1..]));
    }
  }

  // ---------------------------------------------------------------------------
  // Substitution

  /** One pass of the per-name loop: every occurrence of the name's token is
      replaced by its value when the value is truthy. */
  function Apply(content: string, name: string, data: Values): string
  {
    if Truthy(data, name) then ReplaceAll(content, Token(name), data[name]) else content
  }

  /** The per-name loop over the found names, in discovery order. */
  function Substitute(content: string, names: seq<string>, data: Values): string
    decreases |names|
  {
    if names == [] then content else Substitute(Apply(content, names[0], data), names[1..], data)
  }

  predicate AnyTruthy(names: seq<string>, data: Values)
  {
    exists k :: 0 <= k < |names| && Truthy(data, names[k])
  }

  /** Some name has a value exactly when the first one does or a later one
      does. */
  lemma AnyTruthyCons(names: seq<string>, data: Values)
    requires names != []
    ensures AnyTruthy(names, data) <==> Truthy(data, names[0]) || AnyTruthy(names[1..], data)
  {
    if AnyTruthy(names[1..], data) {
      var k :| 0 <= k < |names[1..]| && Truthy(data, names[1..][k]);
      assert names[k + 1] == names[1..][k];
    }
    forall k | 1 <= k < |names| && Truthy(data, names[k])
      ensures AnyTruthy(names[1..], data)
    {
      assert names[1..][k - 1] == names[k];
    }
  }

  /** The names with a truthy value, in order. */
  function WithValues(names: seq<string>, data: Values): (r: seq<string>)
    ensures forall k :: 0 <= k < |r| ==> Truthy(data, r[k])
    ensures r == [] <==> !AnyTruthy(names, data)
  {
    if names == [] then []
    else
      AnyTruthyCons(names, data);
      (if Truthy(data, names[0]) then [names[0]] else []) + WithValues(names[1..], data)
  }

  /** Tokens without a truthy value are left as they are: substituting all
      the found names is substituting only those with values. */
  lemma {:induction false} SubstituteSkipsFalsy(content: string, names: seq<string>, data: Values)
    ensures Substitute(content, names, data) == Substitute(content, WithValues(names, data), data)
    decreases |names|
  {
    if names != [] {
      SubstituteSkipsFalsy(Apply(content, names[0], data), names[1..], data);
      if Truthy(data, names[0]) {
        assert ([names[0]] + WithValues(names[1..], data))[1..] == WithValues(names[1..], data);
      } else {
        assert [] + WithValues(names[1..], data) == WithValues(names[1..], data);
      }
    }
  }

  /** When no found name has a truthy value the content is unchanged. */
  lemma NoValuesNoChange(content: string, names: seq<string>, data: Values)
    requires !AnyTruthy(names, data)
    ensures Substitute(content, names, data) == content
  {
    SubstituteSkipsFalsy(content, names, data);
  }

  /** One pass replaces every occurrence of a valued token and keeps the text
      between occurrences. */
  lemma ApplyReplacesEveryOccurrence(content: string, name: string, data: Values)
    requires Truthy(data, name)
    ensures Apply(content, name, data) == JoinWith(SplitOn(content, Token(name)), data[name])
    ensures JoinWith(SplitOn(content, Token(name)), Token(name)) == content
  {
    ReplaceAllIsJoin(content, Token(name), data[name]);
    JoinSplitOn(content, Token(name));
  }

  lemma {:induction false} SubstituteAppend(content: string, names: seq<string>, name: string, data: Values)
    ensures Substitute(content, names + [name], data) == Apply(Substitute(content, names, data), name, data)
    decreases |names|
  {
    if names == [] {
      assert [] + [name] == [name];
    } else {
      assert (names + [name])[1..] == names[1..] + [name];
      SubstituteAppend(Apply(content, names[0], data), names[1..], name, data);
    }
  }

  /** The `_.each` over the found names: substitutes each valued token in turn
      and notes whether any replacement happened. */
  method SubstituteTokens(content: string, tokens: seq<string>, data: Values)
    returns (result: string, hadReplacement: bool)
    ensures result == Substitute(content, tokens, data)
    ensures hadReplacement <==> AnyTruthy(tokens, data)
  {
    result := content;
    hadReplacement := false;
    for i := 0 to |tokens|
      invariant result == Substitute(content, tokens[..i], data)
      invariant hadReplacement <==> AnyTruthy(tokens[..i], data)
    {
      var name := tokens[i];
      assert tokens[..i + 1] == tokens[..i] + [name];
      SubstituteAppend(content, tokens[..i], name, data);
      if Truthy(data, name) {
        hadReplacement := true;
        result := ReplaceAll(result, Token(name), data[name]);
      }
      assert AnyTruthy(tokens[..i + 1], data) <==> AnyTruthy(tokens[..i], data) || Truthy(data, name) by {
        assert forall k :: 0 <= k < i ==> tokens[..i + 1][k] == tokens[..i][k];
        assert tokens[..i + 1][i] == name;
      }
    }
    assert tokens[..|tokens|] == tokens;
  }

  // ---------------------------------------------------------------------------
  // One file

  /** How `replaceTokens` ends: `done` is called with the write's error (or
      none), or a lookup in missing token data throws. */
  datatype Outcome = Completed(error: Option<Error>) | Threw

  /** The text naming a file record's working copy: `[workingPath, name]`. */
  function WorkingText(file: FileRecord): string
  {
    BuildPathFromParts([file.workingPath, file.name])
  }

  /** The working copy of a file record. */
  function WorkingCopy(cwd: Path, file: FileRecord): Path
  {
    Resolve(cwd, WorkingText(file))
  }

  /** `replaceTokens(file, done)` on the store: the working copy is read; when
      the read succeeds and tokens are found, the valued ones are substituted
      and the result is written back only if one of them had a value. A read
      error, or no tokens, completes without a write. Tokens found while no
      token data is loaded make the lookup throw. */
  function Replaced(s: Store, cwd: Path, file: FileRecord, data: Option<Values>): (Store, Outcome)
  {
    var reply := ReadAt(s, cwd, WorkingText(file));
    if reply.error.Some? then (s, Completed(None))
    else
      var names := Scan(reply.content);
      if names == [] then (s, Completed(None))
      else if data.None? then (s, Threw)
      else if !AnyTruthy(names, data.value) then (s, Completed(None))
      else
        var written := WriteAt(s, cwd, WorkingText(file), Substitute(reply.content, names, data.value));
        (written.0, Completed(written.1))
  }

  /** The store changes only by a rewrite of the file's working copy, which
      happens exactly when the copy was read (it is a file, named without a
      trailing '/'), tokens were found and one of them had a value; the
      rewritten copy holds the substituted content. */
  lemma ReplacedWritesOnlyOnReplacement(s: Store, cwd: Path, file: FileRecord, data: Option<Values>, q: Path)
    requires Wellformed(s)
    ensures var target := WorkingCopy(cwd, file);
      var wrote := Plain(WorkingText(file)) && target in s.files && data.Some? && AnyTruthy(Scan(s.files[target]), data.value);
      && (!wrote ==> Replaced(s, cwd, file, data).0 == s)
      && (wrote ==>
            Replaced(s, cwd, file, data).0 ==
            WriteTo(s, target, Substitute(s.files[target], Scan(s.files[target]), data.value)).0)
      && (wrote ==>
            ReadFrom(Replaced(s, cwd, file, data).0, target) ==
            ReadReply(Substitute(s.files[target], Scan(s.files[target]), data.value), None))
      && (q != target ==> ReadFrom(Replaced(s, cwd, file, data).0, q) == ReadFrom(s, q))
      && Wellformed(Replaced(s, cwd, file, data).0)
  {
    var target := WorkingCopy(cwd, file);
    if Plain(WorkingText(file)) && target in s.files && data.Some? {
      var content := Substitute(s.files[target], Scan(s.files[target]), data.value);
      WriteThenRead(s, target, content, q);
      WritePreservesWellformed(s, target, content);
    }
  }

  /** A file whose tokens have no values (or that has none) is left alone. */
  lemma ReplacedLeavesUnvalued(s: Store, cwd: Path, file: FileRecord, data: Values)
    requires WorkingCopy(cwd, file) in s.files
    requires !AnyTruthy(Scan(s.files[WorkingCopy(cwd, file)]), data)
    ensures Replaced(s, cwd, file, Some(data)) == (s, Completed(None))
  {
  }

  /** `run` with the files taken one after the other: the store after
      replacing in every file, and whether all of them completed. */
  function RunAll(s: Store, cwd: Path, files: seq<FileRecord>, data: Option<Values>): (Store, bool)
    decreases |files|
  {
    if files == [] then (s, true)
    else
      var r := Replaced(s, cwd, files[0], data);
      if r.1.Threw? then (r.0, false) else RunAll(r.0, cwd, files[1..], data)
  }

  /** A run touches nothing but the working copies of the project's files,
      and keeps the store a tree. */
  lemma {:induction false} RunAllTouchesOnlyWorkingCopies(s: Store, cwd: Path, files: seq<FileRecord>, data: Option<Values>, q: Path)
    requires Wellformed(s)
    requires forall k :: 0 <= k < |files| ==> q != WorkingCopy(cwd, files[k])
    ensures ReadFrom(RunAll(s, cwd, files, data).0, q) == ReadFrom(s, q)
    ensures Wellformed(RunAll(s, cwd, files, data).0)
    decreases |files|
  {
    if files != [] {
      ReplacedWritesOnlyOnReplacement(s, cwd, files[0], data, q);
      var r := Replaced(s, cwd, files[0], data);
      if !r.1.Threw? {
        RunAllTouchesOnlyWorkingCopies(r.0, cwd, files[1..], data, q);
      }
    }
  }

  // ---------------------------------------------------------------------------
  // Choosing the token data

  /** The values file to use: the command-line option when given, else the
      plugin configuration's; an empty path counts as none. */
  function ValuesPath(command: Option<string>, configured: Option<string>): (r: Option<string>)
    ensures command.Some? && command.value != "" ==> r == command
    ensures (command.None? || command.value == "") ==>
      r == (if configured.Some? && configured.value != "" then configured else None)
  {
    if command.Some? && command.value != "" then command
    else if configured.Some? && configured.value != "" then configured
    else None
  }

  /** A values path is read as YAML when its first "yaml" is past index 0. */
  function IsYamlPath(path: string): (r: bool)
    ensures r <==> !OccursAt(path, "yaml", 0) && exists i :: 0 < i && OccursAt(path, "yaml", i)
  {
    match IndexOf(path, "yaml", 0)
    case None => false
    case Some(i) => i > 0
  }

  /** What `loadValues` leaves behind, from the store, the values file's
      resolved path, whether it is read as YAML, and the package and token
      data before: the new package data, the new token data, and whether
      `_.extend` threw. The values are copied over the package data (which
      they change too) and that becomes the token data; on a read error the
      package data is the token data; copying non-empty values onto missing
      package data throws and changes nothing. */
  function ValuesLoaded(reply: ReadReply, yaml: bool, pkg: Option<Values>, src: Option<Values>,
                        parseJson: string -> Values, parseYaml: string -> Values): (r: (Option<Values>, Option<Values>, bool))
    ensures r.2 ==> r.0 == pkg && r.1 == src
    ensures !r.2 ==> r.1 == r.0
    ensures reply.error.Some? ==> r == (pkg, pkg, false)
    ensures reply.error.None? && pkg.Some? ==>
      r.0 == Some(Override(pkg.value, (if yaml then parseYaml else parseJson)(reply.content)))
    ensures pkg.None? ==> r.0 == None
    ensures r.2 <==> reply.error.None? && pkg.None? && (if yaml then parseYaml else parseJson)(reply.content) != map[]
  {
    if reply.error.Some? then (pkg, pkg, false)
    else
      var values := (if yaml then parseYaml else parseJson)(reply.content);
      if pkg.Some? then
        var extended := Some(Override(pkg.value, values));
        (extended, extended, false)
      else if values == map[] then (pkg, pkg, false)
      else (pkg, src, true)
  }

  /** The plugin's configuration state. */
  class ReplacePlugin {
    /** `config.packageData`: the parsed "./package.json", once loaded. */
    var packageData: Option<Values>
    /** `config.sourceData`: the token values. */
    var sourceData: Option<Values>
    /** `config.values`: a values file named in the plugin configuration. */
    const configuredValues: Option<string>

    constructor (configuredValues: Option<string>)
      ensures packageData == None && sourceData == Some(map[])
      ensures this.configuredValues == configuredValues
    {
      packageData := None;
      sourceData := Some(map[]);
      this.configuredValues := configuredValues;
    }

    /** `loadPackage`: "./package.json" is parsed when it can be read; on a
        read error the package data is left as it was. */
    method LoadPackage(fs: FileSystem, parse: string -> Values)
      modifies this
      ensures var target := fs.Locate(Text("./package.json"));
        packageData == (if target in fs.store.files then Some(parse(fs.store.files[target])) else old(packageData))
      ensures sourceData == old(sourceData)
    {
      var reply := fs.Read(Text("./package.json"));
      if reply.error.None? {
        packageData := Some(parse(reply.content));
      }
    }

    /** `loadValues(path)`: the values file, parsed as YAML or JSON by its
        name, is loaded as `ValuesLoaded` describes. */
    method LoadValues(fs: FileSystem, path: string, parseJson: string -> Values, parseYaml: string -> Values)
      returns (threw: bool)
      modifies this
      ensures (packageData, sourceData, threw) ==
        ValuesLoaded(ReadAt(fs.store, fs.cwd, path), IsYamlPath(path), old(packageData), old(sourceData), parseJson, parseYaml)
    {
      var parse := if IsYamlPath(path) then parseYaml else parseJson;
      var reply := fs.Read(Text(path));
      threw := false;
      if reply.error.None? {
        var values := parse(reply.content);
        if packageData.Some? {
          packageData := Some(Override(packageData.value, values));
          sourceData := packageData;
        } else if values == map[] {
          sourceData := packageData;
        } else {
          threw := true;
        }
      } else {
        sourceData := packageData;
      }
    }

    /** `configure`: the package is loaded, then the values file chosen by
        `ValuesPath` is loaded; with no values file the package data is the
        token data. */
    method Configure(fs: FileSystem, commandValues: Option<string>, parseJson: string -> Values, parseYaml: string -> Values)
      returns (threw: bool)
      modifies this
      ensures var target := fs.Locate(Text("./package.json"));
        var pkg := if target in fs.store.files then Some(parseJson(fs.store.files[target])) else old(packageData);
        match ValuesPath(commandValues, configuredValues)
        case None => packageData == sourceData == pkg && !threw
        case Some(p) =>
          (packageData, sourceData, threw) ==
          ValuesLoaded(ReadAt(fs.store, fs.cwd, p), IsYamlPath(p), pkg, old(sourceData), parseJson, parseYaml)
    {
      LoadPackage(fs, parseJson);
      var valuesPath := ValuesPath(commandValues, configuredValues);
      if valuesPath.Some? {
        threw := LoadValues(fs, valuesPath.value, parseJson, parseYaml);
      } else {
        sourceData := packageData;
        threw := false;
      }
    }

    /** `replaceTokens(file, done)`. */
    method ReplaceTokens(fs: FileSystem, file: FileRecord) returns (outcome: Outcome)
      modifies fs
      ensures (fs.store, outcome) == Replaced(old(fs.store), fs.cwd, file, sourceData)
    {
      ghost var text := WorkingText(file);
      ghost var expected := Replaced(fs.store, fs.cwd, file, sourceData);
      assert fs.Built(Parts([file.workingPath, file.name])) == text;
      var reply := fs.Read(Parts([file.workingPath, file.name]));
      if reply.error.Some? {
        outcome := Completed(None);
        return;
      }
      var tokens := ScanTokens(reply.content);
      if |tokens| > 0 {
        if sourceData.None? {
          outcome := Threw;
          return;
        }
        var content, hadReplacement := SubstituteTokens(reply.content, tokens, sourceData.value);
        if hadReplacement {
          assert expected == (WriteAt(fs.store, fs.cwd, text, content).0, Completed(WriteAt(fs.store, fs.cwd, text, content).1));
          var error := fs.Write(Parts([file.workingPath, file.name]), content);
          outcome := Completed(error);
        } else {
          outcome := Completed(None);
        }
      } else {
        outcome := Completed(None);
      }
    }

    /** `run(done)` with the files handled one after the other; `done` is
        reached only when no file throws. Each file is handled with the
        plugin as `this`, as if `replaceTokens` were bound to it. */
    method Run(fs: FileSystem, files: seq<FileRecord>) returns (done: bool)
      modifies fs
      ensures (fs.store, done) == RunAll(old(fs.store), fs.cwd, files, sourceData)
    {
      var i := 0;
      done := true;
      while i < |files|
        invariant 0 <= i <= |files|
        invariant RunAll(old(fs.store), fs.cwd, files, sourceData) == RunAll(fs.store, fs.cwd, files[i..], sourceData)
      {
        var outcome := ReplaceTokens(fs, files[i]);
        if outcome.Threw? {
          done := false;
          return;
        }
        i := i + 1;
      }
    }
  }
}
