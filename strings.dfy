/** The JavaScript string operations the modelled code relies on: prefix and
    substring tests, `indexOf`, `replace` with a string pattern (first
    occurrence), a global `replace` of a literal pattern, `split` and `join`. */
module Strings {
  import opened Common

  predicate StartsWith(s: string, p: string)
  {
    |p| <= |s| && s[..|p|] == p
  }

  /** `p` occurs in `s` at position `i`. */
  predicate OccursAt(s: string, p: string, i: int)
  {
    0 <= i && i + |p| <= |s| && s[i..i + |p|] == p
  }

  /** `s.indexOf(p, from)`: the least position at or after `from` where `p` occurs. */
  function IndexOf(s: string, p: string, from: nat): (r: Option<nat>)
    ensures r.Some? ==> from <= r.value && OccursAt(s, p, r.value)
    ensures forall j :: from <= j && (r.None? || j < r.value) ==> !OccursAt(s, p, j)
    decreases |s| - from
  {
    if from + |p| > |s| then None
    else if OccursAt(s, p, from) then Some(from)
    else IndexOf(s, p, from + 1)
  }

  /** `s.replace(p, v)` with a string pattern: only the first occurrence of `p`
      is replaced. */
  function ReplaceFirst(s: string, p: string, v: string): (r: string)
    ensures StartsWith(s, p) ==> r == v + s[|p|..]
    ensures (forall j :: !OccursAt(s, p, j)) ==> r == s
  {
    match IndexOf(s, p, 0)
    case None => s
    case Some(i) => s[..i] + v + s[i + |p|..]
  }

  /** `s.replace(/p/g, v)` for a literal, non-empty pattern `p` and a value `v`
      free of `$` patterns: occurrences are replaced left to right, and the
      search resumes after each replaced occurrence. */
  function ReplaceAll(s: string, p: string, v: string): string
    requires p != ""
    decreases |s|
  {
    if s == [] then []
    else if StartsWith(s, p) then v + ReplaceAll(s[|p|..], p, v)
    else [s[0]] + ReplaceAll(s[1..], p, v)
  }

  /** `s.split(p)` for a non-empty literal separator: the pieces between the
      occurrences of `p`, found left to right. */
  function SplitOn(s: string, p: string): (pieces: seq<string>)
    requires p != ""
    ensures |pieces| >= 1
    ensures StartsWith(s, pieces[0])
    decreases |s|
  {
    if s == [] then [""]
    else if StartsWith(s, p) then [""] + SplitOn(s[|p|..], p)
    else
      var rest := SplitOn(s[1..], p);
      assert s[1..][..|rest[0]|] == rest[0];
      assert s[..1 + |rest[0]|] == [s[0]] + s[1..][..|rest[0]|];
      [[s[0]] + rest[0]] + rest[1..]
  }

  /** `pieces.join(sep)`. */
  function JoinWith(pieces: seq<string>, sep: string): string
  {
    if |pieces| == 0 then ""
    else if |pieces| == 1 then pieces[0]
    else pieces[0] + sep + JoinWith(pieces[1..], sep)
  }

  /** Joining keeps a leading character that is glued onto the first piece. */
  lemma JoinWithCons(c: char, pieces: seq<string>, sep: string)
    requires |pieces| >= 1
    ensures JoinWith([[c] + pieces[0]] + pieces[1..], sep) == [c] + JoinWith(pieces, sep)
  {
    var glued := [[c] + pieces[0]] + pieces[1..];
    if |pieces| > 1 {
      assert glued[1..] == pieces[1..];
    }
  }

  /** An empty first piece leaves only its separator. */
  lemma JoinWithEmptyFirst(pieces: seq<string>, sep: string)
    requires |pieces| >= 1
    ensures JoinWith([""] + pieces, sep) == sep + JoinWith(pieces, sep)
  {
    assert ([""] + pieces)[1..] == pieces;
  }

  /** Joining two non-empty lists of pieces puts one separator between them. */
  lemma {:induction false} JoinWithAppend(a: seq<string>, b: seq<string>, sep: string)
    requires |a| >= 1 && |b| >= 1
    ensures JoinWith(a + b, sep) == JoinWith(a, sep) + sep + JoinWith(b, sep)
  {
    if |a| == 1 {
      assert (a + b)[1..] == b;
    } else {
      assert (a + b)[1..] == a[1..] + b;
      JoinWithAppend(a[1..], b, sep);
    }
  }

  /** Splitting on `p` and joining with `p` gives the text back. */
  lemma {:induction false} JoinSplitOn(s: string, p: string)
    requires p != ""
    ensures JoinWith(SplitOn(s, p), p) == s
    decreases |s|
  {
    if s == [] {
    } else if StartsWith(s, p) {
      var rest := SplitOn(s[|p|..], p);
      JoinSplitOn(s[|p|..], p);
      assert SplitOn(s, p) == [""] + rest;
      JoinWithEmptyFirst(rest, p);
      assert s == p + s[|p|..];
    } else {
      var rest := SplitOn(s[1..], p);
      JoinSplitOn(s[1..], p);
      assert SplitOn(s, p) == [[s[0]] + rest[0]] + rest[1..];
      JoinWithCons(s[0], rest, p);
      assert s == [s[0]] + s[1..];
    }
  }

  /** A global replacement of `p` by `v` is the same text split on `p` and
      joined with `v`: every piece between two occurrences is kept as it is. */
  lemma {:induction false} ReplaceAllIsJoin(s: string, p: string, v: string)
    requires p != ""
    ensures ReplaceAll(s, p, v) == JoinWith(SplitOn(s, p), v)
    decreases |s|
  {
    if s == [] {
    } else if StartsWith(s, p) {
      ReplaceAllIsJoin(s[|p|..], p, v);
    } else {
      ReplaceAllIsJoin(s[1..], p, v);
      JoinWithCons(s[0], SplitOn(s[1..], p), v);
    }
  }

  /** A character glued in front of a piece free of `p` keeps it free of `p`
      when the text they start does not start with `p`. */
  lemma ConsFree(s: string, c: char, piece: string, p: string)
    requires p != "" && StartsWith(s, [c] + piece) && !StartsWith(s, p)
    requires forall j :: !OccursAt(piece, p, j)
    ensures forall j :: !OccursAt([c] + piece, p, j)
  {
    var first := [c] + piece;
    forall j
      ensures !OccursAt(first, p, j)
    {
      if j == 0 && |p| <= |first| {
        assert first[..|p|] == s[..|first|][..|p|] == s[..|p|];
      } else if 0 < j && j + |p| <= |first| {
        assert first[j..j + |p|] == piece[j - 1..j - 1 + |p|];
        assert !OccursAt(piece, p, j - 1);
      }
    }
  }

  /** No piece of a split contains the separator. */
  lemma {:induction false} SplitOnPiecesFree(s: string, p: string)
    requires p != ""
    ensures forall k, j :: 0 <= k < |SplitOn(s, p)| ==> !OccursAt(SplitOn(s, p)[k], p, j)
    decreases |s|
  {
    var pieces := SplitOn(s, p);
    if s == [] {
    } else if StartsWith(s, p) {
      var rest := SplitOn(s[|p|..], p);
      SplitOnPiecesFree(s[|p|..], p);
      assert pieces == [""] + rest;
    } else {
      var rest := SplitOn(s[1..], p);
      SplitOnPiecesFree(s[1..], p);
      assert pieces == [[s[0]] + rest[0]] + rest[1..];
      ConsFree(s, s[0], rest[0], p);
    }
  }

  /** The replacement leaves the text alone when the pattern does not occur. */
  lemma {:induction false} ReplaceAllAbsent(s: string, p: string, v: string)
    requires p != ""
    requires forall j :: !OccursAt(s, p, j)
    ensures ReplaceAll(s, p, v) == s
    decreases |s|
  {
    if s == [] {
    } else {
      assert !OccursAt(s, p, 0);
      forall j
        ensures !OccursAt(s[1..], p, j)
      {
        if 0 <= j && j + |p| <= |s| - 1 {
          assert s[1..][j..j + |p|] == s[j + 1..j + 1 + |p|];
          assert !OccursAt(s, p, j + 1);
        }
      }
      ReplaceAllAbsent(s[1..], p, v);
      assert s == [s[0]] + s[1..];
    }
  }
}
