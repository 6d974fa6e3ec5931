/**
 * The two JavaScript string primitives the Chips widget relies on:
 * `String.prototype.trim` (only through "is the trimmed text empty?") and
 * `String.prototype.split` with a non-empty string separator.
 */
module Text {
  import opened Common

  /** ECMAScript WhiteSpace and LineTerminator code points, the characters `trim` removes. */
  predicate IsWhitespace(c: char) {
    c in {'\t', '\n', '\U{B}', '\U{C}', '\r', ' ', '\U{A0}', '\U{1680}', '\U{2028}', '\U{2029}',
          '\U{202F}', '\U{205F}', '\U{3000}', '\U{FEFF}'}
    || ('\U{2000}' <= c <= '\U{200A}')
  }

  /** Leading whitespace removed: the longest suffix of `s` that does not start with whitespace. */
  function TrimStart(s: string): (r: string)
    ensures |r| <= |s| && r == s[|s| - |r|..]
    ensures r == [] || !IsWhitespace(r[0])
    ensures forall i :: 0 <= i < |s| - |r| ==> IsWhitespace(s[i])
  {
    if s != [] && IsWhitespace(s[0]) then TrimStart(s[1..]) else s
  }

  /** Trailing whitespace removed: the longest prefix of `s` that does not end with whitespace. */
  function TrimEnd(s: string): (r: string)
    ensures |r| <= |s| && r == s[..|r|]
    ensures r == [] || !IsWhitespace(r[|r| - 1])
    ensures forall i :: |r| <= i < |s| ==> IsWhitespace(s[i])
  {
    if s != [] && IsWhitespace(s[|s| - 1]) then TrimEnd(s[..|s| - 1]) else s
  }

  /** `s.trim()`: a piece of `s` that neither starts nor ends with whitespace. */
  function Trim(s: string): (r: string)
    ensures |r| <= |s|
    ensures r == [] || (!IsWhitespace(r[0]) && !IsWhitespace(r[|r| - 1]))
    ensures forall i :: 0 <= i < |s| && !IsWhitespace(s[i]) ==> r != []
  {
    TrimEnd(TrimStart(s))
  }

  /**
   * `!(s && s.trim().length)`: the empty string and whitespace-only strings.
   * `BlankIffAllWhitespace` gives the full characterisation.
   */
  predicate IsBlank(s: string)
    ensures s == [] ==> IsBlank(s)
    ensures s != [] && !IsWhitespace(s[0]) ==> !IsBlank(s)
  {
    |Trim(s)| == 0
  }

  /** A string is blank exactly when every one of its characters is whitespace. */
  lemma BlankIffAllWhitespace(s: string)
    ensures IsBlank(s) <==> forall i :: 0 <= i < |s| ==> IsWhitespace(s[i])
  {
    var t := TrimStart(s);
    if IsBlank(s) {
      assert t == [];
    } else {
      var r := TrimEnd(t);
      assert r[|r| - 1] == s[|s| - |t| + |r| - 1];
    }
  }

  /** The separator occurs in `s` starting at position `j`. */
  predicate OccursAt(s: string, sep: string, j: nat) {
    j + |sep| <= |s| && s[j..j + |sep|] == sep
  }

  /** An occurrence after the first character is an occurrence in the rest of the text, one position earlier. */
  lemma OccursAfterFirst(s: string, sep: string)
    requires |s| > 0
    ensures forall j :: 1 <= j ==> (OccursAt(s, sep, j) <==> OccursAt(s[1..], sep, j - 1))
  {
    forall j | 1 <= j
      ensures OccursAt(s, sep, j) <==> OccursAt(s[1..], sep, j - 1)
    {
      if j + |sep| <= |s| {
        var here := s[j..j + |sep|];
        var there := s[1..][j - 1..j - 1 + |sep|];
        assert forall k :: 0 <= k < |sep| ==> here[k] == there[k];
        assert here == there;
      }
    }
  }

  /** `s.indexOf(sep)`: the first position where `sep` occurs, if any. */
  function Find(s: string, sep: string): (r: Option<nat>)
    requires |sep| > 0
    ensures r.Some? ==> OccursAt(s, sep, r.value)
    ensures r.Some? ==> forall j :: 0 <= j < r.value ==> !OccursAt(s, sep, j)
    ensures r.None? ==> forall j :: 0 <= j ==> !OccursAt(s, sep, j)
  {
    if |s| < |sep| then None
    else if s[..|sep|] == sep then Some(0)
    else
      OccursAfterFirst(s, sep);
      match Find(s[1..], sep)
      case None => None
      case Some(i) => Some(i + 1)
  }

  /** `s.split(sep)` for a non-empty string separator, scanning left to right. */
  function Split(s: string, sep: string): (r: seq<string>)
    requires |sep| > 0
    ensures |r| >= 1
    decreases |s|
  {
    match Find(s, sep)
    case None => [s]
    case Some(i) => [s[..i]] + Split(s[i + |sep|..], sep)
  }

  /** `parts.join(sep)`. */
  function Join(parts: seq<string>, sep: string): string {
    if |parts| == 0 then ""
    else if |parts| == 1 then parts[0]
    else parts[0] + sep + Join(parts[1..], sep)
  }

  /** Splitting loses nothing: joining the pieces with the separator gives back the text. */
  lemma {:induction false} SplitJoin(s: string, sep: string)
    requires |sep| > 0
    ensures Join(Split(s, sep), sep) == s
    decreases |s|
  {
    match Find(s, sep)
    case None =>
    case Some(i) =>
      var rest := s[i + |sep|..];
      var pieces := Split(rest, sep);
      SplitJoin(rest, sep);
      var all := [s[..i]] + pieces;
      assert all[0] == s[..i] && all[1..] == pieces;
      calc {
        Join(all, sep);
        s[..i] + sep + Join(pieces, sep);
        s[..i] + sep + rest;
        { assert s[i..i + |sep|] == sep; }
        s;
      }
  }

  /**
   * `split` cuts at the leftmost occurrence first (`Find` gives the first
   * one), so an overlapping separator is matched as early as possible.
   */
  lemma {:induction false} SplitCutsAtFirst(s: string, sep: string, i: nat)
    requires |sep| > 0
    requires Find(s, sep) == Some(i)
    ensures Split(s, sep) == [s[..i]] + Split(s[i + |sep|..], sep)
  {
  }

  /** Without an occurrence of the separator the text is the only piece. */
  lemma {:induction false} SplitWithoutOccurrence(s: string, sep: string)
    requires |sep| > 0
    requires Find(s, sep).None?
    ensures Split(s, sep) == [s]
  {
  }

  /** The overlapping case written out: "aaa" split on "aa" gives ["", "a"]. */
  lemma SplitOverlappingSeparator()
    ensures Split("aaa", "aa") == ["", "a"]
  {
    assert OccursAt("aaa", "aa", 0);
    assert Find("aaa", "aa") == Some(0);
    assert Find("a", "aa") == None;
    assert "aaa"[2..] == "a";
  }

  /** No piece produced by `split` contains the separator. */
  lemma {:induction false} SplitPiecesAvoidSeparator(s: string, sep: string, k: nat)
    requires |sep| > 0
    requires k < |Split(s, sep)|
    ensures Find(Split(s, sep)[k], sep).None?
    decreases |s|
  {
    match Find(s, sep)
    case None =>
    case Some(i) =>
      if k == 0 {
        var piece := s[..i];
        assert Split(s, sep)[0] == piece;
        forall j | 0 <= j ensures !OccursAt(piece, sep, j) {
          if OccursAt(piece, sep, j) {
            assert piece[j..j + |sep|] == s[j..j + |sep|];
            assert OccursAt(s, sep, j);
          }
        }
      } else {
        SplitPiecesAvoidSeparator(s[i + |sep|..], sep, k - 1);
      }
  }
}
