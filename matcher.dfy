/**
 * The three line matchers of p_search.c: exact full line, whole word and
 * substring, each with an optional ASCII case-insensitive comparison.
 * The predicates say what a match is; the methods are the index loops with
 * early return that the C code runs, proved equal to the predicates.
 */
module Matcher {
  import opened Ascii

  /** Same length and the same bytes, compared after `tolower` when `ignoreCase`. */
  predicate SameFolded(a: seq<byte>, b: seq<byte>, ignoreCase: bool)
  {
    |a| == |b| && forall j :: 0 <= j < |a| ==> Fold(a[j], ignoreCase) == Fold(b[j], ignoreCase)
  }

  /** The keyword occurs in the line at offset `i`. */
  predicate OccursAt(line: seq<byte>, kw: seq<byte>, i: nat, ignoreCase: bool)
  {
    i + |kw| <= |line| && forall m :: 0 <= m < |kw| ==> Fold(line[i + m], ignoreCase) == Fold(kw[m], ignoreCase)
  }

  /** The byte before offset `i`; the line start reads as a newline. */
  function Before(line: seq<byte>, i: nat): byte
    requires i <= |line|
  {
    if i == 0 then NL else line[i - 1]
  }

  /** The byte at offset `k`; the line end reads as a newline. */
  function After(line: seq<byte>, k: nat): byte
  {
    if k >= |line| then NL else line[k]
  }

  /** The keyword occurs at offset `i` with no word character on either side. */
  predicate WholeWordAt(line: seq<byte>, kw: seq<byte>, i: nat, ignoreCase: bool)
  {
    OccursAt(line, kw, i, ignoreCase)
    && !IsWordChar(Before(line, i)) && !IsWordChar(After(line, i + |kw|))
  }

  /** `match_literal`: the whole line is the keyword. */
  predicate MatchLiteral(line: seq<byte>, kw: seq<byte>, ignoreCase: bool)
  {
    SameFolded(line, kw, ignoreCase)
  }

  /** `match_whole_word`: some occurrence is delimited by non-word bytes or the line edges. */
  predicate MatchWholeWord(line: seq<byte>, kw: seq<byte>, ignoreCase: bool)
  {
    exists i: nat :: i <= |line| && WholeWordAt(line, kw, i, ignoreCase)
  }

  /** `match_substring`: the keyword occurs somewhere in the line. */
  predicate MatchSubstring(line: seq<byte>, kw: seq<byte>, ignoreCase: bool)
  {
    exists i: nat :: i <= |line| && OccursAt(line, kw, i, ignoreCase)
  }

  /** The dispatch of `search_segment`: literal wins over whole word, which wins over substring. */
  predicate LineMatches(line: seq<byte>, kw: seq<byte>, ignoreCase: bool, wholeWord: bool, literal: bool)
  {
    if literal then MatchLiteral(line, kw, ignoreCase)
    else if wholeWord then MatchWholeWord(line, kw, ignoreCase)
    else MatchSubstring(line, kw, ignoreCase)
  }

  /** `match_literal` as written: `memcmp` without `-i`, otherwise a folded loop. */
  method FindLiteral(line: seq<byte>, kw: seq<byte>, ignoreCase: bool) returns (r: bool)
    ensures r == MatchLiteral(line, kw, ignoreCase)
  {
    if !ignoreCase {
      return |line| == |kw| && line == kw;
    }
    var i := 0;
    while i < |kw| && i < |line|
      invariant i <= |kw| && i <= |line|
      invariant forall j :: 0 <= j < i ==> ToLower(line[j]) == ToLower(kw[j])
    {
      if ToLower(line[i]) != ToLower(kw[i]) {
        return false;
      }
      i := i + 1;
    }
    return |line| == |kw|;
  }

  /** Whether the keyword occurs at offset `i`, compared byte by byte (`memcmp` or the folded inner loop). */
  method CompareAt(line: seq<byte>, kw: seq<byte>, i: nat, ignoreCase: bool) returns (r: bool)
    requires i + |kw| <= |line|
    ensures r <==> forall m :: 0 <= m < |kw| ==> Fold(line[i + m], ignoreCase) == Fold(kw[m], ignoreCase)
  {
    if !ignoreCase {
      var window := line[i..i + |kw|];
      r := window == kw;
      assert forall m :: 0 <= m < |kw| ==> window[m] == line[i + m];
      return;
    }
    var j := 0;
    while j < |kw| && ToLower(line[i + j]) == ToLower(kw[j])
      invariant j <= |kw|
      invariant forall m :: 0 <= m < j ==> ToLower(line[i + m]) == ToLower(kw[m])
    {
      j := j + 1;
    }
    r := j == |kw|;
  }

  /** `match_whole_word` as written: try every offset, stop at the first delimited occurrence. */
  method FindWholeWord(line: seq<byte>, kw: seq<byte>, ignoreCase: bool) returns (r: bool)
    ensures r == MatchWholeWord(line, kw, ignoreCase)
  {
    var i: nat := 0;
    while i + |kw| <= |line|
      invariant forall k: nat :: k < i ==> !WholeWordAt(line, kw, k, ignoreCase)
      decreases |line| - i
    {
      var found := CompareAt(line, kw, i, ignoreCase);
      if found {
        var before := if i == 0 then NL else line[i - 1];
        var after := if i + |kw| >= |line| then NL else line[i + |kw|];
        if !IsWordChar(before) && !IsWordChar(after) {
          assert WholeWordAt(line, kw, i, ignoreCase);
          return true;
        }
      }
      i := i + 1;
    }
    return false;
  }

  /** `match_substring` as written: `memmem` without `-i`, otherwise a folded scan of every offset. */
  method FindSubstring(line: seq<byte>, kw: seq<byte>, ignoreCase: bool) returns (r: bool)
    ensures r == MatchSubstring(line, kw, ignoreCase)
  {
    if !ignoreCase {
      return MatchSubstring(line, kw, false);
    }
    var i: nat := 0;
    while i + |kw| <= |line|
      invariant forall k: nat :: k < i ==> !OccursAt(line, kw, k, ignoreCase)
      decreases |line| - i
    {
      var found := CompareAt(line, kw, i, ignoreCase);
      if found {
        assert OccursAt(line, kw, i, ignoreCase);
        return true;
      }
      i := i + 1;
    }
    return false;
  }

  /** The matcher `search_segment` picks, run on one line. */
  method Matches(line: seq<byte>, kw: seq<byte>, ignoreCase: bool, wholeWord: bool, literal: bool)
    returns (r: bool)
    ensures r == LineMatches(line, kw, ignoreCase, wholeWord, literal)
  {
    if literal {
      r := FindLiteral(line, kw, ignoreCase);
    } else if wholeWord {
      r := FindWholeWord(line, kw, ignoreCase);
    } else {
      r := FindSubstring(line, kw, ignoreCase);
    }
  }

  /** The three modes are ordered: a literal match is a whole-word match, which is a substring match. */
  lemma MatchHierarchy(line: seq<byte>, kw: seq<byte>, ignoreCase: bool)
    ensures MatchLiteral(line, kw, ignoreCase) ==> MatchWholeWord(line, kw, ignoreCase)
    ensures MatchWholeWord(line, kw, ignoreCase) ==> MatchSubstring(line, kw, ignoreCase)
  {
    if MatchLiteral(line, kw, ignoreCase) {
      assert line[0..|kw|] == line;
      assert WholeWordAt(line, kw, 0, ignoreCase);
    }
  }

  /** An empty keyword occurs in every line, the empty one included, and is literally only the empty line. */
  lemma EmptyKeyword(line: seq<byte>, ignoreCase: bool)
    ensures MatchSubstring(line, [], ignoreCase)
    ensures MatchLiteral(line, [], ignoreCase) <==> line == []
  {
    assert OccursAt(line, [], 0, ignoreCase);
  }

  /** The keyword as `main` stores it under `-i`: every byte passed through `tolower`. */
  function LowerAll(s: seq<byte>): (r: seq<byte>)
    ensures |r| == |s|
  {
    seq(|s|, i requires 0 <= i < |s| => ToLower(s[i]))
  }

  /** Lower-casing the keyword once changes no case-insensitive comparison. */
  lemma LoweredKeywordMatchesAlike(line: seq<byte>, kw: seq<byte>, wholeWord: bool, literal: bool)
    ensures LineMatches(line, LowerAll(kw), true, wholeWord, literal) == LineMatches(line, kw, true, wholeWord, literal)
  {
    var lk := LowerAll(kw);
    forall a: seq<byte> | |a| == |kw|
      ensures SameFolded(a, lk, true) == SameFolded(a, kw, true)
    {
      assert forall j :: 0 <= j < |a| ==> Fold(lk[j], true) == Fold(kw[j], true);
    }
    forall i: nat | i <= |line|
      ensures OccursAt(line, lk, i, true) == OccursAt(line, kw, i, true)
      ensures WholeWordAt(line, lk, i, true) == WholeWordAt(line, kw, i, true)
    {
      if i + |kw| <= |line| {
        assert |line[i..i + |kw|]| == |kw|;
      }
    }
  }

  /** Case-insensitive matching is case-sensitive matching of the lower-cased line and keyword. */
  lemma IgnoreCaseIsLowerCase(line: seq<byte>, kw: seq<byte>, wholeWord: bool, literal: bool)
    ensures LineMatches(line, kw, true, wholeWord, literal) == LineMatches(LowerAll(line), LowerAll(kw), false, wholeWord, literal)
  {
    var ll, lk := LowerAll(line), LowerAll(kw);
    forall i: nat | i <= |line|
      ensures OccursAt(line, kw, i, true) == OccursAt(ll, lk, i, false)
      ensures WholeWordAt(line, kw, i, true) == WholeWordAt(ll, lk, i, false)
    {
      if i + |kw| <= |line| {
        forall m | 0 <= m < |kw|
          ensures Fold(line[i + m], true) == ll[i + m] && Fold(kw[m], true) == lk[m]
        {
        }
      }
      assert IsWordChar(Before(line, i)) == IsWordChar(Before(ll, i));
      assert IsWordChar(After(line, i + |kw|)) == IsWordChar(After(ll, i + |kw|));
    }
    assert forall j :: 0 <= j < |line| ==> Fold(line[j], true) == Fold(ll[j], false);
    assert forall j :: 0 <= j < |kw| ==> Fold(kw[j], true) == Fold(lk[j], false);
    assert MatchLiteral(line, kw, true) == MatchLiteral(ll, lk, false);
  }
}
