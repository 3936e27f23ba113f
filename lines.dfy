/**
 * Line structure of the buffer as `search_segment` sees it: where a line
 * ends, how a raw segment start is moved to a line start, and the 1-based
 * line number of a position recovered by counting the newlines before it.
 */
module Lines {
  import opened Ascii

  /** `line_end`: the first newline at or after `p`, or the end of the buffer. */
  function LineEnd(data: seq<byte>, p: nat): (q: nat)
    requires p <= |data|
    ensures p <= q <= |data|
    ensures q == |data| || data[q] == NL
    decreases |data| - p
  {
    if p == |data| || data[p] == NL then p else LineEnd(data, p + 1)
  }

  /** No newline lies between `p` and the line end: it is the first one. */
  lemma {:induction false} LineEndIsFirst(data: seq<byte>, p: nat)
    requires p <= |data|
    ensures forall k :: p <= k < LineEnd(data, p) ==> data[k] != NL
    decreases |data| - p
  {
    if p < |data| && data[p] != NL {
      LineEndIsFirst(data, p + 1);
    }
  }

  /** The line-end loop of `search_segment`. */
  method FindLineEnd(data: seq<byte>, pos: nat) returns (lineEnd: nat)
    requires pos <= |data|
    ensures lineEnd == LineEnd(data, pos)
  {
    lineEnd := pos;
    while lineEnd < |data| && data[lineEnd] != NL
      invariant pos <= lineEnd <= |data|
      invariant LineEnd(data, lineEnd) == LineEnd(data, pos)
      decreases |data| - lineEnd
    {
      lineEnd := lineEnd + 1;
    }
  }

  /**
   * A line boundary: the buffer start, a position just after a newline, or
   * the buffer end (where no further line begins).
   */
  predicate IsBoundary(data: seq<byte>, x: nat)
  {
    x <= |data| && (x == 0 || x == |data| || data[x - 1] == NL)
  }

  /** The first line boundary at or after `b`. */
  function NextBoundary(data: seq<byte>, b: nat): (x: nat)
    requires b <= |data|
    ensures b <= x && IsBoundary(data, x)
    ensures forall k :: b <= k < x ==> !IsBoundary(data, k)
    decreases |data| - b
  {
    if IsBoundary(data, b) then b else NextBoundary(data, b + 1)
  }

  /** The alignment loop of `search_segment`: step while `p < end` and the byte before `p` is not a newline. */
  function AlignWalk(data: seq<byte>, p: nat, end: nat): (r: nat)
    requires 1 <= p <= |data| && end <= |data|
    ensures p <= r <= |data|
    ensures p < end ==> r <= end
    ensures r < end ==> data[r - 1] == NL
    ensures forall k :: p - 1 <= k < r - 1 ==> data[k] != NL
    decreases end - p
  {
    if p < end && data[p - 1] != NL then AlignWalk(data, p + 1, end) else p
  }

  /**
   * The aligned start of segment `[start, end)`: offset 0 and offsets at or
   * past the buffer end stay put; any other start moves to the least
   * position at or after it that follows a newline, but not past `end`.
   */
  function Align(data: seq<byte>, start: nat, end: nat): (pos: nat)
    requires end <= |data|
    ensures start == 0 ==> pos == 0
    ensures start <= pos
    ensures start < end ==> pos <= end
    ensures pos < end ==> IsBoundary(data, pos)
  {
    if start == 0 || start >= |data| then start else AlignWalk(data, start, end)
  }

  /** The alignment step of `search_segment`, as written. */
  method AlignStart(data: seq<byte>, start: nat, end: nat) returns (pos: nat)
    requires end <= |data|
    ensures pos == Align(data, start, end)
  {
    pos := start;
    if pos != 0 && pos < |data| {
      while pos < end && data[pos - 1] != NL
        invariant start <= pos <= |data|
        invariant AlignWalk(data, pos, end) == Align(data, start, end)
        decreases end - pos
      {
        pos := pos + 1;
      }
    }
  }

  /** No line boundary is skipped: the aligned start is the least one at or after `start` below `end`. */
  lemma AlignLeast(data: seq<byte>, start: nat, end: nat)
    requires end <= |data|
    ensures forall k :: start <= k < Align(data, start, end) ==> !IsBoundary(data, k)
  {
    if start != 0 && start < |data| {
      var pos := AlignWalk(data, start, end);
      forall k | start <= k < pos
        ensures !IsBoundary(data, k)
      {
        assert data[k - 1] != NL;
      }
    }
  }

  /** Below `end`, the capped walk and the uncapped search for a boundary agree. */
  lemma AlignIsNextBoundary(data: seq<byte>, start: nat, end: nat)
    requires start <= end <= |data|
    ensures Align(data, start, end) < end ==> Align(data, start, end) == NextBoundary(data, start)
    ensures NextBoundary(data, start) < end ==> Align(data, start, end) == NextBoundary(data, start)
  {
    var a, nb := Align(data, start, end), NextBoundary(data, start);
    AlignLeast(data, start, end);
    if a < end {
      assert !(nb < a);
      assert !(a < nb);
    }
  }

  /** The number of newline bytes among the first `p` bytes of the buffer. */
  function NewlinesBefore(data: seq<byte>, p: nat): nat
    requires p <= |data|
  {
    if p == 0 then 0 else NewlinesBefore(data, p - 1) + (if data[p - 1] == NL then 1 else 0)
  }

  /** There are never more newlines than bytes, and fewer when some byte is not one. */
  lemma {:induction false} NewlinesBeforeBound(data: seq<byte>, p: nat)
    requires p <= |data|
    ensures NewlinesBefore(data, p) <= p
    ensures (exists i :: 0 <= i < p && data[i] != NL) ==> NewlinesBefore(data, p) < p
  {
    if p > 0 {
      NewlinesBeforeBound(data, p - 1);
    }
  }

  /** Bytes that are not newlines leave the count unchanged. */
  lemma {:induction false} NewlinesBeforeFlat(data: seq<byte>, p: nat, k: nat)
    requires p <= k <= |data|
    requires forall i :: p <= i < k ==> data[i] != NL
    ensures NewlinesBefore(data, k) == NewlinesBefore(data, p)
    decreases k
  {
    if k > p {
      NewlinesBeforeFlat(data, p, k - 1);
    }
  }

  /** The 1-based number of the line that starts at `p`: one more than the newlines before it. */
  function LineNo(data: seq<byte>, p: nat): nat
    requires p <= |data|
  {
    1 + NewlinesBefore(data, p)
  }

  /** The newline-counting loop of `search_segment` that recovers the number of the line at `pos`. */
  method CountLineNo(data: seq<byte>, pos: nat) returns (lineNo: nat)
    requires pos <= |data|
    ensures lineNo == LineNo(data, pos)
  {
    lineNo := 1;
    var i := 0;
    while i < pos
      invariant i <= pos
      invariant lineNo == 1 + NewlinesBefore(data, i)
    {
      if data[i] == NL {
        lineNo := lineNo + 1;
      }
      i := i + 1;
    }
  }

  /** Stepping over a whole line and its newline advances the line number by exactly one. */
  lemma LineNoAdvance(data: seq<byte>, p: nat)
    requires p <= |data| && LineEnd(data, p) < |data|
    ensures LineNo(data, LineEnd(data, p) + 1) == LineNo(data, p) + 1
  {
    LineEndIsFirst(data, p);
    NewlinesBeforeFlat(data, p, LineEnd(data, p));
  }
}
