/**
 * `search_segment`: align the segment start, recover the line number, then
 * walk whole lines, test each one and append the matching ones, optionally
 * prefixed by their number, to the output sink.
 *
 * The sink is modelled as the sequence of bytes the segment writes.  The
 * specification is stated for any line test; `Matching` is the one the
 * command-line switches select.
 */
module Scanner {
  import opened Ascii
  import opened Matcher
  import opened Lines
  import Decimal

  /** The command-line switches the scanner reads: `-i`, `-n`, `-w` and `-F`. */
  datatype Options = Options(ignoreCase: bool, showLineNumbers: bool, wholeWord: bool, literal: bool)

  /** A test applied to each line. */
  type LineTest = seq<byte> -> bool

  /** The matcher `search_segment` dispatches to for a keyword and the switches. */
  function Matching(kw: seq<byte>, opts: Options): LineTest
  {
    line => LineMatches(line, kw, opts.ignoreCase, opts.wholeWord, opts.literal)
  }

  /** A matching line with its 1-based number in the whole buffer. */
  datatype Hit = Hit(lineNo: nat, line: seq<byte>)

  /** The line that starts at `x`: up to the next newline or the end of the buffer, wherever the segment ends. */
  function LineAt(data: seq<byte>, x: nat): seq<byte>
    requires x <= |data|
  {
    data[x..LineEnd(data, x)]
  }

  /** A line holds no newline; it ends at the next newline or at the buffer end, even past the segment end. */
  lemma LineAtShape(data: seq<byte>, x: nat)
    requires x <= |data|
    ensures NL !in LineAt(data, x)
    ensures x + |LineAt(data, x)| == |data| || data[x + |LineAt(data, x)|] == NL
  {
    LineEndIsFirst(data, x);
  }

  /** The line at `x`, numbered by its position. */
  function HitAt(data: seq<byte>, x: nat): Hit
    requires x <= |data|
  {
    Hit(LineNo(data, x), LineAt(data, x))
  }

  /** The line at `x` passes the test. */
  predicate Selected(data: seq<byte>, x: nat, test: LineTest)
    requires x <= |data|
  {
    test(LineAt(data, x))
  }

  /** The hit the line at `x` yields: one when it is selected, none otherwise. */
  function HitsAt(data: seq<byte>, x: nat, test: LineTest): seq<Hit>
    requires x <= |data|
  {
    if Selected(data, x, test) then [HitAt(data, x)] else []
  }

  /** What each line start contributes to a scan. */
  type LineHits = nat -> seq<Hit>

  /** The hits the test yields at every line start, and nothing past the end of the buffer. */
  function LineHitsOf(data: seq<byte>, test: LineTest): LineHits
  {
    (x: nat) => if x <= |data| then HitsAt(data, x, test) else []
  }

  /**
   * The hits of the main loop of `search_segment` run from position `p`
   * while `p < end` and `p < |data|`, each line contributing `hits` of its
   * start.  The line structure is kept apart from what a line contributes,
   * so that facts about the one are proved without the other in view.
   */
  function Scan(data: seq<byte>, p: nat, end: nat, hits: LineHits): seq<Hit>
    decreases |data| - p
  {
    if p >= end || p >= |data| then []
    else
      hits(p) + Scan(data, LineEnd(data, p) + 1, end, hits)
  }

  /** One line of a scan: the hits of the line at `p`, then the scan from the next line. */
  lemma ScanStep(data: seq<byte>, p: nat, end: nat, hits: LineHits)
    requires p < end && p < |data|
    ensures Scan(data, p, end, hits) == hits(p) + Scan(data, LineEnd(data, p) + 1, end, hits)
  {
  }

  /** The hits of one segment: nothing when no line starts in it, otherwise the scan from the aligned start. */
  function SegmentHits(data: seq<byte>, start: nat, end: nat, hits: LineHits): seq<Hit>
    requires end <= |data|
  {
    var pos := Align(data, start, end);
    if pos >= end then [] else Scan(data, pos, end, hits)
  }

  /** One output record: `"<n>: "` when line numbers are shown, the line, a newline. */
  function Record(h: Hit, showLineNumbers: bool): seq<byte>
  {
    (if showLineNumbers then Decimal.Digits(h.lineNo) + [Colon, Space] else []) + h.line + [NL]
  }

  /**
   * A record ends with the line and a newline.  Without `-n` that is all;
   * with it, what precedes `": "` is the line number in decimal, without
   * leading zeros.
   */
  lemma RecordLayout(h: Hit, showLineNumbers: bool)
    ensures var r := Record(h, showLineNumbers);
            && |r| > |h.line| && r[|r| - 1] == NL
            && r[|r| - 1 - |h.line|..|r| - 1] == h.line
            && (!showLineNumbers ==> |r| == |h.line| + 1)
    ensures showLineNumbers ==>
            var r, k := Record(h, true), |Record(h, true)| - 3 - |h.line|;
            && 1 <= k
            && (forall i :: 0 <= i < k ==> Decimal.IsDigit(r[i]))
            && (r[0] == '0' as int ==> k == 1)
            && Decimal.Value(r[..k]) == h.lineNo
            && r[k] == Colon && r[k + 1] == Space
  {
    var r := Record(h, showLineNumbers);
    var p := if showLineNumbers then Decimal.Digits(h.lineNo) + [Colon, Space] else [];
    assert r == p + h.line + [NL];
    assert r[|r| - 1 - |h.line|..|r| - 1] == h.line;
    if showLineNumbers {
      Decimal.DigitsDenote(h.lineNo);
      var d := Decimal.Digits(h.lineNo);
      assert r == d + [Colon, Space] + h.line + [NL];
      assert r[..|d|] == d;
    }
  }

  /** The bytes a list of hits is written as, one record after another. */
  function Render(hits: seq<Hit>, showLineNumbers: bool): seq<byte>
  {
    if hits == [] then []
    else Render(hits[..|hits| - 1], showLineNumbers) + Record(hits[|hits| - 1], showLineNumbers)
  }

  /** What `search_segment` writes for the segment `[start, end)`. */
  function SegmentOutput(data: seq<byte>, start: nat, end: nat, hits: LineHits, showLineNumbers: bool): seq<byte>
    requires end <= |data|
  {
    Render(SegmentHits(data, start, end, hits), showLineNumbers)
  }

  /** `search_segment` as written; it returns what it writes. */
  method SearchSegment(data: seq<byte>, start: nat, end: nat, kw: seq<byte>, opts: Options)
    returns (out: seq<byte>)
    requires end <= |data|
    ensures out == SegmentOutput(data, start, end, LineHitsOf(data, Matching(kw, opts)), opts.showLineNumbers)
  {
    out := [];
    var pos := AlignStart(data, start, end);
    if pos >= end {
      return;
    }
    var lineNo := CountLineNo(data, pos);
    out := WalkLines(data, pos, lineNo, end, kw, opts, Matching(kw, opts));
  }

  /**
   * The main loop of `search_segment`, from the aligned start `first`
   * whose line number is `firstLineNo`.  `test` stands for the matcher the
   * switches select; it is a ghost parameter, so that the loop is checked
   * without the matchers' definitions in view.
   */
  method WalkLines(data: seq<byte>, first: nat, firstLineNo: nat, end: nat, kw: seq<byte>, opts: Options, ghost test: LineTest)
    returns (out: seq<byte>)
    requires first <= |data| && firstLineNo == LineNo(data, first)
    requires forall line {:trigger LineMatches(line, kw, opts.ignoreCase, opts.wholeWord, opts.literal)} ::
               test(line) == LineMatches(line, kw, opts.ignoreCase, opts.wholeWord, opts.literal)
    ensures out == Render(Scan(data, first, end, LineHitsOf(data, test)), opts.showLineNumbers)
  {
    out := [];
    var pos, lineNo := first, firstLineNo;
    EmptyPrefix(Render(Scan(data, first, end, LineHitsOf(data, test)), opts.showLineNumbers));
    while pos < end && pos < |data|
      invariant WalkInv(data, first, end, LineHitsOf(data, test), opts.showLineNumbers, pos, lineNo, out)
      decreases |data| + 1 - pos
    {
      pos, lineNo, out := WalkTurn(data, first, end, kw, opts, test, pos, lineNo, out);
    }
    WalkDone(data, first, end, LineHitsOf(data, test), opts.showLineNumbers, pos, lineNo, out);
  }

  /** One turn of the main loop: emit the line at `pos`, append it, and step past its newline. */
  method WalkTurn(data: seq<byte>, first: nat, end: nat, kw: seq<byte>, opts: Options, ghost test: LineTest, pos: nat, lineNo: nat, out: seq<byte>)
    returns (pos': nat, lineNo': nat, out': seq<byte>)
    requires WalkInv(data, first, end, LineHitsOf(data, test), opts.showLineNumbers, pos, lineNo, out)
    requires pos < end && pos < |data|
    requires forall line {:trigger LineMatches(line, kw, opts.ignoreCase, opts.wholeWord, opts.literal)} ::
               test(line) == LineMatches(line, kw, opts.ignoreCase, opts.wholeWord, opts.literal)
    ensures WalkInv(data, first, end, LineHitsOf(data, test), opts.showLineNumbers, pos', lineNo', out')
    ensures pos < pos'
  {
    var lineEnd, record := EmitLine(data, pos, lineNo, kw, opts, test);
    RenderHitsAt(data, pos, test, opts.showLineNumbers);
    out' := out + record;
    pos' := lineEnd + 1;
    lineNo' := lineNo + 1;
    WalkStep(data, first, end, LineHitsOf(data, test), opts.showLineNumbers, pos, lineNo, out, record, pos', out');
  }

  /**
   * The invariant of the main loop: `lineNo` numbers the line at `pos`, and
   * what is written so far, followed by the records of the lines still to
   * be scanned, is what the whole loop writes.
   */
  predicate WalkInv(data: seq<byte>, first: nat, end: nat, hits: LineHits, show: bool, pos: nat, lineNo: nat, out: seq<byte>)
  {
    && pos <= |data| + 1
    && (pos <= |data| ==> lineNo == LineNo(data, pos))
    && out + Render(Scan(data, pos, end, hits), show) == Render(Scan(data, first, end, hits), show)
  }

  /** One turn of the main loop keeps the invariant, whatever the line at `pos` contributes. */
  lemma WalkStep(data: seq<byte>, first: nat, end: nat, hits: LineHits, show: bool,
                 pos: nat, lineNo: nat, out: seq<byte>, record: seq<byte>, q: nat, out': seq<byte>)
    requires WalkInv(data, first, end, hits, show, pos, lineNo, out)
    requires pos < end && pos < |data|
    requires Render(hits(pos), show) == record
    requires q == LineEnd(data, pos) + 1 && out' == out + record
    ensures WalkInv(data, first, end, hits, show, q, lineNo + 1, out')
  {
    RenderScanStep(data, pos, end, hits, show);
    Assoc(out, record, Render(Scan(data, q, end, hits), show));
    if q <= |data| {
      LineNoAdvance(data, pos);
    }
  }

  /** When the main loop stops, it has written the records of the scan's hits. */
  lemma WalkDone(data: seq<byte>, first: nat, end: nat, hits: LineHits, show: bool, pos: nat, lineNo: nat, out: seq<byte>)
    requires WalkInv(data, first, end, hits, show, pos, lineNo, out)
    requires pos >= end || pos >= |data|
    ensures out == Render(Scan(data, first, end, hits), show)
  {
    EmptySuffix(out);
  }

  /**
   * One turn of the main loop of `search_segment`: find the end of the line
   * at `pos`, run the selected matcher on it and, when it matches, produce
   * the bytes of the three writes (number prefix, line, newline).
   */
  method EmitLine(data: seq<byte>, pos: nat, lineNo: nat, kw: seq<byte>, opts: Options, ghost test: LineTest)
    returns (lineEnd: nat, record: seq<byte>)
    requires pos < |data|
    requires lineNo == LineNo(data, pos)
    requires forall line {:trigger LineMatches(line, kw, opts.ignoreCase, opts.wholeWord, opts.literal)} ::
               test(line) == LineMatches(line, kw, opts.ignoreCase, opts.wholeWord, opts.literal)
    ensures lineEnd == LineEnd(data, pos)
    ensures record == Emitted(data, pos, test, opts.showLineNumbers)
  {
    lineEnd := FindLineEnd(data, pos);
    var line := data[pos..lineEnd];
    assert line == LineAt(data, pos);
    var matched := Matches(line, kw, opts.ignoreCase, opts.wholeWord, opts.literal);
    record := [];
    if matched {
      if opts.showLineNumbers {
        record := record + Decimal.Digits(lineNo) + [Colon, Space];
      }
      record := record + line;
      record := record + [NL];
    }
  }

  /** What the line at `p` contributes to the output: its record when it is selected, otherwise nothing. */
  function Emitted(data: seq<byte>, p: nat, test: LineTest, showLineNumbers: bool): seq<byte>
    requires p <= |data|
  {
    if Selected(data, p, test) then Record(HitAt(data, p), showLineNumbers) else []
  }

  /** The records of a scan are those of its first line followed by those of the rest. */
  lemma RenderScanStep(data: seq<byte>, p: nat, end: nat, hits: LineHits, show: bool)
    requires p < end && p < |data|
    ensures Render(Scan(data, p, end, hits), show)
            == Render(hits(p), show) + Render(Scan(data, LineEnd(data, p) + 1, end, hits), show)
  {
    ScanStep(data, p, end, hits);
    RenderAppend(hits(p), Scan(data, LineEnd(data, p) + 1, end, hits), show);
  }

  /** The records of the hits at one line are what the loop emits for it. */
  lemma RenderHitsAt(data: seq<byte>, p: nat, test: LineTest, show: bool)
    requires p <= |data|
    ensures Render(LineHitsOf(data, test)(p), show) == Emitted(data, p, test, show)
  {
    var h := LineHitsOf(data, test)(p);
    assert h == HitsAt(data, p, test);
    if Selected(data, p, test) {
      assert h[..0] == [];
      EmptyPrefix(Record(HitAt(data, p), show));
    }
  }

  /** Everything a scan from a line boundary yields comes from a line starting at a boundary inside the scanned range. */
  lemma {:induction false} ScanFrom(data: seq<byte>, p: nat, end: nat, hits: LineHits, h: Hit)
    requires IsBoundary(data, p)
    requires h in Scan(data, p, end, hits)
    ensures exists x :: p <= x < end && x < |data| && IsBoundary(data, x) && h in hits(x)
    decreases |data| - p
  {
    if p >= end || p >= |data| {
      assert false;
    }
    var q := LineEnd(data, p);
    var rest := Scan(data, q + 1, end, hits);
    ScanStep(data, p, end, hits);
    InConcat(hits(p), rest, h);
    if h !in hits(p) {
      if q == |data| {
        assert false;
      }
      ScanFrom(data, q + 1, end, hits, h);
    }
  }

  /** Whatever a line starting at a boundary inside the scanned range yields is in the scan. */
  lemma {:induction false} ScanHas(data: seq<byte>, p: nat, end: nat, hits: LineHits, x: nat, h: Hit)
    requires IsBoundary(data, p)
    requires p <= x < end && x < |data| && IsBoundary(data, x)
    requires h in hits(x)
    ensures h in Scan(data, p, end, hits)
    decreases |data| - p
  {
    var q := LineEnd(data, p);
    var rest := Scan(data, q + 1, end, hits);
    ScanStep(data, p, end, hits);
    if x != p {
      LineEndIsFirst(data, p);
      assert data[x - 1] == NL;
      assert q + 1 <= x;
      ScanHas(data, q + 1, end, hits, x, h);
    }
    InConcat(hits(p), rest, h);
  }

  /** Every hit of a scan from a line boundary is a selected line, numbered by its position, inside the scanned range. */
  lemma ScanSound(data: seq<byte>, p: nat, end: nat, test: LineTest, h: Hit)
    requires IsBoundary(data, p)
    requires h in Scan(data, p, end, LineHitsOf(data, test))
    ensures exists x :: p <= x < end && x < |data| && IsBoundary(data, x)
                        && Selected(data, x, test) && h == HitAt(data, x)
  {
    ScanFrom(data, p, end, LineHitsOf(data, test), h);
    var x :| p <= x < end && x < |data| && IsBoundary(data, x) && h in LineHitsOf(data, test)(x);
    assert LineHitsOf(data, test)(x) == HitsAt(data, x, test);
  }

  /** Every selected line whose first byte lies in `[p, min(end, |data|))` is a hit of the scan from `p`. */
  lemma ScanComplete(data: seq<byte>, p: nat, end: nat, test: LineTest, x: nat)
    requires IsBoundary(data, p)
    requires p <= x < end && x < |data| && IsBoundary(data, x)
    requires Selected(data, x, test)
    ensures HitAt(data, x) in Scan(data, p, end, LineHitsOf(data, test))
  {
    assert LineHitsOf(data, test)(x) == [HitAt(data, x)];
    ScanHas(data, p, end, LineHitsOf(data, test), x, HitAt(data, x));
  }

  /** Line numbers strictly increase along the list of hits. */
  predicate Increasing(hits: seq<Hit>)
  {
    forall i, j :: 0 <= i < j < |hits| ==> hits[i].lineNo < hits[j].lineNo
  }

  /** Every hit is numbered `n` or later. */
  predicate NumberedFrom(hits: seq<Hit>, n: nat)
  {
    forall i :: 0 <= i < |hits| ==> n <= hits[i].lineNo
  }

  /** Putting a hit numbered `n` (or nothing) in front of hits numbered after `n` keeps the order. */
  lemma PrependOrdered(head: seq<Hit>, rest: seq<Hit>, n: nat)
    requires |head| <= 1 && forall i :: 0 <= i < |head| ==> head[i].lineNo == n
    requires NumberedFrom(rest, n + 1) && Increasing(rest)
    ensures NumberedFrom(head + rest, n) && Increasing(head + rest)
  {
    var s := head + rest;
    forall i | |head| <= i < |s|
      ensures s[i] == rest[i - |head|]
    {
    }
  }

  /** The line at `x` yields at most one hit, numbered as the line at `x`. */
  predicate NumberedAt(data: seq<byte>, hits: LineHits, x: nat)
  {
    x <= |data| ==> |hits(x)| <= 1 && forall i :: 0 <= i < |hits(x)| ==> hits(x)[i].lineNo == LineNo(data, x)
  }

  /** A scan whose lines each yield at most one hit, numbered by position, is ordered by line number. */
  lemma {:induction false} ScanOrderedBy(data: seq<byte>, p: nat, end: nat, hits: LineHits)
    requires p <= |data|
    requires forall x: nat :: NumberedAt(data, hits, x)
    ensures NumberedFrom(Scan(data, p, end, hits), LineNo(data, p))
    ensures Increasing(Scan(data, p, end, hits))
    decreases |data| - p
  {
    if p < end && p < |data| {
      var q := LineEnd(data, p);
      ScanStep(data, p, end, hits);
      assert NumberedAt(data, hits, p);
      if q < |data| {
        ScanOrderedBy(data, q + 1, end, hits);
        LineNoAdvance(data, p);
      }
      PrependOrdered(hits(p), Scan(data, q + 1, end, hits), LineNo(data, p));
    }
  }

  /** The matcher's hits are numbered by position, one at most per line. */
  lemma LineHitsNumbered(data: seq<byte>, test: LineTest)
    ensures forall x: nat :: NumberedAt(data, LineHitsOf(data, test), x)
  {
    forall x: nat
      ensures NumberedAt(data, LineHitsOf(data, test), x)
    {
      if x <= |data| {
        assert LineHitsOf(data, test)(x) == HitsAt(data, x, test);
      }
    }
  }

  /** A scan reports lines in strictly increasing line-number order, starting no lower than the line at `p`. */
  lemma ScanOrdered(data: seq<byte>, p: nat, end: nat, test: LineTest)
    requires p <= |data|
    ensures NumberedFrom(Scan(data, p, end, LineHitsOf(data, test)), LineNo(data, p))
    ensures Increasing(Scan(data, p, end, LineHitsOf(data, test)))
  {
    LineHitsNumbered(data, test);
    ScanOrderedBy(data, p, end, LineHitsOf(data, test));
  }

  /**
   * Splitting a scan at `b`: the lines before `b` and the lines from the
   * first boundary at or after `b` make up the whole scan, in order.
   */
  lemma {:induction false} ScanSplit(data: seq<byte>, p: nat, b: nat, e: nat, hits: LineHits)
    requires IsBoundary(data, p)
    requires b <= e && b <= |data|
    requires p <= NextBoundary(data, b)
    ensures Scan(data, p, e, hits) == Scan(data, p, b, hits) + Scan(data, NextBoundary(data, b), e, hits)
    decreases |data| - p
  {
    var nb := NextBoundary(data, b);
    if p >= b {
      assert !(p < nb);
      EmptyPrefix(Scan(data, p, e, hits));
    } else {
      var q := LineEnd(data, p);
      LineEndIsFirst(data, p);
      ScanStep(data, p, e, hits);
      ScanStep(data, p, b, hits);
      if q == |data| {
        assert !(nb < |data|);
        EmptySuffix(Scan(data, p, b, hits));
      } else {
        assert !(nb < q + 1);
        ScanSplit(data, q + 1, b, e, hits);
        SplitAlgebra(Scan(data, p, e, hits), Scan(data, p, b, hits), hits(p),
                     Scan(data, q + 1, e, hits), Scan(data, q + 1, b, hits), Scan(data, nb, e, hits));
      }
    }
  }

  /** A segment yields the scan from the first boundary at or after its raw start. */
  lemma SegmentHitsFromBoundary(data: seq<byte>, start: nat, end: nat, hits: LineHits)
    requires start <= end <= |data|
    ensures SegmentHits(data, start, end, hits) == Scan(data, NextBoundary(data, start), end, hits)
  {
    AlignIsNextBoundary(data, start, end);
  }

  /** Writing two lists of hits one after the other writes their concatenation. */
  lemma {:induction false} RenderAppend(a: seq<Hit>, b: seq<Hit>, showLineNumbers: bool)
    ensures Render(a + b, showLineNumbers) == Render(a, showLineNumbers) + Render(b, showLineNumbers)
    decreases |b|
  {
    if b == [] {
      assert a + b == a;
    } else {
      var init, last := b[..|b| - 1], b[|b| - 1];
      assert (a + b)[..|a + b| - 1] == a + init;
      assert (a + b)[|a + b| - 1] == last;
      RenderAppend(a, init, showLineNumbers);
      Assoc(Render(a, showLineNumbers), Render(init, showLineNumbers), Record(last, showLineNumbers));
    }
  }

  /** Two hit functions that agree at every line start give the same scan. */
  lemma {:induction false} ScanSameHits(data: seq<byte>, p: nat, end: nat, hits: LineHits, hits': LineHits)
    requires forall x :: hits(x) == hits'(x)
    ensures Scan(data, p, end, hits) == Scan(data, p, end, hits')
    decreases |data| - p
  {
    if p < end && p < |data| {
      ScanSameHits(data, LineEnd(data, p) + 1, end, hits, hits');
    }
  }

  // Facts about sequences that Dafny knows; stating them as lemmas lets the
  // proofs above cite them by name instead of rediscovering them.

  /** Nothing written before leaves the output as it is. */
  lemma EmptyPrefix<T>(s: seq<T>)
    ensures [] + s == s
  {
  }

  /** Nothing written after leaves the output as it is. */
  lemma EmptySuffix<T>(s: seq<T>)
    ensures s + [] == s
  {
  }

  /** Concatenation is associative. */
  lemma Assoc<T>(a: seq<T>, b: seq<T>, c: seq<T>)
    ensures (a + b) + c == a + (b + c)
  {
  }

  /** If `a = h + x`, `a' = h + x'` and `x = x' + y`, then `a = a' + y`. */
  lemma SplitAlgebra<T>(a: seq<T>, a': seq<T>, h: seq<T>, x: seq<T>, x': seq<T>, y: seq<T>)
    requires a == h + x && a' == h + x' && x == x' + y
    ensures a == a' + y
  {
    assert h + (x' + y) == (h + x') + y;
  }

  /** Membership in a concatenation. */
  lemma InConcat<T>(a: seq<T>, b: seq<T>, x: T)
    ensures x in a + b <==> x in a || x in b
  {
  }
}
