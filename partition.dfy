/**
 * The work partitioning of `main`: count the lines, clamp the number of
 * workers to them, cut `[0, size)` into one byte range per worker, and
 * run `search_segment` on each range.  The forked workers share nothing,
 * so the model runs them one after the other and concatenates what they
 * write, in worker order.
 */
module Partition {
  import opened Ascii
  import opened Lines
  import opened Scanner

  /** The byte range `[start, end)` one worker is given. */
  datatype Segment = Segment(start: nat, end: nat)

  /** `total_lines`: the newlines, plus one for a last line without a newline. */
  function TotalLines(data: seq<byte>): nat
  {
    NewlinesBefore(data, |data|) + (if |data| > 0 && data[|data| - 1] != NL then 1 else 0)
  }

  /** The counting loop of `main`, followed by the correction for an unterminated last line. */
  method CountTotalLines(data: seq<byte>) returns (total: nat)
    ensures total == TotalLines(data)
  {
    total := 0;
    var i := 0;
    while i < |data|
      invariant i <= |data|
      invariant total == NewlinesBefore(data, i)
    {
      if data[i] == NL {
        total := total + 1;
      }
      i := i + 1;
    }
    if |data| > 0 && data[|data| - 1] != NL {
      total := total + 1;
    }
  }

  /** The number of lines the scanner visits from the line start `p` to the end of the buffer. */
  function LinesFrom(data: seq<byte>, p: nat): nat
    decreases |data| - p
  {
    if p >= |data| then 0 else 1 + LinesFrom(data, LineEnd(data, p) + 1)
  }

  /** From a line start `p`, the scanner visits as many lines as there are newlines from `p` on, plus an unterminated last line. */
  lemma {:induction false} LinesFromCount(data: seq<byte>, p: nat)
    requires p <= |data| && (p == 0 || data[p - 1] == NL)
    ensures LinesFrom(data, p) == TotalLines(data) - NewlinesBefore(data, p)
    decreases |data| - p
  {
    if p < |data| {
      var q := LineEnd(data, p);
      LineEndIsFirst(data, p);
      NewlinesBeforeFlat(data, p, q);
      if q < |data| {
        assert NewlinesBefore(data, q + 1) == NewlinesBefore(data, p) + 1;
        if q + 1 < |data| {
          LinesFromCount(data, q + 1);
        }
      } else {
        assert data[|data| - 1] != NL;
      }
    }
  }

  /** The counted lines are exactly the lines a scan of the whole buffer visits; a non-empty buffer has between 1 and `size` of them. */
  lemma TotalLinesIsLineWalk(data: seq<byte>)
    ensures TotalLines(data) == LinesFrom(data, 0)
    ensures |data| > 0 ==> 1 <= TotalLines(data) <= |data|
  {
    LinesFromCount(data, 0);
    NewlinesBeforeBound(data, |data|);
    if |data| > 0 && data[|data| - 1] != NL {
      assert NewlinesBefore(data, |data|) < |data|;
    }
  }

  /**
   * The worker count `main` settles on: a non-positive request (from `atoi`
   * or the processor count) falls back to 4, then the count is clamped to
   * `[1, totalLines]`.
   */
  function ClampWorkers(requested: int, totalLines: nat): (workers: nat)
    ensures 1 <= workers
    ensures workers <= (if requested <= 0 then 4 else requested)
    ensures totalLines >= 1 ==> workers <= totalLines
    ensures totalLines >= 1 ==> workers == (if requested <= 0 then 4 else requested) || workers == totalLines
  {
    var w := if requested <= 0 then 4 else requested;
    var w := if w > totalLines then totalLines else w;
    if w < 1 then 1 else w
  }

  /**
   * The ranges of the `for` over workers: `chunk = size / workers`,
   * worker `w` gets `[w * chunk, (w + 1) * chunk)` and the last one runs to `size`.
   */
  function Segments(size: nat, workers: nat): (segs: seq<Segment>)
    requires workers >= 1
    ensures |segs| == workers
  {
    var chunk := size / workers;
    seq(workers, w requires 0 <= w < workers =>
      Segment(w * chunk, if w == workers - 1 then size else (w + 1) * chunk))
  }

  /** The ranges start at 0, end at `to`, follow one another without gap or overlap, and none runs backwards. */
  predicate Covers(segs: seq<Segment>, to: nat)
  {
    && |segs| >= 1
    && segs[0].start == 0
    && segs[|segs| - 1].end == to
    && (forall i :: 0 <= i < |segs| - 1 ==> segs[i].end == segs[i + 1].start)
    && (forall i :: 0 <= i < |segs| ==> segs[i].start <= segs[i].end)
  }

  /** Multiplying by a natural keeps order; an arithmetic fact the bound proofs cite. */
  lemma MulMonotone(a: nat, b: nat, c: nat)
    requires a <= b
    ensures a * c <= b * c
  {
    var d: nat := b - a;
    assert b * c == a * c + d * c;
  }

  /** The bounds of worker `w`'s range lie in `[0, size]` and, with at least one byte per worker, differ. */
  lemma ChunkBounds(size: nat, workers: nat, w: nat)
    requires 1 <= workers && w < workers
    ensures w * (size / workers) <= (w + 1) * (size / workers) <= size
    ensures workers <= size ==> 1 <= size / workers && w * (size / workers) < (w + 1) * (size / workers)
  {
    var chunk := size / workers;
    assert (w + 1) * chunk == w * chunk + chunk;
    assert size == workers * chunk + size % workers;
    MulMonotone(w + 1, workers, chunk);
    if workers <= size {
      if chunk == 0 {
        assert false;
      }
    }
  }

  /** The ranges cover `[0, size)` in order; with no more workers than bytes, every range is non-empty. */
  lemma SegmentsCover(size: nat, workers: nat)
    requires workers >= 1
    ensures Covers(Segments(size, workers), size)
    ensures workers <= size ==> forall i :: 0 <= i < workers ==> Segments(size, workers)[i].start < Segments(size, workers)[i].end
  {
    var segs := Segments(size, workers);
    forall i | 0 <= i < workers
      ensures segs[i].start <= segs[i].end
      ensures workers <= size ==> segs[i].start < segs[i].end
    {
      ChunkBounds(size, workers, i);
      if workers <= size && i == workers - 1 {
        ChunkBounds(size, workers, i);
      }
    }
  }

  /**
   * The segments `main` hands out for a buffer and a requested worker
   * count: none for an empty buffer, otherwise between 1 and `total_lines`
   * non-empty ranges covering it.
   */
  function Plan(data: seq<byte>, requested: int): (segs: seq<Segment>)
    ensures InBuffer(data, segs)
    ensures |data| > 0 ==> Covers(segs, |data|) && 1 <= |segs| <= TotalLines(data)
    ensures forall i :: 0 <= i < |segs| ==> segs[i].start < segs[i].end
  {
    if |data| == 0 then []
    else
      var workers := ClampWorkers(requested, TotalLines(data));
      TotalLinesIsLineWalk(data);
      SegmentsCover(|data|, workers);
      CoveredInBuffer(Segments(|data|, workers), |data|);
      Segments(|data|, workers)
  }

  /** The ranges all lie inside the buffer. */
  predicate InBuffer(data: seq<byte>, segs: seq<Segment>)
  {
    forall i :: 0 <= i < |segs| ==> segs[i].end <= |data|
  }

  /** What the workers write, concatenated in worker order. */
  function ConcatOutputs(data: seq<byte>, segs: seq<Segment>, hits: LineHits, show: bool): seq<byte>
    requires InBuffer(data, segs)
  {
    if segs == [] then []
    else
      var last := segs[|segs| - 1];
      ConcatOutputs(data, segs[..|segs| - 1], hits, show) + SegmentOutput(data, last.start, last.end, hits, show)
  }

  /** One more worker appends its output. */
  lemma ConcatOutputsSnoc(data: seq<byte>, segs: seq<Segment>, w: nat, hits: LineHits, show: bool)
    requires InBuffer(data, segs) && w < |segs|
    ensures InBuffer(data, segs[..w]) && InBuffer(data, segs[..w + 1])
    ensures ConcatOutputs(data, segs[..w + 1], hits, show)
            == ConcatOutputs(data, segs[..w], hits, show) + SegmentOutput(data, segs[w].start, segs[w].end, hits, show)
  {
    assert segs[..w + 1][..w] == segs[..w];
  }

  /**
   * Partitioning drops, repeats and renumbers no line: the workers'
   * outputs, concatenated in worker order, are what one `search_segment`
   * over `[0, to)` writes.
   */
  lemma {:induction false} PartitionPreservesOutput(data: seq<byte>, segs: seq<Segment>, to: nat, hits: LineHits, show: bool)
    requires Covers(segs, to) && to <= |data|
    ensures InBuffer(data, segs)
    ensures ConcatOutputs(data, segs, hits, show) == SegmentOutput(data, 0, to, hits, show)
    decreases |segs|
  {
    var last := segs[|segs| - 1];
    var init := segs[..|segs| - 1];
    assert InBuffer(data, segs) by {
      CoveredInBuffer(segs, to);
    }
    SegmentHitsFromBoundary(data, 0, to, hits);
    SegmentHitsFromBoundary(data, last.start, to, hits);
    if |segs| == 1 {
      assert ConcatOutputs(data, segs, hits, show) == [] + SegmentOutput(data, 0, to, hits, show);
    } else {
      var b := last.start;
      assert Covers(init, b);
      PartitionPreservesOutput(data, init, b, hits, show);
      SegmentHitsFromBoundary(data, 0, b, hits);
      ScanSplit(data, 0, b, to, hits);
      RenderAppend(Scan(data, 0, b, hits), Scan(data, NextBoundary(data, b), to, hits), show);
    }
  }

  /** Covering `[0, to)` keeps every range below `to`. */
  lemma {:induction false} CoveredInBuffer(segs: seq<Segment>, to: nat)
    requires Covers(segs, to)
    ensures forall i :: 0 <= i < |segs| ==> segs[i].start <= segs[i].end <= to
    decreases |segs|
  {
    if |segs| > 1 {
      var init := segs[..|segs| - 1];
      assert Covers(init, segs[|segs| - 1].start);
      CoveredInBuffer(init, segs[|segs| - 1].start);
      forall i | 0 <= i < |segs| - 1
        ensures segs[i].end <= to
      {
        assert init[i] == segs[i];
      }
    }
  }
}
