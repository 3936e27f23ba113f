/**
 * The modelled part of `main`: lower-case the keyword under `-i`, stop on
 * an empty buffer, plan the segments and run `search_segment` on each, in
 * worker order, collecting what they write.
 */
module Search {
  import opened Ascii
  import opened Matcher
  import opened Scanner
  import opened Lines
  import opened Partition

  /** The `tolower` loop over the copied keyword. */
  method LowerKeyword(kw: seq<byte>) returns (lowered: seq<byte>)
    ensures lowered == LowerAll(kw)
  {
    lowered := kw;
    var i := 0;
    while i < |kw|
      invariant i <= |kw| && |lowered| == |kw|
      invariant forall j :: 0 <= j < i ==> lowered[j] == ToLower(kw[j])
      invariant forall j :: i <= j < |kw| ==> lowered[j] == kw[j]
    {
      lowered := lowered[i := ToLower(kw[i])];
      i := i + 1;
    }
  }

  /** The keyword the workers search for: lower-cased once under `-i`. */
  function SearchKey(kw: seq<byte>, opts: Options): seq<byte>
  {
    if opts.ignoreCase then LowerAll(kw) else kw
  }

  /**
   * The search as `main` runs it, with the workers run one after the other.
   * Whatever the worker count, the output is the records of the matching
   * lines of the whole buffer, in order, as one scan with the keyword as
   * given would write them.
   */
  method Run(data: seq<byte>, kw: seq<byte>, requested: int, opts: Options) returns (out: seq<byte>)
    ensures out == ConcatOutputs(data, Plan(data, requested), LineHitsOf(data, Matching(SearchKey(kw, opts), opts)), opts.showLineNumbers)
    ensures out == SegmentOutput(data, 0, |data|, LineHitsOf(data, Matching(kw, opts)), opts.showLineNumbers)
  {
    var key := kw;
    if opts.ignoreCase {
      key := LowerKeyword(kw);
    }
    out := [];
    if |data| == 0 {
      return;
    }
    var total := CountTotalLines(data);
    var workers := ClampWorkers(requested, total);
    var segs := Segments(|data|, workers);
    assert segs == Plan(data, requested);
    PartitionPreservesOutput(data, segs, |data|, LineHitsOf(data, Matching(key, opts)), opts.showLineNumbers);
    out := RunWorkers(data, segs, key, opts);
    KeyDoesNotMatter(data, kw, opts);
  }

  /** The workers, run in worker order, each appending what its `search_segment` writes. */
  method RunWorkers(data: seq<byte>, segs: seq<Segment>, key: seq<byte>, opts: Options) returns (out: seq<byte>)
    requires InBuffer(data, segs)
    ensures out == ConcatOutputs(data, segs, LineHitsOf(data, Matching(key, opts)), opts.showLineNumbers)
  {
    out := [];
    for w := 0 to |segs|
      invariant out == ConcatOutputs(data, segs[..w], LineHitsOf(data, Matching(key, opts)), opts.showLineNumbers)
    {
      var written := SearchSegment(data, segs[w].start, segs[w].end, key, opts);
      ConcatOutputsSnoc(data, segs, w, LineHitsOf(data, Matching(key, opts)), opts.showLineNumbers);
      out := out + written;
    }
    assert segs[..|segs|] == segs;
  }

  /** Searching with the lower-cased keyword under `-i` writes what searching with the keyword as given writes. */
  lemma KeyDoesNotMatter(data: seq<byte>, kw: seq<byte>, opts: Options)
    ensures SegmentOutput(data, 0, |data|, LineHitsOf(data, Matching(SearchKey(kw, opts), opts)), opts.showLineNumbers)
            == SegmentOutput(data, 0, |data|, LineHitsOf(data, Matching(kw, opts)), opts.showLineNumbers)
  {
    if opts.ignoreCase {
      var lowered, given := LineHitsOf(data, Matching(LowerAll(kw), opts)), LineHitsOf(data, Matching(kw, opts));
      forall x: nat
        ensures lowered(x) == given(x)
      {
        if x <= |data| {
          LoweredKeywordMatchesAlike(LineAt(data, x), kw, opts.wholeWord, opts.literal);
        }
      }
      ScanSameHits(data, NextBoundary(data, 0), |data|, lowered, given);
      SegmentHitsFromBoundary(data, 0, |data|, lowered);
      SegmentHitsFromBoundary(data, 0, |data|, given);
    }
  }
}
