# p_search: a verified model of the segmented line search

`p_search` is a grep-like tool. It reads a buffer, cuts it into one byte
range per worker, and has every worker scan its range line by line. A
worker reports each line that matches the keyword, optionally prefixed by
its 1-based line number in the whole buffer. This project models the part
between "the bytes are in memory" and "the bytes go to a file descriptor".
It proves that this part drops, repeats and renumbers no line, whatever
the number of workers.

The model has seven modules:

- `Ascii`: bytes, and the C-locale `tolower` and `isalnum` that `is_word_char` uses.
- `Matcher`: the three matchers. Each is a predicate that says what a match
  is, plus a method with the C code's index loops and early returns, proved
  equal to that predicate. The module also covers the keyword lower-casing
  of `-i`.
- `Decimal`: the `%zu` rendering of a line number.
- `Lines`: `line_end`, the alignment of a raw segment start, and line
  numbers recovered by counting newlines.
- `Scanner`: `search_segment`, as a method whose loop is proved against a
  specification function.
  - `Scan` lists the hits of the lines visited from a position, and
    `Render` writes them as records.
  - The output sink is the byte sequence the method returns.
  - `Scan` takes the per-line hits as a parameter, so its structural lemmas
    hold for any per-line content. `LineHitsOf` supplies the content the
    selected matcher gives.
- `Partition`: the line count, the worker clamp, the segment bounds, and
  the theorem that the outputs of the segments, concatenated in worker
  order, equal one scan of `[0, size)`.
- `Search`: the modelled part of `main`. It lower-cases the keyword,
  plans the segments and runs the workers one after the other.

Two behaviours of the code are worth stating outright:

- The code accepts an empty keyword, which matches every line under
  substring search (`EmptyKeyword`).
- A non-positive worker request, whether from `atoi` of the argument or
  from the processor count, falls back to 4; the count is then clamped to
  `[1, total_lines]` (p_search.c:131, 166-167).

## Model

| member | source | states |
|---|---|---|
| Ascii.ToLower | p_search.c:43 | C-locale `tolower` changes exactly the bytes 'A'..'Z', each by +32, and never yields an upper-case letter |
| Ascii.IsWordChar | p_search.c:47 | `is_word_char` accepts only ASCII bytes, and never the newline that stands for a line edge |
| Ascii.WordCharFolds | p_search.c:56-58 | folding case keeps a byte a word character or not, so `-i` does not move the word edges |
| Matcher.FindLiteral | p_search.c:41-45 | `match_literal` is true iff the line and the keyword have the same length and the same bytes, compared after `tolower` under `-i` |
| Matcher.CompareAt | p_search.c:49-54 | the `memcmp` or the folded inner loop at offset `i` is true iff every keyword byte equals the line byte at `i + m`, folded under `-i` |
| Matcher.FindWholeWord | p_search.c:47-61 | `match_whole_word` is true iff some occurrence of the keyword has a non-word byte (not a letter, digit or `_`) before and after it, the line edges counting as a newline |
| Matcher.FindSubstring | p_search.c:64-72 | `match_substring` is true iff the keyword occurs at some offset `i` with `i + kwlen <= len`, folded under `-i` |
| Matcher.Matches | p_search.c:88-90 | the dispatch selects literal over whole word over substring |
| Matcher.MatchHierarchy | p_search.c:41-72 | a literal match is a whole-word match, and a whole-word match is a substring match |
| Matcher.EmptyKeyword | p_search.c:64-72 | the empty keyword occurs in every line, the empty line included, and matches literally only the empty line |
| Matcher.LowerAll | p_search.c:136-140 | lower-casing keeps the length of the keyword |
| Matcher.LoweredKeywordMatchesAlike | p_search.c:136-140 | under `-i`, every matcher gives the same answer for the lower-cased keyword as for the keyword as typed |
| Matcher.IgnoreCaseIsLowerCase | p_search.c:41-72 | case-insensitive matching is case-sensitive matching of the lower-cased line and keyword |
| Decimal.Digits | p_search.c:95 | the rendering of a line number has at least one digit |
| Decimal.DigitsDenote | p_search.c:95 | the rendering consists of decimal digits, has no leading zero unless it is "0", and denotes the number |
| Lines.LineEnd | p_search.c:83 | the line end lies between the line start and the buffer end, and is the buffer end or a newline |
| Lines.LineEndIsFirst | p_search.c:83 | no newline lies between the line start and the line end |
| Lines.FindLineEnd | p_search.c:83 | the line-end loop stops at the first newline at or after `pos`, or at the buffer end |
| Lines.NextBoundary | p_search.c:76 | the result is the least line boundary (start of buffer, just after a newline, or end of buffer) at or after the given offset |
| Lines.AlignWalk | p_search.c:76 | the alignment walk stops at `end`, or after a newline, and passes no newline before it |
| Lines.Align | p_search.c:76-77 | offset 0 stays put; otherwise the aligned start does not precede the raw start, does not pass `end`, and is a line boundary when it lies below `end` |
| Lines.AlignStart | p_search.c:76 | the alignment loop computes the aligned start |
| Lines.AlignLeast | p_search.c:76 | no line boundary lies between the raw start and the aligned start |
| Lines.AlignIsNextBoundary | p_search.c:76-77 | below `end`, the capped alignment and the least boundary at or after the raw start agree |
| Lines.NewlinesBeforeBound | p_search.c:162-164 | a prefix holds no more newlines than bytes, and fewer when one of its bytes is not a newline |
| Lines.NewlinesBeforeFlat | p_search.c:101-102 | bytes that are not newlines leave the newline count unchanged |
| Lines.CountLineNo | p_search.c:78-79 | `line_no` starts as 1 plus the newlines before the aligned start |
| Lines.LineNoAdvance | p_search.c:101-102 | stepping past one line and its newline advances the line number by exactly one |
| Scanner.LineAtShape | p_search.c:82-86 | a reported line holds no newline and runs to the next newline or to the buffer end, even past the segment end |
| Scanner.RecordLayout | p_search.c:93-99 | a record ends with the line and one newline; without `-n` that is all, with it the bytes before `": "` are the line number in decimal without leading zeros |
| Scanner.SearchSegment | p_search.c:74-104 | `search_segment` writes the records of the matching lines of its segment, as the specification function `SegmentOutput` lists them |
| Scanner.WalkLines | p_search.c:81-103 | the main loop writes the records of the scan from the aligned start |
| Scanner.WalkTurn | p_search.c:82-102 | one turn of the main loop keeps the loop invariant and moves `pos` forward |
| Scanner.WalkStep | p_search.c:92-102 | appending what the line at `pos` contributes and stepping past its newline keeps the invariant: written output plus what remains equals the whole output, and `line_no` numbers the line at `pos` |
| Scanner.WalkDone | p_search.c:81 | when the loop condition fails, the written output is the whole output |
| Scanner.EmitLine | p_search.c:82-100 | one iteration finds the line end and produces the record of the line when the selected matcher accepts it, and nothing otherwise |
| Scanner.RenderScanStep | p_search.c:92-100 | the records of a scan are those of its first line followed by those of the rest |
| Scanner.RenderHitsAt | p_search.c:92-100 | the record of a selected line is `"<n>: "` (under `-n`), the line, and a newline; an unselected line writes nothing |
| Scanner.ScanFrom | p_search.c:81-103 | everything a scan yields comes from a line starting at a boundary in `[pos, min(end, size))` |
| Scanner.ScanHas | p_search.c:81-103 | everything a line starting at a boundary in `[pos, min(end, size))` yields is in the scan |
| Scanner.ScanSound | p_search.c:81-103 | every reported hit is a matching line that starts at a boundary in `[pos, min(end, size))`, with its global line number |
| Scanner.ScanComplete | p_search.c:81-103 | every matching line that starts at a boundary in `[pos, min(end, size))` is reported |
| Scanner.ScanOrderedBy | p_search.c:81-103 | a scan in which each line yields at most one hit, numbered by its position, is in strictly increasing line-number order, none below the line at `pos` |
| Scanner.LineHitsNumbered | p_search.c:92-102 | the matcher's hits come one at most per line, carrying that line's global number |
| Scanner.ScanOrdered | p_search.c:81-103 | hits come out in strictly increasing line-number order, none below the number of the line at `pos` |
| Scanner.ScanSplit | p_search.c:76-83 | a scan cut at any offset `b` is the scan up to `b` followed by the scan from the first boundary at or after `b` |
| Scanner.SegmentHitsFromBoundary | p_search.c:76-77 | a segment scans from the first line boundary at or after its raw start |
| Scanner.RenderAppend | p_search.c:92-100 | writing two lists of hits one after the other writes their concatenation |
| Scanner.ScanSameHits | p_search.c:88-90 | two matchers that agree on every line produce the same scan |
| Partition.CountTotalLines | p_search.c:162-164 | `total_lines` is the newline count plus one for an unterminated last line |
| Partition.LinesFromCount | p_search.c:162-164 | from a line start, the scan visits as many lines as there are newlines from there on, plus an unterminated last line |
| Partition.TotalLinesIsLineWalk | p_search.c:162-164 | `total_lines` is the number of lines a scan of the whole buffer visits, and lies in `[1, size]` for a non-empty buffer |
| Partition.ClampWorkers | p_search.c:166-167 | the worker count is at least 1, at most the request (4 when the request is not positive), at most `total_lines`, and equal to one of the two |
| Partition.Segments | p_search.c:172-179 | there is one range per worker |
| Partition.ChunkBounds | p_search.c:172-179 | the bounds of every range lie in `[0, size]`, and differ when there are no more workers than bytes, so `chunk >= 1` |
| Partition.SegmentsCover | p_search.c:172-179 | the ranges start at 0, end at `size`, follow one another without gap or overlap, and are non-empty when there are no more workers than bytes |
| Partition.Plan | p_search.c:161-179 | an empty buffer gets no segment; otherwise between 1 and `total_lines` non-empty ranges cover it |
| Partition.ConcatOutputsSnoc | p_search.c:173-180 | one more worker appends its segment's output |
| Partition.PartitionPreservesOutput | p_search.c:172-180 | the outputs of ranges that cover `[0, to)`, concatenated in worker order, equal the output of one segment `[0, to)` |
| Partition.CoveredInBuffer | p_search.c:172-179 | ranges that cover `[0, to)` stay below `to` |
| Search.LowerKeyword | p_search.c:136-140 | the copy loop lower-cases every byte of the keyword |
| Search.RunWorkers | p_search.c:173-186 | the workers, run in order, write the concatenation of their segments' outputs |
| Search.KeyDoesNotMatter | p_search.c:136-140 | searching for the lower-cased keyword under `-i` writes what searching for the keyword as given writes |
| Search.Run | p_search.c:161-180 | the whole run writes the concatenated worker outputs, and these equal one scan of the whole buffer with the keyword as given |

## Left out

- Input acquisition (p_search.c:21-39, 142-159): `read`, `malloc`/`realloc`, `open`, `fstat`, `mmap` and `munmap`. The buffer is a given `seq<byte>`.
- Argument parsing, `atoi` and the `sysconf` default (p_search.c:106-132). The switches are an `Options` value. The requested worker count is an `int` parameter, and the model keeps the fallback to 4.
- Concurrency (p_search.c:169-192): `fork`, `pipe`, `wait` and the parent's forwarding loop.
- Search.Run: runs the workers one after the other, in worker order, and states the output for that order only. The real program gives no order across workers, not even at record granularity: a record is up to three `write` calls (p_search.c:96, 98, 99), and `write_all` may split each of them further, so bytes of different workers can interleave inside a record.
- The partial-write behaviour of `write_all` (p_search.c:12-19). The sink is a total append, and write failures are I/O.
- Integer widths: `off_t`, `size_t` and the `int` worker count are unbounded naturals and integers. The 64-byte `snprintf` buffer (p_search.c:94-95) is the unbounded `Decimal.Digits`, which is exact for any line number a 64-byte buffer can hold.
- Locale: `tolower` and `isalnum` are modelled for the C locale only, on bytes 0..255. Bytes at or above 128 compare unchanged, as they do there.
- `memcmp` and `memmem` are library calls without loops in the source. They are modelled as the comparison they perform: slice equality, and an existing occurrence.
- The release of the buffer and of the lowered keyword (p_search.c:181-183, 193-194).
