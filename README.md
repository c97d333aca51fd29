# cfNOMe WPS peak calling and peak matching, modelled in Dafny

This project models the two small sequential algorithms of cfNOMe that work on window
protection scores (WPS) and proves what they compute:

- **The streaming peak caller** (`Call_peaks.py`) reads WPS records (chromosome, position,
  score) one at a time. Each record is appended to the open segment. A sixth negative
  score in a row closes the segment. A closed segment of 50 to 450 records has its
  median taken. The caller then scans the segment for the accumulation of scores at or
  above the median with the largest sum, and prints that accumulation's middle
  `chrom:pos` label.
- **The nearest-peak histogram** (`find_nearest_peak.py`) takes a baseline and a
  comparison peak file. For each chromosome of the comparison file, it finds the signed
  offset from every baseline peak on that chromosome to its nearest comparison peak,
  using `bisect_left`. It then counts the offsets from -500 to 500.

Files:

- `sorting.dfy` (module `Sorting`): Python's `sorted`, as an insertion sort under a total
  preorder, and the orders on integers, reals and strings. It also has `set(...)` as
  `Dedup`, and counting.
- `statistics.dfy` (module `Statistics`): Python's `statistics.median`.
- `peak_scan.dfy` (module `PeakScan`): the `enumerate(VALCACHE)` scan of a closed
  segment, as a fold `ScanTo` over the segment, with its properties.
- `peak_caller.dfy` (module `PeakCaller`): the record loop.
  - `Next` and `RunPeaks` are the value-level specification.
  - Class `Caller` has the four program variables as fields, updated in place by `Step`.
  - `CallPeaks` is the loop over a whole file.
- `nearest_peak.dfy` (module `NearestPeak`):
  - `Closest` models `closest`, built on `BisectLeft`.
  - The reference count `Matched` states what each histogram bucket holds.
  - The method `Histogram` is the script's loops.

The model follows the code as written, including these behaviours:

- `score_sum` and `PEAKPOS` are reset only when an accumulation beats the best so far. An
  accumulation that does not beat it keeps growing across the below-median scores that
  follow (`PeakScan.AccumulationSinceLastReset`).
- `PEAKPOS` is not cleared when a segment closes. Its contents enter the next segment's
  scan as the `carried` labels. A stream therefore does not decompose at a closure into
  independently processed parts (see "## Findings").
- `pos_to_beat` is empty at the print when no closed accumulation has a positive sum.
  Indexing it then raises `IndexError` and ends the program. This is modelled as the
  outcome `EmptyWinner`, after which the run reads no further record (`crashed`). The
  caches are not reset on that path.
- The accumulation still open when the scan reaches the end of the segment is never
  compared with the best.

## Model

| member | source | states |
|---|---|---|
| Sorting.Sort | Call_peaks.py:46 | `sorted`: the result has the input's length |
| Sorting.SortPermutes | Call_peaks.py:46 | `sorted` returns a permutation (same multiset) |
| Sorting.SortSorted | find_nearest_peak.py:40-41 | under a total preorder the result of `sorted` is ordered |
| Sorting.SortOfSorted | Call_peaks.py:46 | sorting an ordered list returns it unchanged |
| Sorting.SortKeepsDistinct | find_nearest_peak.py:33 | sorting a list without repeats gives a list without repeats |
| Sorting.CountSort | find_nearest_peak.py:40-46 | sorting does not change how many elements satisfy a predicate |
| Sorting.Dedup | find_nearest_peak.py:33 | `set(...)`: the same elements, each once |
| Sorting.StrLeIsTotalPreorder | find_nearest_peak.py:33 | Python's string order (code point by code point, prefix first) is total and transitive |
| Sorting.IntLeIsTotalPreorder | find_nearest_peak.py:40-41 | order fact used with `Sorting.SortSorted`: integer `<=` is total and transitive, so `Sort` orders the positions |
| Sorting.RealLeIsTotalPreorder | Call_peaks.py:46 | order fact used with `Sorting.SortSorted`: real `<=` is total and transitive, so `Sort` orders the scores |
| Statistics.Middle | Call_peaks.py:46 | `statistics.median`'s choice on an ordered list (the middle element, or the mean of the two middle elements) lies between the first and last elements |
| Statistics.Median | Call_peaks.py:46 | `statistics.median(sorted(VALCACHE))` lies between the smallest and largest scores; `Statistics.MedianSplitsData` and `Statistics.MedianEvenIsMean` fix its value |
| Statistics.EvenMiddleIsMean | Call_peaks.py:46 | on an ordered list of even length the middle is the mean of the two middle elements, which are the lower and upper middle order statistics |
| Statistics.MedianEvenIsMean | Call_peaks.py:46 | for an even number of scores the median, the threshold of `val >= median`, is the mean of the lower middle value (fewer than half below it, at least half at most it) and the upper middle value (at most half below it, more than half at most it) |
| Statistics.MedianSplitsData | Call_peaks.py:46 | at least half the scores are at least the median and at least half are at most it; for an odd count the median is one of the scores |
| Statistics.MedianOfSorted | Call_peaks.py:46 | the median of `sorted(VALCACHE)` equals the median of `VALCACHE` |
| PeakScan.Advance | Call_peaks.py:48-56 | one score of the scan: `sum_to_beat` never decreases; it grows exactly when a below-median score closes an accumulation that beats it, and then becomes that sum, `pos_to_beat` becomes `PEAKPOS`, and `score_sum` and `PEAKPOS` are reset; a below-median score that does not beat the best changes nothing |
| PeakScan.ScanTo | Call_peaks.py:39-56 | the scan over the first k scores: `sum_to_beat` is never negative and `pos_to_beat` stays empty while it is 0; the lemmas below state the rest |
| PeakScan.BestNeverDecreases | Call_peaks.py:52-53 | `sum_to_beat` never decreases during the scan |
| PeakScan.BestIsRunningMaximum | Call_peaks.py:47-56 | `sum_to_beat` is non-negative and at least every accumulation closed by a below-median score |
| PeakScan.AccumulationNonEmpty | Call_peaks.py:48-50 | a non-zero `score_sum` comes with a non-empty `PEAKPOS` |
| PeakScan.WinnerIsEarliestBest | Call_peaks.py:52-54 | a positive best was set by the earliest accumulation reaching that sum (strict `>`); `pos_to_beat` is the copy of `PEAKPOS` taken then; a zero best leaves `pos_to_beat` empty |
| PeakScan.NoWinnerIff | Call_peaks.py:40-58 | `pos_to_beat` ends empty exactly when no accumulation closed by a below-median score has a positive sum |
| PeakScan.LabelsComeFromInput | Call_peaks.py:50-54 | every label in `PEAKPOS` or `pos_to_beat` was carried in or is the label of a scanned score |
| PeakScan.AccumulationSinceLastReset | Call_peaks.py:48-56 | `score_sum` and `PEAKPOS` hold exactly the scores at or above the median, and their labels, since the last time the best was beaten; carried labels lead when it never was |
| PeakCaller.Label | Call_peaks.py:27 | the label is the chromosome field, a `:`, then the position field |
| PeakCaller.Next | Call_peaks.py:26-63 | one record: the caches keep equal length; the record is only buffered exactly when the updated `CONTNEG` is at most 5; while buffered, or on the failed index, the caches end with the record; after a closure that prints or drops, the caches are empty and `CONTNEG` is 0 |
| PeakCaller.Close | Call_peaks.py:38-63 | a closing record never just buffers; the segment is dropped exactly when its length is outside 50 to 450, and then `PEAKPOS` is kept; a printed label comes from `PEAKPOS` or `POSCACHE`; the caches and `CONTNEG` are reset except on the failed index, which leaves them as they were |
| PeakCaller.RunPeaks | Call_peaks.py:25-63 | after every record `VALCACHE` and `POSCACHE` have equal length |
| PeakCaller.StreakCountsTrailingNegatives | Call_peaks.py:31-36 | `CONTNEG` is the number of trailing negative scores in `VALCACHE`; it is at most 5 while the run goes on, and 6 after the failed index |
| PeakCaller.CachesHoldRecentRows | Call_peaks.py:26-29 | `VALCACHE` and `POSCACHE` hold the scores and the `chrom:pos` labels of the most recent records, in order |
| PeakCaller.ClosureOnSixthNegative | Call_peaks.py:31-63 | a record closes the segment exactly on the sixth negative score in a row; a label is printed only for 50 to 450 records; after a closure the caches are empty and `CONTNEG` is 0, while `PEAKPOS` is kept (unchanged for a dropped segment, as the scan left it when a label is printed); otherwise the record is appended |
| PeakCaller.ClosedSegmentOutcome | Call_peaks.py:38-58 | a segment in the window fails at the print exactly when no accumulation closed by a below-median score is positive; otherwise the printed label is the middle of the best snapshot, whose sum is the maximum |
| PeakCaller.LabelsAreFromRows | Call_peaks.py:27-58 | every printed, buffered or `PEAKPOS` label is the label of a record already read |
| PeakCaller.PeaksAreSparse | Call_peaks.py:36-63 | a stream of n records prints at most n / 50 labels, because each needs a segment of at least 50 records |
| PeakCaller.PeaksOfPrefix | Call_peaks.py:58 | printed labels are never taken back: a prefix of the stream prints a prefix of the labels |
| PeakCaller.CrashIsFinal | Call_peaks.py:58 | after the failed index neither the state nor the printed labels change |
| PeakCaller.Decompose | Call_peaks.py:25-63 | once a stream that has not failed is back in the initial state (empty caches, `CONTNEG` 0 and `PEAKPOS` empty), the records after it end in the state, print the labels and fail exactly as they would on their own, and the labels follow the earlier ones |
| PeakCaller.PairMedian | Call_peaks.py:46 | the median of the segment scores `1.0, -1.0` is 0 |
| PeakCaller.CarriedLabelsShiftPeak | Call_peaks.py:39-60 | labels left in `PEAKPOS` by an earlier segment lead the next segment's best accumulation: the segment `1.0, -1.0` wins with `["b1"]` alone, but with `["a1", "a2", "b1"]` after `["a1", "a2"]` is carried, whose middle label `a2` is from the earlier segment |
| PeakCaller.NextFresh | Call_peaks.py:25-63 | the corrected record step: the same outcome as `Next`; a closure that prints or drops a segment returns to the initial state, `PEAKPOS` included; otherwise the state of `Next` |
| PeakCaller.RunFresh | Call_peaks.py:25-63 | the corrected run: after every record `VALCACHE` and `POSCACHE` have equal length |
| PeakCaller.FreshBoundaryIsInitial | Call_peaks.py:60-63 | in the corrected run, empty caches after a record mean the state is the initial one |
| PeakCaller.DecomposeFresh | Call_peaks.py:25-63 | in the corrected run, splitting the stream at any closure that prints or drops a segment gives the labels of the two parts, one after the other |
| PeakCaller.Caller.constructor | Call_peaks.py:21-24 | the caches and `PEAKPOS` start empty and `CONTNEG` at 0 |
| PeakCaller.Caller.Step | Call_peaks.py:25-63 | one record updates the fields as `Next` says, appends the printed label to the output, and keeps the fields equal to `RunPeaks` of the records read |
| PeakCaller.Caller.CloseSegment | Call_peaks.py:38-63 | the closing branch: the length gate, the median, the scan and the label, then the reset, which the failed index never reaches |
| PeakCaller.Caller.ScanSegment | Call_peaks.py:39-56 | the loop leaves `sum_to_beat`, `pos_to_beat` and `PEAKPOS` as the fold `ScanTo` over the whole segment |
| PeakCaller.CallPeaks | Call_peaks.py:25-63 | the printed labels are those of `RunPeaks`; each is a label of an input record; at most one label per 50 records |
| PeakScan.ScanOfPair | Call_peaks.py:47-56 | the scan of `1.0, -1.0` under median 0 ends with `pos_to_beat` equal to the carried labels followed by the first score's label |
| PeakScan.CarriedLabelsLeadWinner | Call_peaks.py:47-56 | the same scan with no label carried leaves `["b1"]`, and with `["a1", "a2"]` carried leaves `["a1", "a2", "b1"]` |
| NearestPeak.BisectLeft | find_nearest_peak.py:14 | `bisect_left`: every element before the index is below the query and every element from it on is at least the query |
| NearestPeak.MinByAbs | find_nearest_peak.py:21 | `min(a, b, key=abs)` returns the argument nearer 0, and the first on a tie |
| NearestPeak.Closest | find_nearest_peak.py:13-21 | `number + d` is in the list; no element is nearer; of two equally near elements the higher (the one at the insertion point) is chosen |
| NearestPeak.ClosestAtEnds | find_nearest_peak.py:16-19 | insertion index 0 gives `comp_list[0] - number >= 0`; insertion index `len` gives `comp_list[-1] - number < 0` |
| NearestPeak.ClosestIsUnique | find_nearest_peak.py:13-21 | an offset that is nearest, and highest among the nearest, is the one `closest` returns |
| NearestPeak.ChromList | find_nearest_peak.py:33 | `CHROM` holds exactly the chromosomes of the comparison lines, each once; `NearestPeak.ChromListIsSortedDistinct` adds the order |
| NearestPeak.PositionsOn | find_nearest_peak.py:40-41 | every position collected for `c` is that of a line on `c`, and every line on `c` has its position collected |
| NearestPeak.PositionsOnCounts | find_nearest_peak.py:40-41 | the comprehension keeps repeats: each position occurs as often as the lines on `c` with that position |
| NearestPeak.ChromListIsSortedDistinct | find_nearest_peak.py:33 | `CHROM` holds each chromosome of the comparison file exactly once, in ascending order |
| NearestPeak.PositionsOnNonEmpty | find_nearest_peak.py:39-41 | a chromosome of the comparison file has at least one comparison position |
| NearestPeak.SortedPositions | find_nearest_peak.py:41 | `PEAKS_2[c]` is sorted, as long as the positions on `c`, and non-empty for every `c` in `CHROM`; `NearestPeak.SortedPositionsContents` states its elements |
| NearestPeak.SortedPositionsContents | find_nearest_peak.py:41 | `PEAKS_2[c]` holds exactly the positions of the comparison lines on `c`, each as often as it occurs |
| NearestPeak.OffsetIsNearest | find_nearest_peak.py:41-44 | the offset counted for a baseline peak leads to a comparison peak on the same chromosome; none on that chromosome is nearer; on a tie it is the higher one |
| NearestPeak.ZeroCounts | find_nearest_peak.py:35-37 | `occs` has exactly the keys -500 to 500, all 0 |
| NearestPeak.CountChromosome | find_nearest_peak.py:40-46 | one `c` adds to each bucket the number of baseline positions on `c` whose nearest offset is that bucket |
| NearestPeak.Lines | find_nearest_peak.py:48-49 | 1001 output lines, offsets ascending from -500, each with its count |
| NearestPeak.MatchedAmongAppend | find_nearest_peak.py:39-46 | processing one more chromosome adds its baseline positions' matches |
| NearestPeak.MatchedAmongAll | find_nearest_peak.py:39 | processing every comparison chromosome counts every matched baseline peak |
| NearestPeak.Histogram | find_nearest_peak.py:31-49 | each bucket counts the baseline peaks on a comparison chromosome whose nearest offset is that bucket; the keys are exactly -500 to 500; 1001 lines in ascending order |
| NearestPeak.SumMatchedIsInWindow | find_nearest_peak.py:43-46 | each baseline peak adds to at most one bucket: the counts over a range of offsets add up to the peaks whose offset lies in it |
| NearestPeak.HistogramTotalBounded | find_nearest_peak.py:43-46 | the histogram's total is at most the number of baseline peaks on comparison chromosomes |
| NearestPeak.BaselineOnlyChromosomesIgnored | find_nearest_peak.py:39-43 | baseline peaks on chromosomes missing from the comparison file change no count |

## Findings

| source | as written | input that shows it | evidently intended | confidence | as-written member | corrected member |
|---|---|---|---|---|---|---|
| Call_peaks.py:60-63 | the reset after a closure clears `VALCACHE`, `POSCACHE` and `CONTNEG` but not `PEAKPOS`, so labels from the open accumulation of one segment's scan lead the best accumulation of the next segment, and the labels printed for a stream are not those of its segments printed one by one | the segment scores `1.0, -1.0` with labels `b1, b2` and median 0 yield `["b1"]` when nothing is carried and `["a1", "a2", "b1"]`, whose middle is `a2`, when `a1, a2` are carried; in a whole stream, 30 scores `1.0`, one `-1.0`, 13 `1.0` and six `-1.0` (which leaves 13 labels in `PEAKPOS`), then 44 `1.0` and six `-1.0`, print for the second segment its 16th label instead of its 23rd | `PEAKPOS` cleared with the caches at each closure, so that each segment's peak depends only on its own records and a stream split at a closure prints the labels of its parts | not executed | PeakCaller.CarriedLabelsShiftPeak | PeakCaller.DecomposeFresh |

The model keeps the code's behaviour in `Next`, `RunPeaks` and `Caller`, because that is
what the program prints. `PeakCaller.Decompose` states the decomposition for the runs
where it does hold: a closure that leaves `PEAKPOS` empty. `PeakCaller.NextFresh` and
`PeakCaller.RunFresh` are the corrected step and run, and `PeakCaller.DecomposeFresh`
proves the decomposition for them at every closure that prints or drops a segment.

## Left out

- Argument parsing, file opening, `csv.reader` and line splitting (`Call_peaks.py:14-19`,
  `find_nearest_peak.py:24-29`, and the `split(":")` in lines 33 and 40-41). The inputs
  are given as sequences of already split records: `Row` for the peak caller and `Peak`
  for the histogram. The model has no malformed line, so it does not capture what the
  source does with one:
  - In the WPS file, a record without a third field, or with a score that is not a
    number, raises.
  - In the comparison file, every line's first field is in `CHROM`. A line without `:`,
    such as a blank line, or with a position that is not an integer, therefore raises
    at line 41, or already at line 40 when the baseline holds a malformed line with the
    same first field.
  - In the baseline file, the filter `x.split(":")[0] == c` at line 40 is applied before
    `int(x.split(":")[1])`. A malformed baseline line is skipped silently unless its
    first field is a chromosome in `CHROM`, and raises only then.
- `float(row[2])` and `int(...)` parsing, and IEEE floating point. Scores are exact
  `real`s, so rounding in `score_sum` and in the median's mean is not modelled.
- `print` is modelled as appending to a sequence: the printed labels, and the lines
  `(offset, count)`. The text format of an output line is not modelled.
- The file is read line by line in the source. Here all the records are a sequence
  given up front, and the run stops reading at the failed index.
- `methylation_deconvolution.py` is not part of this model. It is a floating-point
  least-squares fit delegated to SciPy's optimiser, a `hash`-based integrity check, and
  file and header handling.
- `PEAKS_1` and `PEAKS_2` are dictionaries in the source, written once per chromosome
  and only read in the same iteration. The model keeps the two sorted lists of the
  current chromosome as local values.
- `Sorting.Sort`: Python's `sorted` is a stable merge sort, while the model uses an
  insertion sort. For numbers and strings, equal elements are identical, so the two give
  the same list.
