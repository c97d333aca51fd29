/** The streaming WPS peak caller: one pass over the records of a WPS file, buffering
    each record into the open segment and, when a segment closes, reporting at most one
    peak label for it.

    `Next` and `RunPeaks` state on values what one record and a whole stream do; the
    class `Caller` keeps the same state in fields that its `Step` method updates in
    place, and `CallPeaks` is the record loop. */
module PeakCaller {
  import opened Sorting
  import opened Statistics
  import opened PeakScan

  /** One record of the WPS file: the chromosome and position fields as written, and the
      score read from the third field. */
  datatype Row = Row(chrom: string, pos: string, score: real)

  /** The buffered label of a record: chromosome and position joined by ":". */
  function Label(row: Row): (l: string)
    ensures |l| == |row.chrom| + 1 + |row.pos|
    ensures l[..|row.chrom|] == row.chrom && l[|row.chrom|] == ':' && l[|row.chrom| + 1..] == row.pos
  {
    row.chrom + ":" + row.pos
  }

  ghost function LabelSet(rows: seq<Row>): set<string> {
    set r | r in rows :: Label(r)
  }

  /** A segment closes on the first negative score beyond this many in a row. */
  const NegativeRunLimit: nat := 5
  /** The segment lengths, closing scores included, that are searched for a peak. */
  const MinRegion: nat := 50
  const MaxRegion: nat := 450

  /** What one record does: it is only buffered; it closes a segment whose length is
      outside the window; it closes a segment and a peak label is printed; or it closes a
      segment whose best accumulation is empty, so indexing it raises and the run ends. */
  datatype Outcome = Buffered | Discarded | Emitted(peak: string) | EmptyWinner

  /** `VALCACHE`, `POSCACHE`, `PEAKPOS` and `CONTNEG`. */
  datatype CallerState = CallerState(
    valCache: seq<real>,
    posCache: seq<string>,
    peakPos: seq<string>,
    contNeg: nat)

  const Initial := CallerState([], [], [], 0)

  /** The number of negative scores at the end of `vals`. */
  function TrailingNegatives(vals: seq<real>): nat {
    if vals == [] || vals[|vals| - 1] >= 0.0 then 0
    else TrailingNegatives(vals[..|vals| - 1]) + 1
  }

  /** The scan of a closed segment, with the segment's median as threshold. */
  function SegmentScan(vals: seq<real>, labels: seq<string>, carried: seq<string>): ScanState
    requires |vals| == |labels| && |vals| > 0
  {
    ScanTo(vals, labels, Median(Sort(vals, RealLe)), carried, |vals|)
  }

  /** A closing record: a segment of admissible length is scanned and its best
      accumulation's middle label printed; any other segment is dropped. */
  function Close(st: CallerState): (r: (CallerState, Outcome))
    requires |st.valCache| == |st.posCache|
    ensures !r.1.Buffered?
    ensures |r.0.valCache| == |r.0.posCache|
    ensures !r.1.EmptyWinner? ==> r.0.valCache == [] && r.0.posCache == [] && r.0.contNeg == 0
    ensures r.1.EmptyWinner? ==> r.0.valCache == st.valCache && r.0.posCache == st.posCache && r.0.contNeg == st.contNeg
    ensures r.1.Discarded? <==> !(MinRegion <= |st.valCache| <= MaxRegion)
    ensures r.1.Discarded? ==> r.0.peakPos == st.peakPos
    ensures r.1.Emitted? ==> r.1.peak in st.peakPos || r.1.peak in st.posCache
  {
    if !(MinRegion <= |st.valCache| <= MaxRegion) then
      (CallerState([], [], st.peakPos, 0), Discarded)
    else
      var scan := SegmentScan(st.valCache, st.posCache, st.peakPos);
      LabelsComeFromInput(st.valCache, st.posCache, Median(Sort(st.valCache, RealLe)), st.peakPos, |st.valCache|);
      assert st.posCache[..|st.valCache|] == st.posCache;
      if scan.posToBeat == [] then
        (st.(peakPos := scan.peakPos), EmptyWinner)
      else
        (CallerState([], [], scan.peakPos, 0), Emitted(scan.posToBeat[|scan.posToBeat| / 2]))
  }

  /** The effect of one record on the state: it is buffered, the streak counter is
      updated, and a sixth negative score in a row closes the segment. */
  function Next(st: CallerState, row: Row): (r: (CallerState, Outcome))
    requires |st.valCache| == |st.posCache|
    ensures |r.0.valCache| == |r.0.posCache|
    ensures r.1.Buffered? <==> (if row.score < 0.0 then st.contNeg + 1 else 0) <= NegativeRunLimit
    ensures r.1.Buffered? || r.1.EmptyWinner? ==>
      r.0.valCache == st.valCache + [row.score] && r.0.posCache == st.posCache + [Label(row)]
    ensures r.1.Discarded? || r.1.Emitted? ==> r.0.valCache == [] && r.0.posCache == [] && r.0.contNeg == 0
  {
    var contNeg := if row.score < 0.0 then st.contNeg + 1 else 0;
    var buffered := CallerState(st.valCache + [row.score], st.posCache + [Label(row)], st.peakPos, contNeg);
    if contNeg <= NegativeRunLimit then (buffered, Buffered) else Close(buffered)
  }

  /** The state after a stream of records, the labels printed so far, and whether the
      run has ended on the failed index. */
  datatype Run = Run(state: CallerState, peaks: seq<string>, crashed: bool)

  /** The records processed in order; after a failed index no further record is read. */
  function RunPeaks(rows: seq<Row>): (r: Run)
    ensures |r.state.valCache| == |r.state.posCache|
  {
    if rows == [] then Run(Initial, [], false)
    else
      var prev := RunPeaks(rows[..|rows| - 1]);
      if prev.crashed then prev
      else
        var (st, outcome) := Next(prev.state, rows[|rows| - 1]);
        Run(st, prev.peaks + (if outcome.Emitted? then [outcome.peak] else []), outcome.EmptyWinner?)
  }

  /** One more record, while the run goes on, is one more `Next`. */
  lemma RunPeaksAppend(rows: seq<Row>, row: Row)
    requires !RunPeaks(rows).crashed
    ensures var (st, outcome) := Next(RunPeaks(rows).state, row);
      RunPeaks(rows + [row]) == Run(st, RunPeaks(rows).peaks + (if outcome.Emitted? then [outcome.peak] else []), outcome.EmptyWinner?)
  {
    assert (rows + [row])[..|rows|] == rows;
  }

  lemma TrailingNegativesAppend(vals: seq<real>, score: real)
    ensures TrailingNegatives(vals + [score]) == if score < 0.0 then TrailingNegatives(vals) + 1 else 0
  {
    assert (vals + [score])[..|vals|] == vals;
  }

  /** `CONTNEG` counts the negative scores at the end of `VALCACHE`; it is at most 5
      after every record the run survives, and exactly 6 when the run ended. */
  lemma {:induction false} StreakCountsTrailingNegatives(rows: seq<Row>)
    ensures RunPeaks(rows).state.contNeg == TrailingNegatives(RunPeaks(rows).state.valCache)
    ensures !RunPeaks(rows).crashed ==> RunPeaks(rows).state.contNeg <= NegativeRunLimit
    ensures RunPeaks(rows).crashed ==> RunPeaks(rows).state.contNeg == NegativeRunLimit + 1
  {
    if rows != [] {
      var rest := rows[..|rows| - 1];
      StreakCountsTrailingNegatives(rest);
      TrailingNegativesAppend(RunPeaks(rest).state.valCache, rows[|rows| - 1].score);
    }
  }

  /** While the run goes on, `VALCACHE` and `POSCACHE` hold the scores and the labels of
      the most recent records, in order, pairwise. */
  lemma {:induction false} CachesHoldRecentRows(rows: seq<Row>)
    ensures var st := RunPeaks(rows).state;
      !RunPeaks(rows).crashed ==>
        |st.valCache| <= |rows| &&
        forall i :: 0 <= i < |st.valCache| ==>
          st.valCache[i] == rows[|rows| - |st.valCache| + i].score &&
          st.posCache[i] == Label(rows[|rows| - |st.valCache| + i])
  {
    if rows != [] {
      var rest := rows[..|rows| - 1];
      var row := rows[|rows| - 1];
      CachesHoldRecentRows(rest);
      assert rows == rest + [row];
      var prev := RunPeaks(rest);
      if !prev.crashed {
        RunPeaksAppend(rest, row);
        var (st, outcome) := Next(prev.state, row);
        if outcome.Buffered? {
          assert st.valCache == prev.state.valCache + [row.score];
          assert st.posCache == prev.state.posCache + [Label(row)];
          forall i | 0 <= i < |st.valCache|
            ensures st.valCache[i] == rows[|rows| - |st.valCache| + i].score
            ensures st.posCache[i] == Label(rows[|rows| - |st.valCache| + i])
          {
            if i < |st.valCache| - 1 {
              assert rows[|rows| - |st.valCache| + i] == rest[|rest| - |prev.state.valCache| + i];
            }
          }
        }
      }
    }
  }

  /** Every label printed, buffered or kept in `PEAKPOS` is the label of a record already
      read. */
  lemma {:induction false} LabelsAreFromRows(rows: seq<Row>)
    ensures forall l :: l in RunPeaks(rows).peaks ==> l in LabelSet(rows)
    ensures forall l :: l in RunPeaks(rows).state.peakPos ==> l in LabelSet(rows)
    ensures forall l :: l in RunPeaks(rows).state.posCache ==> l in LabelSet(rows)
  {
    if rows != [] {
      var rest := rows[..|rows| - 1];
      var row := rows[|rows| - 1];
      LabelsAreFromRows(rest);
      assert rows == rest + [row];
      assert LabelSet(rest) <= LabelSet(rows);
      var prev := RunPeaks(rest);
      if !prev.crashed {
        var st := prev.state;
        var vals := st.valCache + [row.score];
        var labels := st.posCache + [Label(row)];
        if |vals| > 0 {
          var m := Median(Sort(vals, RealLe));
          LabelsComeFromInput(vals, labels, m, st.peakPos, |vals|);
          assert labels[..|vals|] == labels;
        }
      }
    }
  }

  /** A segment closes exactly on its sixth negative score in a row. A closing record
      prints a label only when the segment, closing scores included, holds 50 to 450
      records; a segment of any other length is dropped silently. After a closure the
      caches are empty and the counter is 0, whether or not a label was printed, while
      `PEAKPOS` is kept: unchanged for a dropped segment, as the scan left it otherwise. */
  lemma ClosureOnSixthNegative(rows: seq<Row>, row: Row)
    requires !RunPeaks(rows).crashed
    ensures var st := RunPeaks(rows).state;
      var (st', outcome) := Next(st, row);
      var closes := TrailingNegatives(st.valCache + [row.score]) == NegativeRunLimit + 1;
      var inWindow := MinRegion <= |st.valCache| + 1 <= MaxRegion;
      (outcome.Buffered? <==> !closes) &&
      (outcome.Discarded? <==> closes && !inWindow) &&
      (outcome.Emitted? ==> closes && inWindow) &&
      (outcome.Discarded? || outcome.Emitted? ==> st'.valCache == [] && st'.posCache == [] && st'.contNeg == 0) &&
      (outcome.Discarded? ==> st'.peakPos == st.peakPos) &&
      (outcome.Emitted? ==> st'.peakPos == SegmentScan(st.valCache + [row.score], st.posCache + [Label(row)], st.peakPos).peakPos) &&
      (outcome.Buffered? ==> st'.valCache == st.valCache + [row.score] && st'.posCache == st.posCache + [Label(row)] && st'.peakPos == st.peakPos)
  {
    StreakCountsTrailingNegatives(rows);
    TrailingNegativesAppend(RunPeaks(rows).state.valCache, row.score);
  }

  /** On a closed segment of admissible length, the run ends on the failed index exactly
      when no accumulation closed by a below-median score has a positive sum; otherwise
      the printed label is the middle label of the best accumulation, whose sum is at
      least that of every accumulation so closed. */
  lemma ClosedSegmentOutcome(st: CallerState, row: Row)
    requires |st.valCache| == |st.posCache|
    ensures var vals := st.valCache + [row.score];
      var labels := st.posCache + [Label(row)];
      var m := Median(Sort(vals, RealLe));
      var scan := SegmentScan(vals, labels, st.peakPos);
      var outcome := Next(st, row).1;
      (outcome.EmptyWinner? <==>
        !outcome.Buffered? && MinRegion <= |vals| <= MaxRegion &&
        forall j :: 0 <= j < |vals| && vals[j] < m ==> ScanTo(vals, labels, m, st.peakPos, j).scoreSum <= 0.0) &&
      (outcome.Emitted? ==>
        scan.sumToBeat > 0.0 && |scan.posToBeat| > 0 &&
        outcome.peak == scan.posToBeat[|scan.posToBeat| / 2] &&
        forall j :: 0 <= j < |vals| && vals[j] < m ==> ScanTo(vals, labels, m, st.peakPos, j).scoreSum <= scan.sumToBeat)
  {
    var vals := st.valCache + [row.score];
    var labels := st.posCache + [Label(row)];
    var m := Median(Sort(vals, RealLe));
    NoWinnerIff(vals, labels, m, st.peakPos, |vals|);
    BestIsRunningMaximum(vals, labels, m, st.peakPos, |vals|);
    WinnerIsEarliestBest(vals, labels, m, st.peakPos, |vals|);
  }

  /** Every printed label needs a segment of at least 50 records of its own, so a stream
      of n records prints at most n / 50 labels. */
  lemma {:induction false} PeaksAreSparse(rows: seq<Row>)
    ensures |RunPeaks(rows).peaks| * MinRegion + |RunPeaks(rows).state.valCache| <= |rows|
  {
    if rows != [] {
      PeaksAreSparse(rows[..|rows| - 1]);
    }
  }

  /** Labels are printed as soon as they are found and never taken back: the labels
      printed for a prefix of the stream begin the labels printed for the whole stream. */
  lemma {:induction false} PeaksOfPrefix(rows: seq<Row>, i: nat)
    requires i <= |rows|
    ensures RunPeaks(rows[..i]).peaks <= RunPeaks(rows).peaks
  {
    if i < |rows| {
      var rest := rows[..|rows| - 1];
      PeaksOfPrefix(rest, i);
      assert rest[..i] == rows[..i];
    } else {
      assert rows[..i] == rows;
    }
  }

  /** After the failed index nothing more happens: the state and the printed labels stay
      as they were. */
  lemma {:induction false} CrashIsFinal(rows: seq<Row>, i: nat)
    requires i <= |rows| && RunPeaks(rows[..i]).crashed
    ensures RunPeaks(rows) == RunPeaks(rows[..i])
  {
    if i < |rows| {
      var rest := rows[..|rows| - 1];
      assert rest[..i] == rows[..i];
      CrashIsFinal(rest, i);
    } else {
      assert rows[..i] == rows;
    }
  }

  /** Splitting the stream where the caller is back in its initial state (caches empty,
      counter 0 and no labels left in `PEAKPOS`) changes nothing: the second part prints
      what it prints on its own, after the labels of the first part. */
  lemma {:induction false} Decompose(a: seq<Row>, b: seq<Row>)
    requires !RunPeaks(a).crashed && RunPeaks(a).state == Initial
    ensures RunPeaks(a + b) == Run(RunPeaks(b).state, RunPeaks(a).peaks + RunPeaks(b).peaks, RunPeaks(b).crashed)
  {
    if b == [] {
      assert a + b == a;
    } else {
      var rest := b[..|b| - 1];
      assert (a + b)[..|a + b| - 1] == a + rest;
      assert (a + b)[|a + b| - 1] == b[|b| - 1];
      Decompose(a, rest);
    }
  }

  /** The median of the scores `1.0, -1.0` is 0. */
  lemma PairMedian()
    ensures Median(Sort([1.0, -1.0], RealLe)) == 0.0
  {
    var vals := [1.0, -1.0];
    assert Sort(vals, RealLe) == [-1.0, 1.0] by {
      assert vals[1..] == [-1.0];
      assert Sort([-1.0], RealLe) == [-1.0];
    }
    MedianOfSorted(vals);
    assert Sort([-1.0, 1.0], RealLe) == [-1.0, 1.0] by {
      SortOfSorted([-1.0, 1.0], RealLe);
    }
  }

  /** `PEAKPOS` left over from an earlier segment changes the peak of the next one: for
      the segment `1.0, -1.0` (median 0) the carried labels `["a1", "a2"]` lead the best
      accumulation, whose middle label `"a2"` then belongs to the earlier segment, where
      without them the label is `"b1"`. */
  lemma CarriedLabelsShiftPeak()
    ensures SegmentScan([1.0, -1.0], ["b1", "b2"], []).posToBeat == ["b1"]
    ensures SegmentScan([1.0, -1.0], ["b1", "b2"], ["a1", "a2"]).posToBeat == ["a1", "a2", "b1"]
    ensures var w := SegmentScan([1.0, -1.0], ["b1", "b2"], ["a1", "a2"]).posToBeat;
      w[|w| / 2] == "a2"
  {
    PairMedian();
    CarriedLabelsLeadWinner();
  }

  /** One record with the closure clearing `PEAKPOS` as well, so that every segment is
      scanned with no labels carried in. */
  function NextFresh(st: CallerState, row: Row): (r: (CallerState, Outcome))
    requires |st.valCache| == |st.posCache|
    ensures r.1 == Next(st, row).1
    ensures r.1.Discarded? || r.1.Emitted? ==> r.0 == Initial
    ensures r.1.Buffered? || r.1.EmptyWinner? ==> r.0 == Next(st, row).0
  {
    var (next, outcome) := Next(st, row);
    if outcome.Discarded? || outcome.Emitted? then (next.(peakPos := []), outcome) else (next, outcome)
  }

  /** The record loop with `NextFresh` in place of `Next`. */
  function RunFresh(rows: seq<Row>): (r: Run)
    ensures |r.state.valCache| == |r.state.posCache|
  {
    if rows == [] then Run(Initial, [], false)
    else
      var prev := RunFresh(rows[..|rows| - 1]);
      if prev.crashed then prev
      else
        var (st, outcome) := NextFresh(prev.state, rows[|rows| - 1]);
        Run(st, prev.peaks + (if outcome.Emitted? then [outcome.peak] else []), outcome.EmptyWinner?)
  }

  /** With `PEAKPOS` cleared at each closure, a run whose caches are empty (the stream is
      empty or has just closed a segment) is back in the initial state. */
  lemma {:induction false} FreshBoundaryIsInitial(rows: seq<Row>)
    requires !RunFresh(rows).crashed && RunFresh(rows).state.valCache == []
    ensures RunFresh(rows).state == Initial
  {
    if rows != [] {
      var prev := RunFresh(rows[..|rows| - 1]);
      var (st, outcome) := NextFresh(prev.state, rows[|rows| - 1]);
      assert !outcome.Buffered? && !outcome.EmptyWinner?;
    }
  }

  /** With `PEAKPOS` cleared at each closure, splitting the stream after any closing record
      (a negative-streak break) gives the same labels as processing the two parts
      separately. */
  lemma {:induction false} DecomposeFresh(a: seq<Row>, b: seq<Row>)
    requires !RunFresh(a).crashed && RunFresh(a).state.valCache == []
    ensures RunFresh(a + b) == Run(RunFresh(b).state, RunFresh(a).peaks + RunFresh(b).peaks, RunFresh(b).crashed)
  {
    if b == [] {
      assert a + b == a;
      FreshBoundaryIsInitial(a);
    } else {
      var rest := b[..|b| - 1];
      assert (a + b)[..|a + b| - 1] == a + rest;
      assert (a + b)[|a + b| - 1] == b[|b| - 1];
      DecomposeFresh(a, rest);
    }
  }

  /** The peak caller's state, updated in place record by record. */
  class Caller {
    var valCache: seq<real>
    var posCache: seq<string>
    var peakPos: seq<string>
    var contNeg: nat
    /** The records read so far. */
    ghost var history: seq<Row>
    /** The labels printed so far. */
    ghost var output: seq<string>
    /** Whether the run has ended on the failed index. */
    ghost var crashed: bool

    ghost function State(): CallerState
      reads this
    {
      CallerState(valCache, posCache, peakPos, contNeg)
    }

    /** The fields are what the records read so far lead to. */
    ghost predicate Valid()
      reads this
    {
      RunPeaks(history) == Run(State(), output, crashed)
    }

    constructor ()
      ensures Valid() && history == [] && output == [] && !crashed && State() == Initial
    {
      valCache, posCache, peakPos, contNeg := [], [], [], 0;
      history, output, crashed := [], [], false;
    }

    /** Reads one record (one iteration of the record loop). */
    method Step(row: Row) returns (outcome: Outcome)
      requires Valid() && !crashed
      modifies this
      ensures Valid() && history == old(history) + [row]
      ensures (State(), outcome) == Next(old(State()), row)
      ensures output == old(output) + (if outcome.Emitted? then [outcome.peak] else [])
      ensures crashed <==> outcome.EmptyWinner?
    {
      RunPeaksAppend(history, row);
      ghost var prev := State();
      var score := row.score;
      var pos := row.chrom + ":" + row.pos;
      valCache := valCache + [score];
      posCache := posCache + [pos];
      if score < 0.0 {
        contNeg := contNeg + 1;
      } else {
        contNeg := 0;
      }
      ghost var buffered := State();
      assert buffered == CallerState(prev.valCache + [row.score], prev.posCache + [Label(row)], prev.peakPos, contNeg);
      if contNeg > NegativeRunLimit {
        outcome := CloseSegment();
        assert (State(), outcome) == Close(buffered) == Next(prev, row);
      } else {
        outcome := Buffered;
        assert (State(), outcome) == (buffered, Buffered) == Next(prev, row);
      }
      if outcome.Emitted? {
        output := output + [outcome.peak];
      }
      crashed := outcome.EmptyWinner?;
      history := history + [row];
    }

    /** The closing branch of the record loop: the length gate, the median, the scan and
        the printed label, then the reset of the caches and the counter (which the
        failed index never reaches). */
    method CloseSegment() returns (outcome: Outcome)
      requires |valCache| == |posCache|
      modifies this`valCache, this`posCache, this`peakPos, this`contNeg
      ensures (State(), outcome) == Close(old(State()))
    {
      outcome := Discarded;
      if MinRegion <= |valCache| <= MaxRegion {
        var median := Median(Sort(valCache, RealLe));
        var sumToBeat, posToBeat := ScanSegment(median);
        if |posToBeat| == 0 {
          return EmptyWinner;
        }
        outcome := Emitted(posToBeat[|posToBeat| / 2]);
      }
      valCache := [];
      posCache := [];
      contNeg := 0;
    }

    /** The `enumerate(VALCACHE)` loop: finds the best accumulation of scores at least
        `median`, appending to and resetting `PEAKPOS` as it goes. */
    method ScanSegment(median: real) returns (sumToBeat: real, posToBeat: seq<string>)
      requires |valCache| == |posCache|
      modifies this`peakPos
      ensures var scan := ScanTo(valCache, posCache, median, old(peakPos), |valCache|);
        sumToBeat == scan.sumToBeat && posToBeat == scan.posToBeat && peakPos == scan.peakPos
    {
      var scoreSum := 0.0;
      sumToBeat := 0.0;
      posToBeat := [];
      for idx := 0 to |valCache|
        invariant ScanTo(valCache, posCache, median, old(peakPos), idx) == ScanState(scoreSum, sumToBeat, posToBeat, peakPos)
      {
        var val := valCache[idx];
        if val >= median {
          scoreSum := scoreSum + val;
          peakPos := peakPos + [posCache[idx]];
        } else if scoreSum > sumToBeat {
          sumToBeat := scoreSum;
          posToBeat := peakPos;
          scoreSum := 0.0;
          peakPos := [];
        }
      }
    }
  }

  /** The record loop over a whole WPS file: returns the printed labels and whether the
      run ended on the failed index. */
  method CallPeaks(rows: seq<Row>) returns (peaks: seq<string>, crashed: bool)
    ensures peaks == RunPeaks(rows).peaks && crashed == RunPeaks(rows).crashed
    ensures forall l :: l in peaks ==> l in LabelSet(rows)
    ensures |peaks| * MinRegion <= |rows|
  {
    var caller := new Caller();
    var i := 0;
    peaks, crashed := [], false;
    while i < |rows| && !crashed
      invariant 0 <= i <= |rows|
      invariant caller.Valid() && caller.history == rows[..i]
      invariant crashed == caller.crashed && peaks == caller.output
      decreases |rows| - i
    {
      var outcome := caller.Step(rows[i]);
      if outcome.Emitted? {
        peaks := peaks + [outcome.peak];
      }
      crashed := outcome.EmptyWinner?;
      assert rows[..i + 1] == rows[..i] + [rows[i]];
      i := i + 1;
    }
    if crashed {
      CrashIsFinal(rows, i);
    } else {
      assert rows[..i] == rows;
    }
    LabelsAreFromRows(rows);
    PeaksAreSparse(rows);
  }
}
