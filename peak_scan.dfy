/** The scan that picks the peak of a closed segment (the `enumerate(VALCACHE)` loop of
    the peak caller), as a fold over the segment's scores.

    The state carried from one score to the next is the running accumulation
    (`score_sum`), the best accumulation so far (`sum_to_beat`), the labels of that best
    accumulation (`pos_to_beat`) and the labels of the running accumulation (`PEAKPOS`).
    `PEAKPOS` is not cleared when a scan starts: it enters the scan as `carried`. */
module PeakScan {

  datatype ScanState = ScanState(
    scoreSum: real,
    sumToBeat: real,
    posToBeat: seq<string>,
    peakPos: seq<string>)

  /** The state before the first score: both sums 0, no best labels, `PEAKPOS` as left
      behind by earlier segments. */
  function Start(carried: seq<string>): ScanState {
    ScanState(0.0, 0.0, [], carried)
  }

  /** One score: a score at least the median joins the running accumulation; a score
      below it closes the accumulation, which replaces the best one only when its sum is
      strictly larger. Only then are the running sum and labels reset. */
  function Advance(st: ScanState, val: real, pos: string, median: real): (r: ScanState)
    ensures r.sumToBeat >= st.sumToBeat
    ensures r.sumToBeat > st.sumToBeat <==> val < median && st.scoreSum > st.sumToBeat
    ensures r.sumToBeat > st.sumToBeat ==>
      r.sumToBeat == st.scoreSum && r.posToBeat == st.peakPos && r.scoreSum == 0.0 && r.peakPos == []
    ensures r.sumToBeat == st.sumToBeat ==> r.posToBeat == st.posToBeat
    ensures val < median && r.sumToBeat == st.sumToBeat ==> r == st
  {
    if val >= median then
      st.(scoreSum := st.scoreSum + val, peakPos := st.peakPos + [pos])
    else if st.scoreSum > st.sumToBeat then
      ScanState(0.0, st.scoreSum, st.peakPos, [])
    else
      st
  }

  /** The state after the first `k` scores of the segment. */
  function ScanTo(vals: seq<real>, labels: seq<string>, median: real, carried: seq<string>, k: nat): (r: ScanState)
    requires |vals| == |labels| && k <= |vals|
    ensures r.sumToBeat >= 0.0
    ensures r.sumToBeat == 0.0 ==> r.posToBeat == []
  {
    if k == 0 then Start(carried)
    else Advance(ScanTo(vals, labels, median, carried, k - 1), vals[k - 1], labels[k - 1], median)
  }

  /** Score `j` is below the median and its running accumulation beats the best so far:
      the moment the best is replaced. */
  predicate Beats(vals: seq<real>, labels: seq<string>, median: real, carried: seq<string>, j: nat)
    requires |vals| == |labels| && j < |vals|
  {
    var st := ScanTo(vals, labels, median, carried, j);
    vals[j] < median && st.scoreSum > st.sumToBeat
  }

  /** The labels of the scores at least the median at positions `lo` to `hi - 1`. */
  function AboveLabels(vals: seq<real>, labels: seq<string>, median: real, lo: nat, hi: nat): seq<string>
    requires |vals| == |labels| && lo <= hi <= |vals|
    decreases hi
  {
    if hi == lo then []
    else AboveLabels(vals, labels, median, lo, hi - 1) + (if vals[hi - 1] >= median then [labels[hi - 1]] else [])
  }

  /** The sum of the scores at least the median at positions `lo` to `hi - 1`. */
  function AboveSum(vals: seq<real>, median: real, lo: nat, hi: nat): real
    requires lo <= hi <= |vals|
    decreases hi
  {
    if hi == lo then 0.0
    else AboveSum(vals, median, lo, hi - 1) + (if vals[hi - 1] >= median then vals[hi - 1] else 0.0)
  }

  /** `sum_to_beat` never decreases during the scan. */
  lemma {:induction false} BestNeverDecreases(vals: seq<real>, labels: seq<string>, median: real, carried: seq<string>, j: nat, k: nat)
    requires |vals| == |labels| && j <= k <= |vals|
    ensures ScanTo(vals, labels, median, carried, j).sumToBeat <= ScanTo(vals, labels, median, carried, k).sumToBeat
  {
    if j < k {
      BestNeverDecreases(vals, labels, median, carried, j, k - 1);
    }
  }

  /** `sum_to_beat` is the running maximum, starting from 0, of the accumulations that a
      below-median score closes. */
  lemma {:induction false} BestIsRunningMaximum(vals: seq<real>, labels: seq<string>, median: real, carried: seq<string>, k: nat)
    requires |vals| == |labels| && k <= |vals|
    ensures ScanTo(vals, labels, median, carried, k).sumToBeat >= 0.0
    ensures forall j :: 0 <= j < k && vals[j] < median ==>
      ScanTo(vals, labels, median, carried, j).scoreSum <= ScanTo(vals, labels, median, carried, k).sumToBeat
  {
    if k > 0 {
      BestIsRunningMaximum(vals, labels, median, carried, k - 1);
    }
  }

  /** While the running sum is not 0 the running accumulation holds at least one label. */
  lemma {:induction false} AccumulationNonEmpty(vals: seq<real>, labels: seq<string>, median: real, carried: seq<string>, k: nat)
    requires |vals| == |labels| && k <= |vals|
    ensures ScanTo(vals, labels, median, carried, k).scoreSum != 0.0 ==> ScanTo(vals, labels, median, carried, k).peakPos != []
  {
    if k > 0 {
      AccumulationNonEmpty(vals, labels, median, carried, k - 1);
    }
  }

  /** The best accumulation, when its sum is positive, is the earliest closed accumulation
      reaching that sum (the comparison is strict), and `pos_to_beat` is a copy of
      `PEAKPOS` taken when that accumulation was closed. While the best sum is still 0,
      `pos_to_beat` is empty. */
  lemma {:induction false} WinnerIsEarliestBest(vals: seq<real>, labels: seq<string>, median: real, carried: seq<string>, k: nat)
    requires |vals| == |labels| && k <= |vals|
    ensures ScanTo(vals, labels, median, carried, k).sumToBeat == 0.0 ==> ScanTo(vals, labels, median, carried, k).posToBeat == []
    ensures ScanTo(vals, labels, median, carried, k).sumToBeat > 0.0 ==>
      exists j :: 0 <= j < k && Beats(vals, labels, median, carried, j)
        && ScanTo(vals, labels, median, carried, j).scoreSum == ScanTo(vals, labels, median, carried, k).sumToBeat
        && ScanTo(vals, labels, median, carried, j).peakPos == ScanTo(vals, labels, median, carried, k).posToBeat
        && forall i :: 0 <= i < j && vals[i] < median ==>
             ScanTo(vals, labels, median, carried, i).scoreSum < ScanTo(vals, labels, median, carried, k).sumToBeat
  {
    if k > 0 {
      WinnerIsEarliestBest(vals, labels, median, carried, k - 1);
      BestIsRunningMaximum(vals, labels, median, carried, k - 1);
      var prev := ScanTo(vals, labels, median, carried, k - 1);
      if vals[k - 1] < median && prev.scoreSum > prev.sumToBeat {
        assert Beats(vals, labels, median, carried, k - 1);
      }
    }
  }

  /** `pos_to_beat` ends the scan empty exactly when no closed accumulation has a
      positive sum; that is when `pos_to_beat[len(pos_to_beat) // 2]` fails. */
  lemma NoWinnerIff(vals: seq<real>, labels: seq<string>, median: real, carried: seq<string>, k: nat)
    requires |vals| == |labels| && k <= |vals|
    ensures ScanTo(vals, labels, median, carried, k).posToBeat == [] <==>
      forall j :: 0 <= j < k && vals[j] < median ==> ScanTo(vals, labels, median, carried, j).scoreSum <= 0.0
  {
    var st := ScanTo(vals, labels, median, carried, k);
    BestIsRunningMaximum(vals, labels, median, carried, k);
    WinnerIsEarliestBest(vals, labels, median, carried, k);
    if st.sumToBeat > 0.0 {
      var j :| 0 <= j < k && Beats(vals, labels, median, carried, j)
        && ScanTo(vals, labels, median, carried, j).scoreSum == st.sumToBeat
        && ScanTo(vals, labels, median, carried, j).peakPos == st.posToBeat;
      AccumulationNonEmpty(vals, labels, median, carried, j);
    }
  }

  /** Every label in `PEAKPOS` or `pos_to_beat` was carried in or belongs to a score
      already scanned. */
  lemma {:induction false} LabelsComeFromInput(vals: seq<real>, labels: seq<string>, median: real, carried: seq<string>, k: nat)
    requires |vals| == |labels| && k <= |vals|
    ensures forall x :: x in ScanTo(vals, labels, median, carried, k).peakPos ==> x in carried || x in labels[..k]
    ensures forall x :: x in ScanTo(vals, labels, median, carried, k).posToBeat ==> x in carried || x in labels[..k]
  {
    if k > 0 {
      LabelsComeFromInput(vals, labels, median, carried, k - 1);
      assert labels[..k] == labels[..k - 1] + [labels[k - 1]];
    }
  }

  /** The running accumulation holds exactly the above-median scores since the last time
      the best was beaten (or, if it never was, since the scan started, after the carried
      labels); no score in between beat the best, so an accumulation that failed to beat
      it runs on across the below-median scores that followed. */
  lemma {:induction false} AccumulationSinceLastReset(vals: seq<real>, labels: seq<string>, median: real, carried: seq<string>, k: nat)
    requires |vals| == |labels| && k <= |vals|
    ensures exists r :: (0 <= r <= k
      && (r > 0 ==> Beats(vals, labels, median, carried, r - 1))
      && (forall i :: r <= i < k ==> !Beats(vals, labels, median, carried, i))
      && ScanTo(vals, labels, median, carried, k).peakPos == (if r == 0 then carried else []) + AboveLabels(vals, labels, median, r, k)
      && ScanTo(vals, labels, median, carried, k).scoreSum == AboveSum(vals, median, r, k))
  {
    if k == 0 {
      assert carried + AboveLabels(vals, labels, median, 0, 0) == carried;
      assert AboveSum(vals, median, 0, 0) == 0.0;
    } else {
      AccumulationSinceLastReset(vals, labels, median, carried, k - 1);
      var r :| 0 <= r <= k - 1
        && (r > 0 ==> Beats(vals, labels, median, carried, r - 1))
        && (forall i :: r <= i < k - 1 ==> !Beats(vals, labels, median, carried, i))
        && ScanTo(vals, labels, median, carried, k - 1).peakPos == (if r == 0 then carried else []) + AboveLabels(vals, labels, median, r, k - 1)
        && ScanTo(vals, labels, median, carried, k - 1).scoreSum == AboveSum(vals, median, r, k - 1);
      var base := if r == 0 then carried else [];
      if Beats(vals, labels, median, carried, k - 1) {
        assert [] + AboveLabels(vals, labels, median, k, k) == [];
        assert AboveSum(vals, median, k, k) == 0.0;
      } else if vals[k - 1] >= median {
        assert base + AboveLabels(vals, labels, median, r, k)
            == (base + AboveLabels(vals, labels, median, r, k - 1)) + [labels[k - 1]];
      } else {
        assert AboveLabels(vals, labels, median, r, k) == AboveLabels(vals, labels, median, r, k - 1) + [];
      }
    }
  }

  /** A concrete scan: scores `1.0, -1.0` under median 0 make a winner of the first
      accumulation, which starts with whatever labels were carried in. */
  lemma CarriedLabelsLeadWinner()
    ensures ScanTo([1.0, -1.0], ["b1", "b2"], 0.0, [], 2).posToBeat == ["b1"]
    ensures ScanTo([1.0, -1.0], ["b1", "b2"], 0.0, ["a1", "a2"], 2).posToBeat == ["a1", "a2", "b1"]
  {
    var vals, labels := [1.0, -1.0], ["b1", "b2"];
    ScanOfPair(vals, labels, []);
    ScanOfPair(vals, labels, ["a1", "a2"]);
  }

  /** The two steps of the scan of `1.0, -1.0` under median 0. */
  lemma ScanOfPair(vals: seq<real>, labels: seq<string>, carried: seq<string>)
    requires vals == [1.0, -1.0] && |labels| == 2
    ensures ScanTo(vals, labels, 0.0, carried, 2).posToBeat == carried + [labels[0]]
  {
    var s0 := ScanTo(vals, labels, 0.0, carried, 0);
    assert s0 == Start(carried);
    var s1 := ScanTo(vals, labels, 0.0, carried, 1);
    assert s1 == Advance(s0, 1.0, labels[0], 0.0);
    assert s1 == ScanState(1.0, 0.0, [], carried + [labels[0]]);
    var s2 := ScanTo(vals, labels, 0.0, carried, 2);
    assert s2 == Advance(s1, -1.0, labels[1], 0.0);
  }
}
