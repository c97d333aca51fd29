/** Python's `statistics.median`, on real-valued scores. */
module Statistics {
  import opened Sorting

  function AtLeast(m: real): real -> bool { x => x >= m }

  function AtMost(m: real): real -> bool { x => x <= m }

  function Below(m: real): real -> bool { x => x < m }

  /** The middle of an ordered list: its middle element when the length is odd and the
      mean of the two middle elements when it is even. */
  function Middle(s: seq<real>): (m: real)
    requires |s| > 0
    ensures SortedBy(s, RealLe) ==> s[0] <= m <= s[|s| - 1]
  {
    var n := |s|;
    if n % 2 == 1 then s[n / 2] else (s[n / 2 - 1] + s[n / 2]) / 2.0
  }

  /** `statistics.median(data)`: sorts `data`, then takes the middle. */
  function Median(data: seq<real>): (m: real)
    requires |data| > 0
    ensures exists i :: 0 <= i < |data| && data[i] <= m
    ensures exists j :: 0 <= j < |data| && m <= data[j]
  {
    var s := Sort(data, RealLe);
    RealLeIsTotalPreorder();
    SortSorted(data, RealLe);
    SortPermutes(data, RealLe);
    assert s[0] in multiset(data) && s[|s| - 1] in multiset(data);
    Middle(s)
  }

  lemma OddMiddleSplits(s: seq<real>)
    requires |s| % 2 == 1 && SortedBy(s, RealLe)
    ensures 2 * Count(s, AtLeast(Middle(s))) >= |s|
    ensures 2 * Count(s, AtMost(Middle(s))) >= |s|
  {
    var n, m := |s|, Middle(s);
    forall k | n / 2 <= k < n ensures AtLeast(m)(s[k]) {
      if k > n / 2 { assert RealLe(s[n / 2], s[k]); }
    }
    forall k | 0 <= k < n / 2 + 1 ensures AtMost(m)(s[k]) {
      if k < n / 2 { assert RealLe(s[k], s[n / 2]); }
    }
    CountSuffix(s, AtLeast(m), n / 2);
    CountPrefix(s, AtMost(m), n / 2 + 1);
  }

  lemma EvenMiddleSplits(s: seq<real>)
    requires |s| > 0 && |s| % 2 == 0 && SortedBy(s, RealLe)
    ensures 2 * Count(s, AtLeast(Middle(s))) >= |s|
    ensures 2 * Count(s, AtMost(Middle(s))) >= |s|
  {
    var n, m := |s|, Middle(s);
    assert RealLe(s[n / 2 - 1], s[n / 2]);
    forall k | n / 2 <= k < n ensures AtLeast(m)(s[k]) {
      if k > n / 2 { assert RealLe(s[n / 2], s[k]); }
    }
    forall k | 0 <= k < n / 2 ensures AtMost(m)(s[k]) {
      if k < n / 2 - 1 { assert RealLe(s[k], s[n / 2 - 1]); }
    }
    CountSuffix(s, AtLeast(m), n / 2);
    CountPrefix(s, AtMost(m), n / 2);
  }

  /** The median splits the data in halves: at least half of the values are at least
      the median and at least half are at most the median; for an odd number of values
      the median is one of them. */
  lemma MedianSplitsData(data: seq<real>)
    requires |data| > 0
    ensures 2 * Count(data, AtLeast(Median(data))) >= |data|
    ensures 2 * Count(data, AtMost(Median(data))) >= |data|
    ensures |data| % 2 == 1 ==> Median(data) in data
  {
    var s := Sort(data, RealLe);
    var m := Median(data);
    RealLeIsTotalPreorder();
    SortSorted(data, RealLe);
    SortPermutes(data, RealLe);
    if |s| % 2 == 1 {
      OddMiddleSplits(s);
      assert m == s[|s| / 2];
      assert m in multiset(s);
    } else {
      EvenMiddleSplits(s);
    }
    CountSort(data, RealLe, AtLeast(m));
    CountSort(data, RealLe, AtMost(m));
  }

  /** On an ordered list of even length the middle is the mean of the two middle order
      statistics: fewer than half the values lie below the lower one and at least half
      are at most it; at most half lie below the upper one and more than half are at
      most it. */
  lemma EvenMiddleIsMean(s: seq<real>)
    requires |s| > 0 && |s| % 2 == 0 && SortedBy(s, RealLe)
    ensures var n, lo, hi := |s|, s[|s| / 2 - 1], s[|s| / 2];
      Middle(s) == (lo + hi) / 2.0 &&
      2 * Count(s, Below(lo)) < n <= 2 * Count(s, AtMost(lo)) &&
      2 * Count(s, Below(hi)) <= n < 2 * Count(s, AtMost(hi))
  {
    var n := |s|;
    var lo, hi := s[n / 2 - 1], s[n / 2];
    forall k | n / 2 - 1 <= k < n ensures !Below(lo)(s[k]) {
      if k > n / 2 - 1 { assert RealLe(s[n / 2 - 1], s[k]); }
    }
    forall k | 0 <= k < n / 2 ensures AtMost(lo)(s[k]) {
      if k < n / 2 - 1 { assert RealLe(s[k], s[n / 2 - 1]); }
    }
    forall k | n / 2 <= k < n ensures !Below(hi)(s[k]) {
      if k > n / 2 { assert RealLe(s[n / 2], s[k]); }
    }
    forall k | 0 <= k < n / 2 + 1 ensures AtMost(hi)(s[k]) {
      if k < n / 2 { assert RealLe(s[k], s[n / 2]); }
    }
    CountBoundedByPrefix(s, Below(lo), n / 2 - 1);
    CountPrefix(s, AtMost(lo), n / 2);
    CountBoundedByPrefix(s, Below(hi), n / 2);
    CountPrefix(s, AtMost(hi), n / 2 + 1);
  }

  /** For an even number of values the median is the mean of the two middle values,
      identified by how many values lie below and at most each of them. */
  lemma MedianEvenIsMean(data: seq<real>)
    requires |data| > 0 && |data| % 2 == 0
    ensures exists lo, hi :: (Median(data) == (lo + hi) / 2.0 &&
      2 * Count(data, Below(lo)) < |data| <= 2 * Count(data, AtMost(lo)) &&
      2 * Count(data, Below(hi)) <= |data| < 2 * Count(data, AtMost(hi)))
  {
    var s := Sort(data, RealLe);
    RealLeIsTotalPreorder();
    SortSorted(data, RealLe);
    EvenMiddleIsMean(s);
    var lo, hi := s[|s| / 2 - 1], s[|s| / 2];
    CountSort(data, RealLe, Below(lo));
    CountSort(data, RealLe, AtMost(lo));
    CountSort(data, RealLe, Below(hi));
    CountSort(data, RealLe, AtMost(hi));
    assert Median(data) == (lo + hi) / 2.0;
  }

  /** Passing an already sorted list, as the peak caller does with `sorted(VALCACHE)`,
      gives the same median as passing the raw values. */
  lemma MedianOfSorted(data: seq<real>)
    requires |data| > 0
    ensures Median(Sort(data, RealLe)) == Median(data)
  {
    RealLeIsTotalPreorder();
    SortSorted(data, RealLe);
    SortOfSorted(Sort(data, RealLe), RealLe);
  }
}
