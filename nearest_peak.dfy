/** The nearest-peak distance histogram: for every baseline peak on a chromosome that
    the comparison set also has, the signed offset to the nearest comparison peak on
    that chromosome, counted per offset from -500 to 500. */
module NearestPeak {
  import opened Sorting

  function Abs(x: int): nat {
    if x < 0 then -x else x
  }

  /** Python's `bisect.bisect_left(a, x, lo, hi)`: the first index in `lo..hi` at which
      `x` could be inserted keeping `a` sorted, found by halving the range. */
  function BisectLeft(a: seq<int>, x: int, lo: nat, hi: nat): (idx: nat)
    requires lo <= hi <= |a| && SortedBy(a, IntLe)
    requires forall i :: 0 <= i < lo ==> a[i] < x
    requires forall i :: hi <= i < |a| ==> a[i] >= x
    ensures lo <= idx <= hi
    ensures forall i :: 0 <= i < idx ==> a[i] < x
    ensures forall i :: idx <= i < |a| ==> a[i] >= x
    decreases hi - lo
  {
    if lo < hi then
      var mid := (lo + hi) / 2;
      if a[mid] < x then
        assert forall i :: 0 <= i <= mid ==> IntLe(a[i], a[mid]);
        BisectLeft(a, x, mid + 1, hi)
      else
        assert forall i :: mid <= i < |a| ==> IntLe(a[mid], a[i]);
        BisectLeft(a, x, lo, mid)
    else lo
  }

  /** Python's `min(a, b, key=abs)`: the first argument unless the second is strictly
      closer to 0. */
  function MinByAbs(a: int, b: int): (m: int)
    ensures m == a || m == b
    ensures Abs(m) <= Abs(a) && Abs(m) <= Abs(b)
    ensures Abs(a) == Abs(b) ==> m == a
  {
    if Abs(b) < Abs(a) then b else a
  }

  /** `closest(comp_list, number)`: the signed offset from `number` to its nearest
      element of the sorted, non-empty `comp`. The result leads to an element of `comp`,
      no element is nearer, and of two equally near elements the higher is chosen. */
  function Closest(comp: seq<int>, number: int): (d: int)
    requires |comp| > 0 && SortedBy(comp, IntLe)
    ensures number + d in comp
    ensures forall y :: y in comp ==> Abs(d) <= Abs(y - number)
    ensures forall y :: y in comp && Abs(y - number) == Abs(d) ==> y - number <= d
  {
    var idx := BisectLeft(comp, number, 0, |comp|);
    if idx == 0 then
      comp[0] - number
    else if idx == |comp| then
      comp[|comp| - 1] - number
    else
      assert forall i :: 0 <= i < idx ==> IntLe(comp[i], comp[idx - 1]);
      assert forall i :: idx <= i < |comp| ==> IntLe(comp[idx], comp[i]);
      MinByAbs(comp[idx] - number, comp[idx - 1] - number)
  }

  /** The two ends of the bisection: a number at or below the first element is matched
      to the first element, at a non-negative offset; a number above the last element is
      matched to the last element, at a negative offset. */
  lemma ClosestAtEnds(comp: seq<int>, number: int)
    requires |comp| > 0 && SortedBy(comp, IntLe)
    ensures BisectLeft(comp, number, 0, |comp|) == 0 ==>
      Closest(comp, number) == comp[0] - number && Closest(comp, number) >= 0
    ensures BisectLeft(comp, number, 0, |comp|) == |comp| ==>
      Closest(comp, number) == comp[|comp| - 1] - number && Closest(comp, number) < 0
  {
  }

  /** The contract of `Closest` determines its result: any offset to an element of
      `comp` that is nearest, and highest among the nearest, is the one returned. */
  lemma ClosestIsUnique(comp: seq<int>, number: int, d: int)
    requires |comp| > 0 && SortedBy(comp, IntLe)
    requires number + d in comp
    requires forall y :: y in comp ==> Abs(d) <= Abs(y - number)
    requires forall y :: y in comp && Abs(y - number) == Abs(d) ==> y - number <= d
    ensures Closest(comp, number) == d
  {
    var c := Closest(comp, number);
    assert Abs(c) <= Abs(d) && Abs(d) <= Abs(c);
  }

  /** One line of a peak file, `chromosome:position`, already split. */
  datatype Peak = Peak(chrom: string, pos: int)

  /** The positions of the peaks on chromosome `c`, in file order. */
  function PositionsOn(peaks: seq<Peak>, c: string): (ps: seq<int>)
    ensures |ps| <= |peaks|
    ensures forall x :: x in ps ==> Peak(c, x) in peaks
    ensures forall p :: p in peaks && p.chrom == c ==> p.pos in ps
  {
    if peaks == [] then []
    else (if peaks[0].chrom == c then [peaks[0].pos] else []) + PositionsOn(peaks[1..], c)
  }

  /** The comprehension keeps repeats: each position occurs in `PositionsOn(peaks, c)` as
      often as a line on `c` with that position occurs in `peaks`. */
  lemma {:induction false} PositionsOnCounts(peaks: seq<Peak>, c: string)
    ensures forall x :: multiset(PositionsOn(peaks, c))[x] == multiset(peaks)[Peak(c, x)]
  {
    if peaks != [] {
      PositionsOnCounts(peaks[1..], c);
      assert peaks == [peaks[0]] + peaks[1..];
    }
  }

  ghost function ChromSet(peaks: seq<Peak>): set<string> {
    set p | p in peaks :: p.chrom
  }

  /** The chromosome of every line of a peak file, in file order. */
  function ChromsOf(peaks: seq<Peak>): (cs: seq<string>)
    ensures |cs| == |peaks|
    ensures forall i :: 0 <= i < |peaks| ==> cs[i] == peaks[i].chrom
  {
    if peaks == [] then [] else [peaks[0].chrom] + ChromsOf(peaks[1..])
  }

  /** `sorted(set(...))` of the comparison file's chromosomes. */
  function ChromList(comparison: seq<Peak>): (cs: seq<string>)
    ensures forall c :: c in cs <==> c in ChromsOf(comparison)
    ensures NoDuplicates(cs)
  {
    var names := Dedup(ChromsOf(comparison));
    SortPermutes(names, StrLe);
    SortKeepsDistinct(names, StrLe);
    assert forall c :: c in Sort(names, StrLe) <==> c in multiset(names);
    Sort(names, StrLe)
  }

  /** The chromosomes processed are exactly those of the comparison set, each once, in
      ascending order. */
  lemma ChromListIsSortedDistinct(comparison: seq<Peak>)
    ensures NoDuplicates(ChromList(comparison))
    ensures SortedBy(ChromList(comparison), StrLe)
    ensures forall c :: c in ChromList(comparison) <==> c in ChromSet(comparison)
  {
    var names := Dedup(ChromsOf(comparison));
    SortKeepsDistinct(names, StrLe);
    StrLeIsTotalPreorder();
    SortSorted(names, StrLe);
    SortPermutes(names, StrLe);
    forall c ensures c in ChromList(comparison) <==> c in ChromSet(comparison) {
      assert c in ChromList(comparison) <==> c in multiset(names);
      if c in ChromsOf(comparison) {
        var i :| 0 <= i < |comparison| && ChromsOf(comparison)[i] == c;
        assert comparison[i] in comparison;
      }
      if c in ChromSet(comparison) {
        var p :| p in comparison && p.chrom == c;
        var i :| 0 <= i < |comparison| && comparison[i] == p;
        assert ChromsOf(comparison)[i] == c;
      }
    }
  }

  /** A chromosome of the comparison set has at least one comparison position. */
  lemma {:induction false} PositionsOnNonEmpty(peaks: seq<Peak>, c: string)
    ensures c in ChromSet(peaks) ==> PositionsOn(peaks, c) != []
  {
    if c in ChromSet(peaks) && peaks[0].chrom != c {
      var p :| p in peaks && p.chrom == c;
      assert p in peaks[1..];
      PositionsOnNonEmpty(peaks[1..], c);
    }
  }

  /** The comparison positions on `c`, sorted: `PEAKS_2[c]`. */
  function SortedPositions(peaks: seq<Peak>, c: string): (ps: seq<int>)
    ensures |ps| == |PositionsOn(peaks, c)|
    ensures SortedBy(ps, IntLe)
    ensures c in ChromSet(peaks) ==> |ps| > 0
  {
    PositionsOnNonEmpty(peaks, c);
    IntLeIsTotalPreorder();
    SortSorted(PositionsOn(peaks, c), IntLe);
    Sort(PositionsOn(peaks, c), IntLe)
  }

  /** The signed offset from a baseline peak to its nearest comparison peak on the same
      chromosome. */
  ghost function OffsetOf(comparison: seq<Peak>, p: Peak): int
    requires p.chrom in ChromSet(comparison)
  {
    Closest(SortedPositions(comparison, p.chrom), p.pos)
  }

  /** `PEAKS_2[c]` holds the positions of the comparison peaks on `c`, each as often as
      it occurs. */
  lemma SortedPositionsContents(peaks: seq<Peak>, c: string)
    ensures forall x :: multiset(SortedPositions(peaks, c))[x] == multiset(peaks)[Peak(c, x)]
    ensures forall x :: x in SortedPositions(peaks, c) <==> Peak(c, x) in peaks
  {
    SortPermutes(PositionsOn(peaks, c), IntLe);
    PositionsOnCounts(peaks, c);
  }

  /** `OffsetOf` leads from a baseline peak to a comparison peak on the same chromosome;
      no comparison peak on that chromosome is nearer; of two equally near ones the
      higher is chosen. */
  lemma OffsetIsNearest(comparison: seq<Peak>, p: Peak)
    requires p.chrom in ChromSet(comparison)
    ensures Peak(p.chrom, p.pos + OffsetOf(comparison, p)) in comparison
    ensures forall q :: q in comparison && q.chrom == p.chrom ==> Abs(OffsetOf(comparison, p)) <= Abs(q.pos - p.pos)
    ensures forall q :: q in comparison && q.chrom == p.chrom && Abs(q.pos - p.pos) == Abs(OffsetOf(comparison, p)) ==>
      q.pos - p.pos <= OffsetOf(comparison, p)
  {
    var comp := SortedPositions(comparison, p.chrom);
    SortedPositionsContents(comparison, p.chrom);
    forall q | q in comparison && q.chrom == p.chrom ensures q.pos in comp {
      assert Peak(p.chrom, q.pos) == q;
    }
  }

  /** 1 when baseline peak `p` is on a chromosome of the comparison set and its nearest
      offset is `d`, else 0. */
  ghost function Hit(comparison: seq<Peak>, p: Peak, d: int): nat {
    if p.chrom in ChromSet(comparison) && OffsetOf(comparison, p) == d then 1 else 0
  }

  /** The reference count for offset `d`: the baseline peaks, in file order, on a
      chromosome of the comparison set whose nearest comparison peak is at offset `d`. */
  ghost function Matched(baseline: seq<Peak>, comparison: seq<Peak>, d: int): nat {
    if baseline == [] then 0 else Hit(comparison, baseline[0], d) + Matched(baseline[1..], comparison, d)
  }

  /** The same count restricted to baseline peaks on one of the chromosomes `cs`. */
  ghost function MatchedAmong(baseline: seq<Peak>, comparison: seq<Peak>, cs: seq<string>, d: int): nat {
    if baseline == [] then 0
    else
      (if baseline[0].chrom in cs then Hit(comparison, baseline[0], d) else 0)
        + MatchedAmong(baseline[1..], comparison, cs, d)
  }

  /** The predicate "nearest offset in `comp` is `d`" on baseline positions. */
  function HasOffset(comp: seq<int>, d: int): int -> bool
    requires |comp| > 0 && SortedBy(comp, IntLe)
  {
    x => Closest(comp, x) == d
  }

  /** Adding one more chromosome `c` adds the count over its baseline positions. */
  lemma {:induction false} MatchedAmongAppend(baseline: seq<Peak>, comparison: seq<Peak>, cs: seq<string>, c: string, d: int)
    requires c !in cs && c in ChromSet(comparison)
    ensures MatchedAmong(baseline, comparison, cs + [c], d)
      == MatchedAmong(baseline, comparison, cs, d) + Count(PositionsOn(baseline, c), HasOffset(SortedPositions(comparison, c), d))
  {
    if baseline != [] {
      var p, rest := baseline[0], baseline[1..];
      var h := HasOffset(SortedPositions(comparison, c), d);
      MatchedAmongAppend(rest, comparison, cs, c, d);
      if p.chrom == c {
        var ps := PositionsOn(baseline, c);
        assert ps == [p.pos] + PositionsOn(rest, c);
        CountHead(ps, h);
        HitOnChromosome(comparison, p, d);
      } else {
        assert PositionsOn(baseline, c) == PositionsOn(rest, c);
      }
    }
  }

  lemma CountHead(s: seq<int>, p: int -> bool)
    requires s != []
    ensures Count(s, p) == (if p(s[0]) then 1 else 0) + Count(s[1..], p)
  {
  }

  lemma HitOnChromosome(comparison: seq<Peak>, p: Peak, d: int)
    requires p.chrom in ChromSet(comparison)
    ensures Hit(comparison, p, d) == (if HasOffset(SortedPositions(comparison, p.chrom), d)(p.pos) then 1 else 0)
  {
  }

  lemma {:induction false} MatchedAmongNone(baseline: seq<Peak>, comparison: seq<Peak>, d: int)
    ensures MatchedAmong(baseline, comparison, [], d) == 0
  {
    if baseline != [] {
      MatchedAmongNone(baseline[1..], comparison, d);
    }
  }

  /** With every chromosome of the comparison set listed, the restricted count is the
      reference count. */
  lemma {:induction false} MatchedAmongAll(baseline: seq<Peak>, comparison: seq<Peak>, cs: seq<string>, d: int)
    requires forall c :: c in cs <==> c in ChromSet(comparison)
    ensures MatchedAmong(baseline, comparison, cs, d) == Matched(baseline, comparison, d)
  {
    if baseline != [] {
      MatchedAmongAll(baseline[1..], comparison, cs, d);
    }
  }

  lemma {:induction false} CountSnoc(s: seq<int>, x: int, p: int -> bool)
    ensures Count(s + [x], p) == Count(s, p) + (if p(x) then 1 else 0)
  {
    CountAppend(s, [x], p);
  }

  /** The offsets that are counted: -500 to 500. */
  predicate InRange(d: int) {
    -500 <= d <= 500
  }

  /** `occs = {i: 0 for i in range(-500, 501)}`. */
  method ZeroCounts() returns (occs: map<int, nat>)
    ensures forall d :: d in occs <==> InRange(d)
    ensures forall d :: d in occs ==> occs[d] == 0
  {
    occs := map[];
    for i := -500 to 501
      invariant forall d :: d in occs <==> -500 <= d < i
      invariant forall d :: d in occs ==> occs[d] == 0
    {
      occs := occs[i := 0];
    }
  }

  /** The body of the chromosome loop for chromosome `c`: for every sorted baseline
      position on `c`, the nearest offset among the sorted comparison positions on `c`
      is counted when it lies in -500 to 500. Each count grows by the number of
      baseline positions on `c` at that offset. */
  method CountChromosome(occs: map<int, nat>, baseline: seq<Peak>, comparison: seq<Peak>, c: string)
    returns (occs': map<int, nat>)
    requires c in ChromSet(comparison)
    requires forall d :: d in occs <==> InRange(d)
    ensures forall d :: d in occs' <==> InRange(d)
    ensures forall d :: InRange(d) ==>
      occs'[d] == occs[d] + Count(PositionsOn(baseline, c), HasOffset(SortedPositions(comparison, c), d))
  {
    var peaks1 := Sort(PositionsOn(baseline, c), IntLe);
    var peaks2 := SortedPositions(comparison, c);
    occs' := occs;
    for j := 0 to |peaks1|
      invariant forall d :: d in occs' <==> InRange(d)
      invariant forall d :: InRange(d) ==> occs'[d] == occs[d] + Count(peaks1[..j], HasOffset(peaks2, d))
    {
      var diff := Closest(peaks2, peaks1[j]);
      if -500 <= diff <= 500 {
        occs' := occs'[diff := occs'[diff] + 1];
      }
      assert peaks1[..j + 1] == peaks1[..j] + [peaks1[j]];
      forall d | InRange(d)
        ensures Count(peaks1[..j + 1], HasOffset(peaks2, d)) == Count(peaks1[..j], HasOffset(peaks2, d)) + (if diff == d then 1 else 0)
      {
        CountSnoc(peaks1[..j], peaks1[j], HasOffset(peaks2, d));
      }
    }
    assert peaks1[..|peaks1|] == peaks1;
    forall d | InRange(d) ensures Count(peaks1, HasOffset(peaks2, d)) == Count(PositionsOn(baseline, c), HasOffset(peaks2, d)) {
      CountSort(PositionsOn(baseline, c), IntLe, HasOffset(peaks2, d));
    }
  }

  /** The printed lines `offset count`, in ascending offset order. */
  method Lines(occs: map<int, nat>) returns (lines: seq<(int, nat)>)
    requires forall d :: InRange(d) ==> d in occs
    ensures |lines| == 1001
    ensures forall k :: 0 <= k < |lines| ==> InRange(k - 500) && lines[k] == (k - 500, occs[k - 500])
  {
    lines := [];
    for i := -500 to 501
      invariant |lines| == i + 500
      invariant forall k :: 0 <= k < |lines| ==> InRange(k - 500) && lines[k] == (k - 500, occs[k - 500])
    {
      lines := lines + [(i, occs[i])];
    }
  }

  /** The histogram script: for each chromosome of the comparison file, in sorted order,
      counts the nearest offset of every baseline peak on it; returns the counts and the
      printed lines. Each count is the reference count `Matched`. */
  method Histogram(baseline: seq<Peak>, comparison: seq<Peak>) returns (occs: map<int, nat>, lines: seq<(int, nat)>)
    ensures forall d :: d in occs <==> InRange(d)
    ensures forall d :: InRange(d) ==> occs[d] == Matched(baseline, comparison, d)
    ensures |lines| == 1001
    ensures forall k :: 0 <= k < |lines| ==> lines[k] == (k - 500, Matched(baseline, comparison, k - 500))
  {
    var chroms := ChromList(comparison);
    ChromListIsSortedDistinct(comparison);
    occs := ZeroCounts();
    forall d | InRange(d) ensures occs[d] == MatchedAmong(baseline, comparison, chroms[..0], d) {
      MatchedAmongNone(baseline, comparison, d);
    }
    for ci := 0 to |chroms|
      invariant forall d :: d in occs <==> InRange(d)
      invariant forall d :: InRange(d) ==> occs[d] == MatchedAmong(baseline, comparison, chroms[..ci], d)
    {
      var c := chroms[ci];
      ghost var before := occs;
      occs := CountChromosome(occs, baseline, comparison, c);
      assert chroms[..ci + 1] == chroms[..ci] + [c];
      assert forall k :: 0 <= k < ci ==> chroms[k] != chroms[ci];
      assert c !in chroms[..ci];
      forall d | InRange(d) ensures occs[d] == MatchedAmong(baseline, comparison, chroms[..ci + 1], d) {
        MatchedAmongAppend(baseline, comparison, chroms[..ci], c, d);
      }
    }
    assert chroms[..|chroms|] == chroms;
    forall d | InRange(d) ensures occs[d] == Matched(baseline, comparison, d) {
      MatchedAmongAll(baseline, comparison, chroms, d);
    }
    lines := Lines(occs);
  }

  /** The sum of the counts for offsets `lo` to `lo + n - 1`. */
  ghost function SumMatched(baseline: seq<Peak>, comparison: seq<Peak>, lo: int, n: nat): nat {
    if n == 0 then 0 else SumMatched(baseline, comparison, lo, n - 1) + Matched(baseline, comparison, lo + n - 1)
  }

  /** The baseline peaks on a chromosome of the comparison set whose nearest offset lies
      in `lo` to `lo + n - 1`. */
  ghost function InWindow(baseline: seq<Peak>, comparison: seq<Peak>, lo: int, n: nat): nat {
    if baseline == [] then 0
    else
      var p := baseline[0];
      (if p.chrom in ChromSet(comparison) && lo <= OffsetOf(comparison, p) < lo + n then 1 else 0)
        + InWindow(baseline[1..], comparison, lo, n)
  }

  /** The baseline peaks on a chromosome of the comparison set. */
  ghost function Processed(baseline: seq<Peak>, comparison: seq<Peak>): nat {
    if baseline == [] then 0
    else (if baseline[0].chrom in ChromSet(comparison) then 1 else 0) + Processed(baseline[1..], comparison)
  }

  lemma {:induction false} SumMatchedSplit(baseline: seq<Peak>, comparison: seq<Peak>, lo: int, n: nat)
    requires baseline != []
    ensures SumMatched(baseline, comparison, lo, n)
      == InWindow([baseline[0]], comparison, lo, n) + SumMatched(baseline[1..], comparison, lo, n)
  {
    if n > 0 {
      SumMatchedSplit(baseline, comparison, lo, n - 1);
    }
  }

  /** Each baseline peak adds to at most one offset: the counts over a range of offsets
      add up to the number of processed baseline peaks whose offset is in that range. */
  lemma {:induction false} SumMatchedIsInWindow(baseline: seq<Peak>, comparison: seq<Peak>, lo: int, n: nat)
    ensures SumMatched(baseline, comparison, lo, n) == InWindow(baseline, comparison, lo, n)
  {
    if baseline == [] {
      if n > 0 {
        SumMatchedIsInWindow(baseline, comparison, lo, n - 1);
      }
    } else {
      SumMatchedSplit(baseline, comparison, lo, n);
      SumMatchedIsInWindow(baseline[1..], comparison, lo, n);
    }
  }

  lemma {:induction false} InWindowAtMostProcessed(baseline: seq<Peak>, comparison: seq<Peak>, lo: int, n: nat)
    ensures InWindow(baseline, comparison, lo, n) <= Processed(baseline, comparison)
  {
    if baseline != [] {
      InWindowAtMostProcessed(baseline[1..], comparison, lo, n);
    }
  }

  /** The whole histogram counts at most one entry per baseline peak on a chromosome of
      the comparison set. */
  lemma HistogramTotalBounded(baseline: seq<Peak>, comparison: seq<Peak>)
    ensures SumMatched(baseline, comparison, -500, 1001) <= Processed(baseline, comparison)
  {
    SumMatchedIsInWindow(baseline, comparison, -500, 1001);
    InWindowAtMostProcessed(baseline, comparison, -500, 1001);
  }

  /** Baseline peaks on chromosomes that the comparison set lacks change no count. */
  lemma {:induction false} BaselineOnlyChromosomesIgnored(baseline: seq<Peak>, extra: seq<Peak>, comparison: seq<Peak>, d: int)
    requires forall p :: p in extra ==> p.chrom !in ChromSet(comparison)
    ensures Matched(baseline + extra, comparison, d) == Matched(baseline, comparison, d)
  {
    if baseline == [] {
      assert baseline + extra == extra;
      ExtraMatchesNothing(extra, comparison, d);
    } else {
      assert (baseline + extra)[1..] == baseline[1..] + extra;
      BaselineOnlyChromosomesIgnored(baseline[1..], extra, comparison, d);
    }
  }

  lemma {:induction false} ExtraMatchesNothing(extra: seq<Peak>, comparison: seq<Peak>, d: int)
    requires forall p :: p in extra ==> p.chrom !in ChromSet(comparison)
    ensures Matched(extra, comparison, d) == 0
  {
    if extra != [] {
      assert extra[0] in extra;
      ExtraMatchesNothing(extra[1..], comparison, d);
    }
  }
}
