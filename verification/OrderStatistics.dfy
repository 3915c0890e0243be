/** The benchmark's summary of a run: median, quartiles and 95th percentile of sorted samples. */
module OrderStatistics {
  import opened Prelude
  import OrderedSort

  // ----- sorting -----

  ghost predicate Ascending(s: seq<real>) { forall i, j | 0 <= i < j < |s| :: s[i] <= s[j] }

  function AtMost(): (real, real) -> bool { (x, y) => x <= y }

  function Sort(s: seq<real>): seq<real> { OrderedSort.Sort(s, AtMost()) }

  /** How many samples do not exceed `v`. */
  function CountLe(s: seq<real>, v: real): nat {
    if s == [] then 0 else CountLe(s[..|s| - 1], v) + (if s[|s| - 1] <= v then 1 else 0)
  }

  lemma SortAscends(s: seq<real>)
    ensures Ascending(Sort(s)) && multiset(Sort(s)) == multiset(s) && |Sort(s)| == |s|
  {
    hide OrderedSort.Sort;
    OrderedSort.SortSorts(s, AtMost());
    var r := Sort(s);
    forall i, j | 0 <= i < j < |r| ensures r[i] <= r[j] {
      assert AtMost()(r[i], r[j]);
    }
  }

  lemma {:induction false} InsertCounts(x: real, s: seq<real>, v: real)
    ensures CountLe(OrderedSort.Insert(x, s, AtMost()), v) == CountLe(s, v) + (if x <= v then 1 else 0)
  {
    if s == [] || s[|s| - 1] <= x {
      assert (s + [x])[..|s|] == s;
    } else {
      var front := s[..|s| - 1];
      var r := OrderedSort.Insert(x, front, AtMost());
      InsertCounts(x, front, v);
      assert (r + [s[|s| - 1]])[..|r|] == r;
    }
  }

  lemma {:induction false} SortCounts(s: seq<real>, v: real)
    ensures CountLe(Sort(s), v) == CountLe(s, v)
  {
    if s != [] {
      SortCounts(s[..|s| - 1], v);
      InsertCounts(s[|s| - 1], Sort(s[..|s| - 1]), v);
    }
  }

  // ----- the summary -----

  function Median(s: seq<real>): real
    requires s != []
  {
    if |s| % 2 == 1 then s[|s| / 2] else (s[|s| / 2 - 1] + s[|s| / 2]) / 2.0
  }

  function P95Index(n: nat): int { 95 * n / 100 - 1 }

  /** Before rounding to four decimals. */
  datatype Summary = Summary(median: real, p95: real, iqr: real, iterations: nat)

  function Q1(s: seq<real>): real
    requires |s| >= 2
  {
    Median(s[..|s| / 2])
  }

  function Q3(s: seq<real>): real
    requires |s| >= 2
  {
    Median(s[(|s| + 1) / 2..])
  }

  /** `elapsed(k)` is the duration of the k-th timed call, already in milliseconds. With fewer than two
    * iterations a half is empty and its median raises: None.
    */
  method Measure(elapsed: nat -> real, iterations: nat) returns (r: Option<Summary>)
    ensures r.Some? <==> iterations >= 2
    ensures iterations >= 2 ==>
              var s := Sort(seq(iterations, (k: nat) => elapsed(k)));
              && |s| == iterations && 0 <= P95Index(iterations) < iterations
              && r.value == Summary(Median(s), s[P95Index(iterations)], Q3(s) - Q1(s), iterations)
  {
    var samples: seq<real> := [];
    for k := 0 to iterations
      invariant samples == seq(k, (j: nat) => elapsed(j))
    {
      samples := samples + [elapsed(k)];
    }
    SortAscends(samples);
    samples := Sort(samples);
    if iterations < 2 {
      return None;
    }
    r := Some(Summary(Median(samples), samples[P95Index(iterations)], Q3(samples) - Q1(samples), iterations));
  }

  // ----- which samples the figures are -----

  /** The reported sample is number `floor(0.95 n)`, counted from one. */
  lemma P95IsAtRank(n: nat)
    ensures var rank := P95Index(n) + 1; 100 * rank <= 95 * n < 100 * (rank + 1)
  {
  }

  /** The middle sample, or the mean of the two middle ones. */
  lemma MedianIs(s: seq<real>, k: nat)
    ensures |s| == 2 * k + 1 ==> Median(s) == s[k]
    ensures |s| == 2 * k + 2 ==> Median(s) == (s[k] + s[k + 1]) / 2.0
  {
  }

  /** The quartiles are the medians of the halves below and above the middle, a middle sample belonging to neither. */
  lemma QuartilesAre(s: seq<real>, k: nat)
    requires k >= 1
    ensures |s| == 4 * k ==> Q1(s) == (s[k - 1] + s[k]) / 2.0 && Q3(s) == (s[3 * k - 1] + s[3 * k]) / 2.0
    ensures |s| == 4 * k + 1 ==> Q1(s) == (s[k - 1] + s[k]) / 2.0 && Q3(s) == (s[3 * k] + s[3 * k + 1]) / 2.0
    ensures |s| == 4 * k + 2 ==> Q1(s) == s[k] && Q3(s) == s[3 * k + 1]
    ensures |s| == 4 * k + 3 ==> Q1(s) == s[k] && Q3(s) == s[3 * k + 2]
  {
    if 4 * k <= |s| < 4 * k + 4 {
      var h := |s| / 2;
      var low, high := s[..h], s[|s| - h..];
      assert |s| - h == (|s| + 1) / 2;
      assert forall i | 0 <= i < h :: low[i] == s[i] && high[i] == s[|s| - h + i];
      if |s| < 4 * k + 2 {
        MedianIs(low, k - 1);
        MedianIs(high, k - 1);
      } else {
        MedianIs(low, k);
        MedianIs(high, k);
      }
    }
  }

  /** With two or three samples each half is one sample. */
  lemma SmallestQuartiles(s: seq<real>)
    requires 2 <= |s| <= 3
    ensures Q1(s) == s[0] && Q3(s) == s[|s| - 1]
  {
    var low, high := s[..|s| / 2], s[(|s| + 1) / 2..];
    assert low == [s[0]] && high == [s[|s| - 1]];
  }

  // ----- the figures come out in order -----

  lemma MedianWithin(s: seq<real>)
    requires Ascending(s) && s != []
    ensures s[(|s| - 1) / 2] <= Median(s) <= s[|s| / 2]
  {
  }

  lemma QuartileIndices(n: nat)
    requires n >= 6
    ensures 0 < n / 2 / 2 <= (n - 1) / 2 < n
    ensures n / 2 <= (n + 1) / 2 + (n / 2 - 1) / 2 < n
    ensures (n + 1) / 2 + n / 2 / 2 <= P95Index(n) < n
  {
  }

  lemma FirstQuartileWithin(s: seq<real>)
    requires Ascending(s) && |s| >= 6
    ensures Q1(s) <= s[(|s| - 1) / 2]
  {
    var low := s[..|s| / 2];
    QuartileIndices(|s|);
    MedianWithin(low);
    hide Median;
    assert low[|low| / 2] == s[|s| / 2 / 2];
  }

  lemma ThirdQuartileWithin(s: seq<real>)
    requires Ascending(s) && |s| >= 6
    ensures s[|s| / 2] <= Q3(s) <= s[P95Index(|s|)]
  {
    var n, high := |s|, s[(|s| + 1) / 2..];
    QuartileIndices(n);
    MedianWithin(high);
    hide Median, P95Index;
    assert |high| == n / 2;
    assert high[(n / 2 - 1) / 2] == s[(n + 1) / 2 + (n / 2 - 1) / 2];
    assert high[n / 2 / 2] == s[(n + 1) / 2 + n / 2 / 2];
  }

  /** Every index is in bounds and the figures are ordered, from six samples on. */
  lemma FiguresAreOrdered(s: seq<real>)
    requires Ascending(s) && |s| >= 6
    ensures 0 <= P95Index(|s|) < |s|
    ensures Q1(s) <= Median(s) <= Q3(s) <= s[P95Index(|s|)] <= s[|s| - 1]
  {
    QuartileIndices(|s|);
    MedianWithin(s);
    FirstQuartileWithin(s);
    ThirdQuartileWithin(s);
    hide Median, P95Index, Q1, Q3;
  }

  /** With two to five distinct samples the third quartile lies above the reported 95th percentile. */
  lemma TooFewSamples(s: seq<real>)
    requires 2 <= |s| < 6 && forall i, j | 0 <= i < j < |s| :: s[i] < s[j]
    ensures 0 <= P95Index(|s|) < |s| && Q3(s) > s[P95Index(|s|)]
  {
    var high := s[(|s| + 1) / 2..];
    assert forall k | 0 <= k < |high| :: high[k] == s[(|s| + 1) / 2 + k];
  }

  // ----- why the median: one wild sample moves it by at most one place -----

  lemma {:induction false} RankIff(s: seq<real>, k: nat, v: real)
    requires Ascending(s) && k < |s|
    ensures s[k] <= v <==> CountLe(s, v) >= k + 1
    ensures CountLe(s, v) <= |s|
    decreases |s|
  {
    var front, last := s[..|s| - 1], s[|s| - 1];
    if |s| > 1 {
      RankIff(front, if k < |front| then k else |front| - 1, v);
      if last <= v {
        RankIff(front, |front| - 1, v);
      }
    } else {
      assert front == [];
    }
  }

  lemma {:induction false} ReplaceCounts(s: seq<real>, i: nat, y: real, v: real)
    requires i < |s|
    ensures CountLe(s, v) - 1 <= CountLe(s[i := y], v) <= CountLe(s, v) + 1
  {
    var front := s[..|s| - 1];
    if i == |s| - 1 {
      assert s[i := y][..|s| - 1] == front;
    } else {
      assert s[i := y][..|s| - 1] == front[i := y];
      ReplaceCounts(front, i, y, v);
    }
  }

  /** After one sample is replaced by any value, every order statistic stays between the old neighbours. */
  lemma OrderStatisticsInterlace(s: seq<real>, i: nat, y: real, k: nat)
    requires i < |s| && k < |s|
    ensures |Sort(s)| == |Sort(s[i := y])| == |s|
    ensures k + 1 < |s| ==> Sort(s[i := y])[k] <= Sort(s)[k + 1]
    ensures k >= 1 ==> Sort(s)[k - 1] <= Sort(s[i := y])[k]
  {
    hide Sort, CountLe;
    var was, now := Sort(s), Sort(s[i := y]);
    SortAscends(s);
    SortAscends(s[i := y]);
    if k + 1 < |s| {
      var v := was[k + 1];
      RankIff(was, k + 1, v);
      SortCounts(s, v);
      SortCounts(s[i := y], v);
      ReplaceCounts(s, i, y, v);
      RankIff(now, k, v);
    }
    if k >= 1 {
      var v := now[k];
      RankIff(now, k, v);
      SortCounts(s, v);
      SortCounts(s[i := y], v);
      ReplaceCounts(s, i, y, v);
      RankIff(was, k - 1, v);
    }
  }

  /** MAIN RESULT: the median of the disturbed samples lies between the neighbours of the old median. */
  lemma MedianIsRobust(s: seq<real>, i: nat, y: real)
    requires i < |s| && |s| >= 4
    ensures var n, was := |s|, Sort(s);
            && |was| == n && Sort(s[i := y]) != []
            && var m := Median(Sort(s[i := y]));
               if n % 2 == 1 then was[n / 2 - 1] <= m <= was[n / 2 + 1]
               else (was[n / 2 - 2] + was[n / 2 - 1]) / 2.0 <= m <= (was[n / 2] + was[n / 2 + 1]) / 2.0
  {
    hide Sort;
    var n := |s|;
    OrderStatisticsInterlace(s, i, y, n / 2);
    OrderStatisticsInterlace(s, i, y, n / 2 - 1);
  }

  function Sum(s: seq<real>): real { if s == [] then 0.0 else Sum(s[..|s| - 1]) + s[|s| - 1] }

  lemma {:induction false} ReplaceSum(s: seq<real>, i: nat, y: real)
    requires i < |s|
    ensures Sum(s[i := y]) == Sum(s) - s[i] + y
  {
    if i == |s| - 1 {
      assert s[i := y][..|s| - 1] == s[..|s| - 1];
    } else {
      assert s[i := y][..|s| - 1] == s[..|s| - 1][i := y];
      ReplaceSum(s[..|s| - 1], i, y);
    }
  }

  /** The mean offers no such protection: one sample can put it anywhere. */
  lemma MeanIsNotRobust(s: seq<real>, i: nat, target: real) returns (y: real)
    requires i < |s|
    ensures Sum(s[i := y]) / |s| as real == target
  {
    y := target * |s| as real - Sum(s) + s[i];
    ReplaceSum(s, i, y);
    assert target * |s| as real / |s| as real == target;
  }
}
