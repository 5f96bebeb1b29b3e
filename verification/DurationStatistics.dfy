/** The descriptive duration statistics of a review: scripts/browser-test-evidence-review.js, lines 99-130. */
module DurationStatistics {
  import opened Common
  import opened StableSort
  import opened EvidenceReview

  /** The number of durations that a nearest-rank 95th percentile has to cover: 19/20 of n, rounded up. */
  function Rank95(n: nat): nat {
    (19 * n + 19) / 20
  }

  function NearestRank95(values: seq<int>): int
    requires values != []
  {
    SortNumbersSorts(values);
    var sorted := SortNumbers(values);
    sorted[if Rank95(|sorted|) >= 1 then Rank95(|sorted|) - 1 else 0]
  }

  function Median(values: seq<int>): real
    requires values != []
  {
    SortNumbersSorts(values);
    var sorted := SortNumbers(values);
    var middle := |sorted| / 2;
    if |sorted| % 2 == 0 then (sorted[middle - 1] + sorted[middle]) as real / 2.0
    else sorted[middle] as real
  }

  function Maximum(values: seq<int>): (m: int)
    requires values != []
    ensures m in values && forall v | v in values :: v <= m
  {
    if |values| == 1 then values[0]
    else
      var m := Maximum(values[1..]);
      assert values == [values[0]] + values[1..];
      if values[0] > m then values[0] else m
  }

  function Minimum(values: seq<int>): (m: int)
    requires values != []
    ensures m in values && forall v | v in values :: m <= v
  {
    if |values| == 1 then values[0]
    else
      var m := Minimum(values[1..]);
      assert values == [values[0]] + values[1..];
      if values[0] < m then values[0] else m
  }

  datatype DurationSummary = DurationSummary(maximum: int, median: real, minimum: int, p95: int)

  function Durations(samples: seq<Sample>): seq<int> {
    var evidenced := Filter(samples, (s: Sample) => s.evidence.Some?);
    Map(evidenced, (s: Sample) => if s.evidence.Some? then s.evidence.value.durationMs else 0)
  }

  function SummarizeDurations(samples: seq<Sample>): Option<DurationSummary> {
    var durations := Durations(samples);
    if durations == [] then None
    else Some(DurationSummary(Maximum(durations), Median(durations), Minimum(durations), NearestRank95(durations)))
  }

  /** How many of the values satisfy the condition. */
  function Count(values: seq<int>, condition: int -> bool): nat {
    if values == [] then 0 else (if condition(values[0]) then 1 else 0) + Count(values[1..], condition)
  }

  lemma CountFilters(values: seq<int>, condition: int -> bool)
    ensures Count(values, condition) == |Filter(values, condition)|
  {
  }

  lemma CountAppend(a: seq<int>, b: seq<int>, condition: int -> bool)
    ensures Count(a + b, condition) == Count(a, condition) + Count(b, condition)
  {
    if a == [] {
      assert a + b == b;
    } else {
      assert (a + b)[1..] == a[1..] + b;
    }
  }

  function UpTo(x: real): int -> bool {
    v => v as real <= x
  }

  function Under(x: real): int -> bool {
    v => v as real < x
  }

  function From(x: real): int -> bool {
    v => v as real >= x
  }

  lemma CountPermutes(a: seq<int>, b: seq<int>, condition: int -> bool)
    requires multiset(a) == multiset(b)
    ensures Count(a, condition) == Count(b, condition)
  {
    CountFilters(a, condition);
    CountFilters(b, condition);
    FilterCounts(a, condition);
    FilterCounts(b, condition);
    assert multiset(Filter(a, condition)) == multiset(Filter(b, condition));
    SameElements(Filter(a, condition), Filter(b, condition));
  }

  lemma CountBounds(values: seq<int>, condition: int -> bool)
    ensures Count(values, condition) <= |values|
    ensures (forall i | 0 <= i < |values| :: condition(values[i])) ==> Count(values, condition) == |values|
    ensures (forall i | 0 <= i < |values| :: !condition(values[i])) ==> Count(values, condition) == 0
  {
  }

  // Conditions that hold of a prefix, or of a suffix, or of nothing outside a prefix.

  lemma CountPrefix(values: seq<int>, k: nat, condition: int -> bool)
    requires k <= |values| && forall i | 0 <= i < k :: condition(values[i])
    ensures Count(values, condition) >= k
  {
    assert values == values[..k] + values[k..];
    CountAppend(values[..k], values[k..], condition);
    CountBounds(values[..k], condition);
  }

  lemma CountSuffix(values: seq<int>, k: nat, condition: int -> bool)
    requires k <= |values| && forall i | k <= i < |values| :: condition(values[i])
    ensures Count(values, condition) >= |values| - k
  {
    assert values == values[..k] + values[k..];
    CountAppend(values[..k], values[k..], condition);
    CountBounds(values[k..], condition);
  }

  lemma CountWithin(values: seq<int>, k: nat, condition: int -> bool)
    requires k <= |values| && forall i | k <= i < |values| :: !condition(values[i])
    ensures Count(values, condition) <= k
  {
    assert values == values[..k] + values[k..];
    CountAppend(values[..k], values[k..], condition);
    CountBounds(values[..k], condition);
    CountBounds(values[k..], condition);
  }

  // What counting says about a position in sorted order.
  lemma CountAtPosition(values: seq<int>, i: nat)
    requires i < |values|
    ensures |SortNumbers(values)| == |values|
    ensures var x := SortNumbers(values)[i] as real;
      Count(values, UpTo(x)) > i >= Count(values, Under(x)) && Count(values, From(x)) >= |values| - i
  {
    SortNumbersSorts(values);
    var sorted := SortNumbers(values);
    var x := sorted[i] as real;
    CountPrefix(sorted, i + 1, UpTo(x));
    CountWithin(sorted, i, Under(x));
    CountSuffix(sorted, i, From(x));
    CountPermutes(sorted, values, UpTo(x));
    CountPermutes(sorted, values, Under(x));
    CountPermutes(sorted, values, From(x));
  }

  lemma CountMonotonic(values: seq<int>, c: int -> bool, d: int -> bool)
    requires forall v | c(v) :: d(v)
    ensures Count(values, c) <= Count(values, d)
  {
    if values != [] {
      CountMonotonic(values[1..], c, d);
    }
  }

  /** The reported p95 is a measured duration covering 95% of them, and no smaller duration does. */
  lemma NearestRankExact(values: seq<int>)
    requires values != []
    ensures NearestRank95(values) in values
    ensures var p95 := NearestRank95(values) as real;
      Count(values, UpTo(p95)) >= Rank95(|values|) > Count(values, Under(p95))
    ensures 19 * |values| <= 20 * Rank95(|values|) < 19 * |values| + 20
  {
    SortNumbersSorts(values);
    CountAtPosition(values, Rank95(|values|) - 1);
  }

  /** Half of the durations lie at or below the median, and half at or above it. */
  lemma MedianExact(values: seq<int>)
    requires values != []
    ensures 2 * Count(values, UpTo(Median(values))) >= |values|
    ensures 2 * Count(values, From(Median(values))) >= |values|
  {
    SortNumbersSorts(values);
    var sorted, median, middle := SortNumbers(values), Median(values), |values| / 2;
    CountAtPosition(values, middle);
    CountMonotonic(values, From(sorted[middle] as real), From(median));
    if |values| % 2 == 0 {
      CountAtPosition(values, middle - 1);
      CountMonotonic(values, UpTo(sorted[middle - 1] as real), UpTo(median));
    }
  }

  lemma StatisticsOrdered(values: seq<int>)
    requires values != []
    ensures Minimum(values) as real <= Median(values) <= NearestRank95(values) as real <= Maximum(values) as real
  {
    SortNumbersSorts(values);
    var sorted, middle, index := SortNumbers(values), |values| / 2, Rank95(|values|) - 1;
    assert middle <= index;
    assert sorted[0] in values && sorted[index] in values;
    assert sorted[0] <= sorted[middle] <= sorted[index];
    if |sorted| % 2 == 0 {
      assert sorted[0] <= sorted[middle - 1] <= sorted[middle];
    }
  }

  /**
   The four statistics come in order, whatever the samples; they are missing only when there is nothing to measure.
   */
  lemma SummaryOrdered(samples: seq<Sample>)
    ensures SummarizeDurations(samples).None? <==> forall s | s in samples :: s.evidence.None?
    ensures var summary := SummarizeDurations(samples);
      summary.Some? ==>
        summary.value.minimum as real <= summary.value.median <= summary.value.p95 as real
          <= summary.value.maximum as real
  {
    var measured := Filter(samples, (s: Sample) => s.evidence.Some?);
    if measured != [] {
      assert measured[0] in measured;
      StatisticsOrdered(Durations(samples));
    }
  }

  /** The durations of the samples that have evidence, in the order of the samples. */
  function Measured(samples: seq<Sample>): seq<int> {
    if samples == [] then []
    else
      var last := samples[|samples| - 1];
      Measured(samples[..|samples| - 1]) + match last.evidence { case None => [] case Some(e) => [e.durationMs] }
  }

  lemma {:induction false} MeasuredExact(samples: seq<Sample>)
    ensures Durations(samples) == Measured(samples)
  {
    if samples != [] {
      var init, last := samples[..|samples| - 1], samples[|samples| - 1];
      MeasuredExact(init);
      assert samples == init + [last];
      var evidenced := (s: Sample) => s.evidence.Some?;
      FilterAppend(init, [last], evidenced);
      assert [last][1..] == [];
      assert Filter([last], evidenced) == if evidenced(last) then [last] else [];
    }
  }

  /** These values in ascending order. */
  ghost predicate Ascending(p: seq<int>, values: seq<int>) {
    multiset(p) == multiset(values) && forall i, j | 0 <= i <= j < |p| :: p[i] <= p[j]
  }

  lemma AscendingUnique(p: seq<int>, values: seq<int>)
    requires Ascending(p, values)
    ensures p == SortNumbers(values)
  {
    SortNumbersPermutes(p, values);
    SortFixpoint(p, NumberKey);
  }

  lemma EndsAt(p: seq<int>, values: seq<int>)
    requires Ascending(p, values) && values != []
    ensures p != [] && Minimum(values) == p[0] && Maximum(values) == p[|p| - 1]
  {
    SameElements(p, values);
    assert p[0] in values && p[|p| - 1] in values;
    assert Minimum(values) in p && Maximum(values) in p;
  }

  lemma MedianAt(p: seq<int>, values: seq<int>)
    requires Ascending(p, values) && values != []
    ensures p != [] && if |p| % 2 == 1 then Median(values) == p[(|p| - 1) / 2] as real
      else Median(values) + Median(values) == (p[|p| / 2 - 1] + p[|p| / 2]) as real
  {
    AscendingUnique(p, values);
    SortNumbersSorts(values);
    hide SortNumbers;
  }

  lemma RankAt(p: seq<int>, values: seq<int>, k: nat)
    requires Ascending(p, values) && values != [] && 1 <= k <= |p| && 19 * |p| <= 20 * k < 19 * |p| + 20
    ensures NearestRank95(values) == p[k - 1]
  {
    AscendingUnique(p, values);
    SortNumbersSorts(values);
    hide SortNumbers;
    assert Rank95(|p|) == k;
  }

  /**
   The summary of the durations as they stand in the samples: the ends of the ascending list, its middle or the mean
   of its two middles, and its first value with nineteen twentieths of the list up to it.
   */
  lemma SummaryExact(samples: seq<Sample>, p: seq<int>)
    requires Ascending(p, Measured(samples))
    ensures p == [] <==> SummarizeDurations(samples).None?
    ensures p != [] ==>
      var summary, n := SummarizeDurations(samples).value, |p|;
      && summary.minimum == p[0] && summary.maximum == p[n - 1]
      && (n % 2 == 1 ==> summary.median == p[(n - 1) / 2] as real)
      && (n % 2 == 0 ==> summary.median + summary.median == (p[n / 2 - 1] + p[n / 2]) as real)
      && forall k | 1 <= k <= n && 19 * n <= 20 * k < 19 * n + 20 :: summary.p95 == p[k - 1]
  {
    MeasuredExact(samples);
    var durations := Durations(samples);
    AscendingUnique(p, durations);
    SortNumbersSorts(durations);
    hide Ascending, Measured, Durations, Median, Minimum, Maximum, NearestRank95, SortNumbers;
    if durations != [] {
      EndsAt(p, durations);
      MedianAt(p, durations);
      forall k | 1 <= k <= |p| && 19 * |p| <= 20 * k < 19 * |p| + 20
        ensures NearestRank95(durations) == p[k - 1]
      {
        RankAt(p, durations, k);
      }
    }
  }

  /** The statistics do not depend on the order of the durations. */
  lemma StatisticsPermute(a: seq<int>, b: seq<int>)
    requires a != [] && multiset(a) == multiset(b)
    ensures b != [] && Median(a) == Median(b) && NearestRank95(a) == NearestRank95(b)
  {
    SameElements(a, b);
    SortNumbersPermutes(a, b);
  }

  datatype Review = Review(
    status: ReviewStatus,
    findings: seq<Finding>,
    durations: Option<DurationSummary>,
    sampleCount: nat,
    generatedAt: Stamp)

  /** The whole review: it refuses unusable input, and otherwise its findings and verdict are exact. */
  method CreateReview(generatedAt: Stamp, samples: seq<Sample>, schemaVersion: int) returns (r: Result<Review>)
    ensures r.Ok? <==>
      && schemaVersion in {1, 2} && ValidInput(samples) && (forall s | s in samples :: SchemaAllows(s, schemaVersion))
      && IsoForm(generatedAt.text) && generatedAt.readable
    ensures r.Ok? ==> r.value.generatedAt == generatedAt
    ensures r.Ok? ==> Accurate(r.value.findings, samples) && r.value.sampleCount == |samples|
    ensures r.Ok? ==> (r.value.status == BaselineConfirmed <==> |samples| == REQUIRED_SAMPLE_COUNT && Flawless(samples))
    ensures r.Ok? ==> (r.value.status == Incomplete <==> |samples| < REQUIRED_SAMPLE_COUNT && Flawless(samples))
    ensures r.Ok? ==> r.value.durations == SummarizeDurations(samples)
  {
    var input := CreateReviewInput(samples, schemaVersion);
    if input.Rejected? {
      return Rejected;
    }
    if !IsoForm(generatedAt.text) || !generatedAt.readable {
      return Rejected;
    }
    var findings := CreateFindings(input.value);
    VerdictExact(samples, findings);
    var durations := SummarizeDurations(input.value);
    return Ok(Review(GetReviewStatus(findings), findings, durations, |input.value|, generatedAt));
  }
}
