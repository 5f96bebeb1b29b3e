/** Batches of timing samples and their summary: scripts/artist-detail-local-timing-batch-evidence.js. */
module TimingBatch {
  import opened Common
  import opened StableSort
  import opened TimingEvidence

  // ----- Interpolated percentiles -----

  function Ceiling(x: real): int {
    -((-x).Floor)
  }

  function Share(whole: real, fraction: real): real {
    whole * fraction
  }

  function Between(lower: int, upper: int, fraction: real): real {
    lower as real + Share((upper - lower) as real, fraction)
  }

  /** The value at a fractional position of a sorted list: linear between its two neighbours. */
  function Interpolate(sorted: seq<int>, offset: real): real
    requires 0.0 <= offset <= (|sorted| - 1) as real
  {
    var lower, upper := offset.Floor, Ceiling(offset);
    Between(sorted[lower], sorted[upper], offset - lower as real)
  }

  lemma ShareMonotone(whole: real, f: real, g: real)
    requires 0.0 <= whole && f <= g
    ensures Share(whole, f) <= Share(whole, g)
  {
    assert whole * (g - f) >= 0.0;
  }

  lemma ShareEnds(whole: real)
    ensures Share(whole, 0.0) == 0.0 && Share(whole, 1.0) == whole
  {
  }

  function Offset(n: nat, percentile: real): (offset: real)
    requires n > 0 && 0.0 <= percentile <= 1.0
    ensures 0.0 <= offset <= (n - 1) as real
  {
    ShareMonotone((n - 1) as real, 0.0, percentile);
    ShareMonotone((n - 1) as real, percentile, 1.0);
    ShareEnds((n - 1) as real);
    Share((n - 1) as real, percentile)
  }

  function InterpolatePercentile(sorted: seq<int>, percentile: real): int
    requires sorted != [] && 0.0 <= percentile <= 1.0
  {
    Round(Interpolate(sorted, Offset(|sorted|, percentile)))
  }

  datatype MetricSummary = MetricSummary(maximumMs: int, minimumMs: int, p50Ms: int, p95Ms: int)

  function CreateMetricSummary(values: seq<int>): MetricSummary
    requires values != []
  {
    SortNumbersSorts(values);
    var sorted := SortNumbers(values);
    MetricSummary(sorted[|sorted| - 1], sorted[0], InterpolatePercentile(sorted, 0.5),
      InterpolatePercentile(sorted, 0.95))
  }

  predicate Sorted(s: seq<int>) {
    forall i, j | 0 <= i <= j < |s| :: s[i] <= s[j]
  }

  lemma BetweenMonotone(lower: int, upper: int, f: real, g: real)
    requires lower <= upper && 0.0 <= f <= g <= 1.0
    ensures lower as real <= Between(lower, upper, f) <= Between(lower, upper, g) <= upper as real
  {
    hide Share;
    var d := (upper - lower) as real;
    ShareMonotone(d, 0.0, f);
    ShareMonotone(d, f, g);
    ShareMonotone(d, g, 1.0);
    ShareEnds(d);
    assert upper as real == lower as real + d;
  }

  lemma NextUp(x: real)
    ensures x.Floor as real <= x < x.Floor as real + 1.0
    ensures Ceiling(x) == if x == x.Floor as real then x.Floor else x.Floor + 1
  {
  }

  /** An interpolated value lies between its neighbours. */
  lemma InterpolationBetween(sorted: seq<int>, offset: real)
    requires Sorted(sorted) && 0.0 <= offset <= (|sorted| - 1) as real
    ensures 0 <= offset.Floor <= Ceiling(offset) < |sorted|
    ensures sorted[offset.Floor] as real <= Interpolate(sorted, offset) <= sorted[Ceiling(offset)] as real
  {
    hide Between;
    NextUp(offset);
    var f := offset - offset.Floor as real;
    BetweenMonotone(sorted[offset.Floor], sorted[Ceiling(offset)], f, f);
  }

  /** Further along a sorted list, interpolated values are no smaller. */
  lemma InterpolationMonotone(sorted: seq<int>, a: real, b: real)
    requires Sorted(sorted) && 0.0 <= a <= b <= (|sorted| - 1) as real
    ensures Interpolate(sorted, a) <= Interpolate(sorted, b)
  {
    hide Between;
    InterpolationBetween(sorted, a);
    InterpolationBetween(sorted, b);
    NextUp(a);
    NextUp(b);
    if Ceiling(a) <= b.Floor {
      assert sorted[Ceiling(a)] <= sorted[b.Floor];
    } else {
      // Both lie inside the same gap.
      var lower := a.Floor;
      assert b.Floor == lower && Ceiling(a) == lower + 1 && Ceiling(b) == lower + 1;
      BetweenMonotone(sorted[lower], sorted[lower + 1], a - lower as real, b - lower as real);
    }
  }

  lemma RoundMonotone(x: real, y: real)
    requires x <= y
    ensures Round(x) <= Round(y)
  {
  }

  /** A position of whole twentieths: so many values further, and so many twentieths of the way to the next. */
  lemma AtTwentieths(sorted: seq<int>, k: nat, r: nat, offset: real)
    requires r < 20 && k < |sorted| && (r > 0 ==> k + 1 < |sorted|)
    requires 0.0 <= offset <= (|sorted| - 1) as real && 20.0 * offset == (20 * k + r) as real
    ensures 20.0 * Interpolate(sorted, offset) ==
      (20 * sorted[k] + r * (if r > 0 then sorted[k + 1] - sorted[k] else 0)) as real
  {
    assert offset == k as real + r as real / 20.0;
    assert offset.Floor == k;
    NextUp(offset);
    if r == 0 {
      assert Ceiling(offset) == k;
    } else {
      assert Ceiling(offset) == k + 1;
      Twentieths(sorted[k + 1] - sorted[k], r, offset - k as real);
    }
  }

  lemma Twentieths(d: int, r: nat, fraction: real)
    requires 20.0 * fraction == r as real
    ensures 20.0 * Share(d as real, fraction) == (r * d) as real
  {
    assert 20.0 * (d as real * fraction) == d as real * (20.0 * fraction);
    assert d as real * r as real == (r * d) as real;
  }

  /**
   Which percentiles they are: of n values in ascending order, p50 stands at position (n - 1) / 2 and p95 at
   19 (n - 1) / 20 from the first, between two values in proportion, each rounded to the nearest integer with halves
   upwards.
   */
  lemma MetricExact(values: seq<int>, p: seq<int>)
    requires values != [] && multiset(p) == multiset(values) && Sorted(p)
    ensures |p| == |values|
    ensures var m, n := CreateMetricSummary(values), |p| - 1;
      && m.minimumMs == p[0] && m.maximumMs == p[n]
      && PercentileAt(p, 10 * n, m.p50Ms) && PercentileAt(p, 19 * n, m.p95Ms)
  {
    SameElements(p, values);
    SortNumbersPermutes(p, values);
    AscendingFixed(p);
    var n := |p| - 1;
    PercentileExact(p, 10, 0.5);
    PercentileExact(p, 19, 0.95);
  }

  lemma AscendingFixed(p: seq<int>)
    requires Sorted(p)
    ensures SortNumbers(p) == p
  {
    SortFixpoint(p, NumberKey);
  }

  /** The value is what stands so many twentieths behind the first, to the nearest integer with halves upwards. */
  predicate PercentileAt(p: seq<int>, twentieths: nat, value: int)
    requires p != [] && twentieths <= 20 * (|p| - 1)
  {
    var k, r := twentieths / 20, twentieths % 20;
    var exact := 20 * p[k] + r * (if r > 0 then p[k + 1] - p[k] else 0);
    40 * value - 20 <= 2 * exact < 40 * value + 20
  }

  lemma WithinRange(n: nat, twentieths: nat)
    requires twentieths <= 20
    ensures twentieths * n <= 20 * n
  {
  }

  lemma PercentileExact(p: seq<int>, twentieths: nat, percentile: real)
    requires p != [] && twentieths <= 20 && 20.0 * percentile == twentieths as real
    ensures twentieths * (|p| - 1) <= 20 * (|p| - 1)
    ensures PercentileAt(p, twentieths * (|p| - 1), InterpolatePercentile(p, percentile))
  {
    hide Share, Interpolate;
    var n := |p| - 1;
    WithinRange(n, twentieths);
    Twentieths(n, twentieths, percentile);
    var position, offset := twentieths * n, Offset(|p|, percentile);
    assert 20.0 * offset == position as real;
    PositionExact(p, position, offset);
  }

  lemma PositionExact(p: seq<int>, position: nat, offset: real)
    requires p != [] && position <= 20 * (|p| - 1) && 20.0 * offset == position as real
    requires 0.0 <= offset <= (|p| - 1) as real
    ensures PercentileAt(p, position, Round(Interpolate(p, offset)))
  {
    hide Interpolate;
    AtTwentieths(p, position / 20, position % 20, offset);
    RoundExact(Interpolate(p, offset), Round(Interpolate(p, offset)));
  }

  /** Minimum, median, 95th percentile and maximum of any values are in that order. */
  lemma MetricOrdered(values: seq<int>)
    requires values != []
    ensures var m := CreateMetricSummary(values); m.minimumMs <= m.p50Ms <= m.p95Ms <= m.maximumMs
    ensures var m := CreateMetricSummary(values); m.minimumMs in values && m.maximumMs in values
    ensures forall v | v in values ::
      CreateMetricSummary(values).minimumMs <= v <= CreateMetricSummary(values).maximumMs
  {
    SortNumbersSorts(values);
    var sorted := SortNumbers(values);
    var n := |sorted|;
    var a, b := Offset(n, 0.5), Offset(n, 0.95);
    assert a <= b by {
      ShareMonotone((n - 1) as real, 0.5, 0.95);
    }
    InterpolationMonotone(sorted, 0.0, a);
    InterpolationMonotone(sorted, a, b);
    InterpolationMonotone(sorted, b, (n - 1) as real);
    RoundMonotone(Interpolate(sorted, 0.0), Interpolate(sorted, a));
    RoundMonotone(Interpolate(sorted, a), Interpolate(sorted, b));
    RoundMonotone(Interpolate(sorted, b), Interpolate(sorted, (n - 1) as real));
    EndsAreValues(sorted);
    forall v | v in values
      ensures sorted[0] <= v <= sorted[n - 1]
    {
      assert v in sorted;
      var i :| 0 <= i < n && sorted[i] == v;
    }
  }

  lemma EndsAreValues(sorted: seq<int>)
    requires sorted != [] && Sorted(sorted)
    ensures Round(Interpolate(sorted, 0.0)) == sorted[0]
    ensures Round(Interpolate(sorted, (|sorted| - 1) as real)) == sorted[|sorted| - 1]
  {
  }

  /** The summary does not depend on the order of the values. */
  lemma MetricPermutes(a: seq<int>, b: seq<int>)
    requires a != [] && multiset(a) == multiset(b)
    ensures b != [] && CreateMetricSummary(a) == CreateMetricSummary(b)
  {
    SameElements(a, b);
    SortNumbersPermutes(a, b);
  }

  // ----- The summary of a batch -----

  datatype OutcomeCounts = OutcomeCounts(local: int, afterLookup: int, afterOperator: int)

  datatype StateCounts = StateCounts(ready: int, stillLoading: int, unavailable: int)

  datatype EndpointTiming = EndpointTiming(
    clientRequestDurationMs: MetricSummary,
    endpoint: Endpoint,
    responseEndMs: MetricSummary,
    sampleCount: int,
    startTimeMs: MetricSummary)

  datatype Presentation = Presentation(observedAtMs: MetricSummary, stateCounts: StateCounts, stateIsConsistent: bool)

  datatype Summary = Summary(
    endpointTimings: seq<EndpointTiming>,
    outcomeCounts: OutcomeCounts,
    outcomeIsConsistent: bool,
    presentation: Presentation)

  datatype Batch = Batch(capturedAt: int, summary: Summary, sampleCount: int, samples: seq<Sample>)

  function CountOutcome(samples: seq<Sample>, outcome: Outcome): nat {
    if samples == [] then 0
    else CountOutcome(samples[..|samples| - 1], outcome) + if samples[|samples| - 1].outcome == outcome then 1 else 0
  }

  function CountState(samples: seq<Sample>, state: PresentationState): nat {
    if samples == [] then 0
    else CountState(samples[..|samples| - 1], state) + if samples[|samples| - 1].state == state then 1 else 0
  }

  function OutcomeCountsOf(samples: seq<Sample>): OutcomeCounts {
    OutcomeCounts(CountOutcome(samples, LocalProjection), CountOutcome(samples, FallbackAfterLookup),
      CountOutcome(samples, FallbackAfterOperator))
  }

  function StateCountsOf(samples: seq<Sample>): StateCounts {
    StateCounts(CountState(samples, Ready), CountState(samples, StillLoading), CountState(samples, Unavailable))
  }

  method CreateOutcomeCounts(samples: seq<Sample>) returns (counts: OutcomeCounts)
    ensures counts == OutcomeCountsOf(samples)
  {
    counts := OutcomeCounts(0, 0, 0);
    for i := 0 to |samples|
      invariant counts == OutcomeCountsOf(samples[..i])
    {
      assert samples[..i + 1][..i] == samples[..i];
      match samples[i].outcome {
        case LocalProjection => counts := counts.(local := counts.local + 1);
        case FallbackAfterLookup => counts := counts.(afterLookup := counts.afterLookup + 1);
        case FallbackAfterOperator => counts := counts.(afterOperator := counts.afterOperator + 1);
      }
    }
    assert samples[..|samples|] == samples;
  }

  method CreateStateCounts(samples: seq<Sample>) returns (counts: StateCounts)
    ensures counts == StateCountsOf(samples)
  {
    counts := StateCounts(0, 0, 0);
    for i := 0 to |samples|
      invariant counts == StateCountsOf(samples[..i])
    {
      assert samples[..i + 1][..i] == samples[..i];
      match samples[i].state {
        case Ready => counts := counts.(ready := counts.ready + 1);
        case StillLoading => counts := counts.(stillLoading := counts.stillLoading + 1);
        case Unavailable => counts := counts.(unavailable := counts.unavailable + 1);
      }
    }
    assert samples[..|samples|] == samples;
  }

  function Positive(count: int): int {
    if count > 0 then 1 else 0
  }

  function DistinctOutcomes(c: OutcomeCounts): int {
    Positive(c.local) + Positive(c.afterLookup) + Positive(c.afterOperator)
  }

  function DistinctStates(c: StateCounts): int {
    Positive(c.ready) + Positive(c.stillLoading) + Positive(c.unavailable)
  }

  function RequestsTo(requests: seq<Request>, endpoint: Endpoint): seq<Request> {
    Filter(requests, (q: Request) => q.endpoint == endpoint)
  }

  function RequestsFor(samples: seq<Sample>, endpoint: Endpoint): seq<Request> {
    if samples == [] then []
    else RequestsFor(samples[..|samples| - 1], endpoint) + RequestsTo(samples[|samples| - 1].requests, endpoint)
  }

  function ClientOf(q: Request): int { q.timing.clientRequestDurationMs }

  function ResponseEndOf(q: Request): int { q.timing.responseEndMs }

  function StartOf(q: Request): int { q.timing.startTimeMs }

  function ObservedOf(s: Sample): int { s.observedAtMs }

  function EndpointTimingFor(samples: seq<Sample>, endpoint: Endpoint): seq<EndpointTiming> {
    var requests := RequestsFor(samples, endpoint);
    if requests == [] then []
    else [EndpointTiming(
      CreateMetricSummary(Map(requests, ClientOf)), endpoint, CreateMetricSummary(Map(requests, ResponseEndOf)),
      |requests|,
      CreateMetricSummary(Map(requests, StartOf)))]
  }

  function CreateEndpointTimings(samples: seq<Sample>): seq<EndpointTiming> {
    EndpointTimingFor(samples, LocalMetadata) + EndpointTimingFor(samples, OperatorProjection)
      + EndpointTimingFor(samples, Discography)
  }

  function CreatePresentationSummary(samples: seq<Sample>): Presentation
    requires samples != []
  {
    Presentation(CreateMetricSummary(Map(samples, ObservedOf)), StateCountsOf(samples),
      DistinctStates(StateCountsOf(samples)) == 1)
  }

  function SummaryOf(samples: seq<Sample>): Summary
    requires samples != []
  {
    Summary(CreateEndpointTimings(samples), OutcomeCountsOf(samples), DistinctOutcomes(OutcomeCountsOf(samples)) == 1,
            CreatePresentationSummary(samples))
  }

  // ----- Conservation -----

  // Each valid sample asks each endpoint of its outcome once, and no other.
  lemma OneRequestEach(s: Sample, endpoint: Endpoint)
    requires ValidSample(s)
    ensures |RequestsTo(s.requests, endpoint)| == if endpoint in ExpectedEndpointOrder(s.outcome) then 1 else 0
  {
    hide RequestsTo, ValidRequest, Bounded;
    var endpoints, q := Map(s.requests, EndpointOf), s.requests;
    assert forall i | 0 <= i < |q| :: endpoints[i] == q[i].endpoint;
    FirstRequestTo(q, endpoint);
    FirstRequestTo(q[1..], endpoint);
    NoRequestTo(endpoint);
    if |q| == 2 {
      assert q[1..][1..] == [];
    } else {
      FirstRequestTo(q[2..], endpoint);
      assert q[1..][1..] == q[2..] && q[2..][1..] == [];
    }
  }

  lemma NoRequestTo(endpoint: Endpoint)
    ensures RequestsTo([], endpoint) == []
  {
  }

  lemma FirstRequestTo(q: seq<Request>, endpoint: Endpoint)
    requires q != []
    ensures RequestsTo(q, endpoint) == (if q[0].endpoint == endpoint then [q[0]] else []) + RequestsTo(q[1..], endpoint)
  {
  }

  /** Local metadata is asked once a sample; the other endpoints as often as the outcomes whose order contains them. */
  lemma {:induction false} EndpointCountsConserved(samples: seq<Sample>)
    requires forall s | s in samples :: ValidSample(s)
    ensures var c := OutcomeCountsOf(samples);
      && c.local + c.afterLookup + c.afterOperator == |samples|
      && |RequestsFor(samples, LocalMetadata)| == |samples|
      && |RequestsFor(samples, OperatorProjection)| == c.local + c.afterOperator
      && |RequestsFor(samples, Discography)| == c.afterLookup + c.afterOperator
  {
    if samples != [] {
      var s := samples[|samples| - 1];
      assert s in samples;
      EndpointCountsConserved(samples[..|samples| - 1]);
      OneRequestEach(s, LocalMetadata);
      OneRequestEach(s, OperatorProjection);
      OneRequestEach(s, Discography);
      match s.outcome
      case LocalProjection =>
      case FallbackAfterLookup =>
      case FallbackAfterOperator =>
    }
  }

  lemma {:induction false} StateCountsConserved(samples: seq<Sample>)
    ensures var c := StateCountsOf(samples); c.ready + c.stillLoading + c.unavailable == |samples|
  {
    if samples != [] {
      StateCountsConserved(samples[..|samples| - 1]);
    }
  }

  lemma {:induction false} RequestsForFrom(samples: seq<Sample>, endpoint: Endpoint)
    ensures forall q | q in RequestsFor(samples, endpoint) ::
      q.endpoint == endpoint && exists s | s in samples :: q in s.requests
  {
    if samples != [] {
      RequestsForFrom(samples[..|samples| - 1], endpoint);
    }
  }

  /** The request was sent to the endpoint in one of the samples. */
  predicate SentIn(samples: seq<Sample>, q: Request, endpoint: Endpoint) {
    q.endpoint == endpoint && exists s | s in samples :: q in s.requests
  }

  lemma {:induction false} RequestsForAll(samples: seq<Sample>, q: Request, endpoint: Endpoint)
    requires SentIn(samples, q, endpoint)
    ensures q in RequestsFor(samples, endpoint)
  {
    var init, last := samples[..|samples| - 1], samples[|samples| - 1];
    assert samples == init + [last];
    if q !in last.requests {
      RequestsForAll(init, q, endpoint);
    }
  }

  /** Each summary of an endpoint spans the measurements of its own kind, and its ends are measured. */
  lemma EndpointTimingSpans(samples: seq<Sample>, endpoint: Endpoint, e: EndpointTiming, q: Request)
    requires e in EndpointTimingFor(samples, endpoint)
    requires SentIn(samples, q, endpoint)
    ensures e.startTimeMs.minimumMs <= q.timing.startTimeMs <= e.startTimeMs.maximumMs
    ensures e.responseEndMs.minimumMs <= q.timing.responseEndMs <= e.responseEndMs.maximumMs
    ensures e.clientRequestDurationMs.minimumMs <= q.timing.clientRequestDurationMs
      <= e.clientRequestDurationMs.maximumMs
  {
    hide CreateMetricSummary, RequestsFor;
    RequestsForAll(samples, q, endpoint);
    MetricSpans(RequestsFor(samples, endpoint), q, StartOf);
    MetricSpans(RequestsFor(samples, endpoint), q, ResponseEndOf);
    MetricSpans(RequestsFor(samples, endpoint), q, ClientOf);
  }

  function Rank(endpoint: Endpoint): nat {
    match endpoint
    case LocalMetadata => 0
    case OperatorProjection => 1
    case Discography => 2
  }

  predicate Timed(timings: seq<EndpointTiming>, endpoint: Endpoint) {
    exists e | e in timings :: e.endpoint == endpoint
  }

  ghost predicate Asked(samples: seq<Sample>, endpoint: Endpoint) {
    exists q :: SentIn(samples, q, endpoint)
  }

  /** One summary for each endpoint that some sample asked, in the fixed order of endpoints. */
  lemma EndpointsInOrder(samples: seq<Sample>)
    ensures var t := CreateEndpointTimings(samples);
      && (forall i, j | 0 <= i < j < |t| :: Rank(t[i].endpoint) < Rank(t[j].endpoint))
      && forall endpoint: Endpoint :: Timed(t, endpoint) <==> Asked(samples, endpoint)
  {
    var a, b, c := EndpointTimingFor(samples, LocalMetadata), EndpointTimingFor(samples, OperatorProjection),
      EndpointTimingFor(samples, Discography);
    TimedWhenSent(samples, LocalMetadata);
    TimedWhenSent(samples, OperatorProjection);
    TimedWhenSent(samples, Discography);
    hide EndpointTimingFor, Asked;
    JoinedInOrder(a, b, c);
    forall endpoint: Endpoint
      ensures Timed(a + b + c, endpoint) <==> Asked(samples, endpoint)
    {
      match endpoint
      case LocalMetadata =>
      case OperatorProjection =>
      case Discography =>
    }
  }

  lemma JoinedInOrder(a: seq<EndpointTiming>, b: seq<EndpointTiming>, c: seq<EndpointTiming>)
    requires |a| <= 1 && |b| <= 1 && |c| <= 1
    requires a != [] ==> a[0].endpoint == LocalMetadata
    requires b != [] ==> b[0].endpoint == OperatorProjection
    requires c != [] ==> c[0].endpoint == Discography
    ensures forall i, j | 0 <= i < j < |a + b + c| ::
      Rank((a + b + c)[i].endpoint) < Rank((a + b + c)[j].endpoint)
    ensures Timed(a + b + c, LocalMetadata) <==> a != []
    ensures Timed(a + b + c, OperatorProjection) <==> b != []
    ensures Timed(a + b + c, Discography) <==> c != []
  {
    assert a != [] ==> a[0] in a + b + c;
    assert b != [] ==> b[0] in a + b + c;
    assert c != [] ==> c[0] in a + b + c;
  }

  lemma TimedWhenSent(samples: seq<Sample>, endpoint: Endpoint)
    ensures var t := EndpointTimingFor(samples, endpoint);
      |t| <= 1 && (t != [] <==> Asked(samples, endpoint)) && (t != [] ==> t[0].endpoint == endpoint)
  {
    hide CreateMetricSummary, SentIn;
    var requests := RequestsFor(samples, endpoint);
    SentRequests(samples, endpoint);
    if requests != [] {
      assert requests[0] in requests;
    } else if Asked(samples, endpoint) {
      var q :| SentIn(samples, q, endpoint);
      RequestsForAll(samples, q, endpoint);
    }
  }

  lemma SentRequests(samples: seq<Sample>, endpoint: Endpoint)
    ensures forall q | q in RequestsFor(samples, endpoint) :: SentIn(samples, q, endpoint)
  {
    RequestsForFrom(samples, endpoint);
  }

  lemma MetricSpans(requests: seq<Request>, q: Request, measure: Request -> int)
    requires q in requests
    ensures var m := CreateMetricSummary(Map(requests, measure)); m.minimumMs <= measure(q) <= m.maximumMs
  {
    hide CreateMetricSummary;
    var values := Map(requests, measure);
    var i :| 0 <= i < |requests| && requests[i] == q;
    assert values[i] == measure(q) && values[i] in values;
    MetricOrdered(values);
  }

  // ----- The contract check -----

  const MINIMUM_SAMPLES := 2
  const MAXIMUM_SAMPLES := 5

  /** Evidence as it is handed in for checking: nothing about it can be relied on. */
  datatype RawBatch = RawBatch(
    schemaVersion: int, capturedAt: int, sampleCount: int, samples: seq<RawSample>, summary: Summary)

  function NormalizeAll(raws: seq<RawSample>): Result<seq<Sample>> {
    if raws == [] then Ok([])
    else
      var first :- CreateEvidence(raws[0]);
      var rest :- NormalizeAll(raws[1..]);
      Ok([first] + rest)
  }

  function NormalizeSamples(raws: seq<RawSample>): Result<seq<Sample>> {
    if MINIMUM_SAMPLES <= |raws| <= MAXIMUM_SAMPLES then NormalizeAll(raws) else Rejected
  }

  predicate MetricGood(m: MetricSummary) {
    && Bounded(m.minimumMs) && Bounded(m.p50Ms) && Bounded(m.p95Ms) && Bounded(m.maximumMs)
    && m.minimumMs <= m.p50Ms <= m.p95Ms <= m.maximumMs
  }

  predicate EndpointTimingGood(e: EndpointTiming, sampleCount: int) {
    1 <= e.sampleCount <= sampleCount && MetricGood(e.clientRequestDurationMs) && MetricGood(e.responseEndMs)
      && MetricGood(e.startTimeMs)
  }

  predicate OutcomeCountsGood(c: OutcomeCounts, n: int) {
    0 <= c.local <= n && 0 <= c.afterLookup <= n && 0 <= c.afterOperator <= n
      && c.local + c.afterLookup + c.afterOperator == n
  }

  predicate StateCountsGood(c: StateCounts, n: int) {
    0 <= c.ready <= n && 0 <= c.stillLoading <= n && 0 <= c.unavailable <= n
      && c.ready + c.stillLoading + c.unavailable == n
  }

  /** The checks made of the summary fields on their own. */
  predicate SummaryGood(m: Summary, n: int) {
    && (forall e | e in m.endpointTimings :: EndpointTimingGood(e, n))
    && (forall i, j | 0 <= i < j < |m.endpointTimings| ::
         m.endpointTimings[i].endpoint != m.endpointTimings[j].endpoint)
    && OutcomeCountsGood(m.outcomeCounts, n) && MetricGood(m.presentation.observedAtMs)
       && StateCountsGood(m.presentation.stateCounts, n)
  }

  function CreateBatchEvidence(capturedAt: int, raws: seq<RawSample>): (r: Result<Batch>)
    ensures r.Ok? ==> r.value.samples != []
  {
    var samples :- NormalizeSamples(raws);
    if samples == [] then Rejected else Ok(Batch(capturedAt, SummaryOf(samples), |samples|, samples))
  }

  function AssertBatchContract(raw: RawBatch): Result<Batch> {
    if raw.schemaVersion != 2 || !(MINIMUM_SAMPLES <= raw.sampleCount <= MAXIMUM_SAMPLES) then Rejected
    else
      var samples :- NormalizeSamples(raw.samples);
      if |samples| != raw.sampleCount || !SummaryGood(raw.summary, raw.sampleCount) then Rejected
      else
        var expected :- CreateBatchEvidence(raw.capturedAt, Map(samples, RawSampleOf));
        if raw.summary != expected.summary then Rejected else Ok(expected)
  }

  lemma {:induction false} NormalizedAllValid(raws: seq<RawSample>)
    requires NormalizeAll(raws).Ok?
    ensures |NormalizeAll(raws).value| == |raws|
    ensures forall s | s in NormalizeAll(raws).value :: ValidSample(s)
  {
    if raws != [] {
      EvidenceExact(raws[0], CreateEvidence(raws[0]).value);
      NormalizedAllValid(raws[1..]);
    }
  }

  lemma {:induction false} ResubmittedAll(samples: seq<Sample>)
    requires forall s | s in samples :: ValidSample(s)
    ensures NormalizeAll(Map(samples, RawSampleOf)) == Ok(samples)
  {
    hide ValidSample, CreateEvidence, RawSampleOf;
    if samples != [] {
      assert samples[0] in samples;
      EvidenceExact(RawSampleOf(samples[0]), samples[0]);
      ResubmittedAll(samples[1..]);
      assert Map(samples, RawSampleOf)[0] == RawSampleOf(samples[0]);
      assert Map(samples, RawSampleOf)[1..] == Map(samples[1..], RawSampleOf);
      assert samples == [samples[0]] + samples[1..];
    }
  }

  lemma MetricWithinBounds(values: seq<int>)
    requires values != [] && forall v | v in values :: Bounded(v)
    ensures MetricGood(CreateMetricSummary(values))
  {
    MetricOrdered(values);
  }

  lemma EndpointTimingWithinBounds(samples: seq<Sample>, endpoint: Endpoint)
    requires forall s | s in samples :: ValidSample(s)
    ensures forall e | e in EndpointTimingFor(samples, endpoint) ::
      e.endpoint == endpoint && EndpointTimingGood(e, |samples|)
    ensures |EndpointTimingFor(samples, endpoint)| <= 1
  {
    hide ValidSample, CreateMetricSummary, MetricGood, Bounded, ValidRequest;
    var requests := RequestsFor(samples, endpoint);
    EndpointCountsConserved(samples);
    assert |requests| <= |samples| by {
      match endpoint
      case LocalMetadata =>
      case OperatorProjection =>
      case Discography =>
    }
    RequestsForFrom(samples, endpoint);
    forall q | q in requests
      ensures ValidRequest(q)
    {
      var s :| s in samples && q in s.requests;
      ValidSampleRequests(s);
    }
    if requests != [] {
      TimingsBounded(requests);
      MetricWithinBounds(Map(requests, ClientOf));
      MetricWithinBounds(Map(requests, ResponseEndOf));
      MetricWithinBounds(Map(requests, StartOf));
    }
  }

  lemma ValidSampleRequests(s: Sample)
    requires ValidSample(s)
    ensures forall q | q in s.requests :: ValidRequest(q)
  {
  }

  lemma TimingsBounded(requests: seq<Request>)
    requires forall q | q in requests :: ValidRequest(q)
    ensures forall v | v in Map(requests, ClientOf) :: Bounded(v)
    ensures forall v | v in Map(requests, ResponseEndOf) || v in Map(requests, StartOf) :: Bounded(v)
  {
    assert forall i | 0 <= i < |requests| :: requests[i] in requests;
  }

  /** A recomputed summary passes every check made of the fields on their own. */
  lemma SummaryWithinBounds(samples: seq<Sample>)
    requires samples != [] && forall s | s in samples :: ValidSample(s)
    ensures SummaryGood(SummaryOf(samples), |samples|)
  {
    hide CreateMetricSummary, EndpointTimingFor, ValidSample, MetricGood;
    EndpointTimingWithinBounds(samples, LocalMetadata);
    EndpointTimingWithinBounds(samples, OperatorProjection);
    EndpointTimingWithinBounds(samples, Discography);
    EndpointCountsConserved(samples);
    StateCountsConserved(samples);
    ObservationsBounded(samples);
    MetricWithinBounds(Map(samples, ObservedOf));
  }

  lemma ObservationsBounded(samples: seq<Sample>)
    requires forall s | s in samples :: ValidSample(s)
    ensures forall v | v in Map(samples, ObservedOf) :: Bounded(v)
  {
    var values := Map(samples, ObservedOf);
    forall v | v in values
      ensures Bounded(v)
    {
      var i :| 0 <= i < |values| && values[i] == v;
      assert samples[i] in samples;
    }
  }

  /**
   The contract accepts exactly the evidence whose summary equals the recomputation over its own samples, and
   returns it with the samples normalised.
   */
  lemma ContractExact(raw: RawBatch)
    ensures AssertBatchContract(raw).Ok? <==>
      && raw.schemaVersion == 2 && NormalizeSamples(raw.samples).Ok? && raw.sampleCount == |raw.samples|
      && NormalizeSamples(raw.samples).value != [] && raw.summary == SummaryOf(NormalizeSamples(raw.samples).value)
    ensures AssertBatchContract(raw).Ok? ==>
      AssertBatchContract(raw).value
        == Batch(raw.capturedAt, raw.summary, raw.sampleCount, NormalizeSamples(raw.samples).value)
  {
    hide SummaryOf, SummaryGood, NormalizeAll, ValidSample;
    if NormalizeSamples(raw.samples).Ok? {
      var samples := NormalizeSamples(raw.samples).value;
      NormalizedAllValid(raw.samples);
      ResubmittedAll(samples);
      SummaryWithinBounds(samples);
    }
  }

  /** A batch is made exactly of two to five captures that are each accepted alone, and holds what each comes to. */
  lemma BatchExact(capturedAt: int, raws: seq<RawSample>)
    ensures CreateBatchEvidence(capturedAt, raws).Ok? <==>
      2 <= |raws| <= 5 && forall raw | raw in raws :: CreateEvidence(raw).Ok?
    ensures CreateBatchEvidence(capturedAt, raws).Ok? ==>
      var batch := CreateBatchEvidence(capturedAt, raws).value;
      && batch.capturedAt == capturedAt && batch.sampleCount == |raws| == |batch.samples|
      && forall i | 0 <= i < |raws| :: CreateEvidence(raws[i]) == Ok(batch.samples[i])
  {
    hide SummaryOf, CreateEvidence;
    NormalizedEach(raws);
  }

  lemma {:induction false} NormalizedEach(raws: seq<RawSample>)
    ensures NormalizeAll(raws).Ok? <==> forall raw | raw in raws :: CreateEvidence(raw).Ok?
    ensures NormalizeAll(raws).Ok? ==>
      && |NormalizeAll(raws).value| == |raws|
      && forall i | 0 <= i < |raws| :: CreateEvidence(raws[i]) == Ok(NormalizeAll(raws).value[i])
  {
    hide CreateEvidence;
    if raws != [] {
      NormalizedEach(raws[1..]);
      assert raws == [raws[0]] + raws[1..];
    }
  }

  function RawBatchOf(b: Batch): RawBatch {
    RawBatch(2, b.capturedAt, b.sampleCount, Map(b.samples, RawSampleOf), b.summary)
  }

  /** Everything the builder makes is accepted, and returned unchanged. */
  lemma BuilderAccepted(capturedAt: int, raws: seq<RawSample>)
    requires CreateBatchEvidence(capturedAt, raws).Ok?
    ensures AssertBatchContract(RawBatchOf(CreateBatchEvidence(capturedAt, raws).value))
      == CreateBatchEvidence(capturedAt, raws)
  {
    hide SummaryOf, NormalizeAll, ValidSample, AssertBatchContract;
    var batch := CreateBatchEvidence(capturedAt, raws).value;
    NormalizedAllValid(raws);
    ResubmittedAll(batch.samples);
    ContractExact(RawBatchOf(batch));
  }

  // ----- Order of the samples -----

  lemma {:induction false} OutcomesJoin(a: seq<Sample>, b: seq<Sample>, o: Outcome)
    ensures CountOutcome(a + b, o) == CountOutcome(a, o) + CountOutcome(b, o)
  {
    if b == [] {
      assert a + b == a;
    } else {
      OutcomesJoin(a, b[..|b| - 1], o);
      assert (a + b)[..|a + b| - 1] == a + b[..|b| - 1];
    }
  }

  lemma {:induction false} StatesJoin(a: seq<Sample>, b: seq<Sample>, p: PresentationState)
    ensures CountState(a + b, p) == CountState(a, p) + CountState(b, p)
  {
    if b == [] {
      assert a + b == a;
    } else {
      StatesJoin(a, b[..|b| - 1], p);
      assert (a + b)[..|a + b| - 1] == a + b[..|b| - 1];
    }
  }

  lemma {:induction false} RequestsJoin(a: seq<Sample>, b: seq<Sample>, e: Endpoint)
    ensures RequestsFor(a + b, e) == RequestsFor(a, e) + RequestsFor(b, e)
  {
    hide RequestsTo;
    if b == [] {
      assert a + b == a;
    } else {
      RequestsJoin(a, b[..|b| - 1], e);
      assert (a + b)[..|a + b| - 1] == a + b[..|b| - 1];
    }
  }

  lemma MapJoin<T>(a: seq<T>, b: seq<T>, f: T -> int)
    ensures Map(a + b, f) == Map(a, f) + Map(b, f)
  {
  }

  // Taking the sample at position j out takes its share out of every count.
  lemma CountsRemove(b: seq<Sample>, j: nat, o: Outcome, p: PresentationState, e: Endpoint)
    requires j < |b|
    ensures var rest := b[..j] + b[j + 1..];
      && CountOutcome(b, o) == CountOutcome([b[j]], o) + CountOutcome(rest, o)
      && CountState(b, p) == CountState([b[j]], p) + CountState(rest, p)
      && multiset(RequestsFor(b, e)) == multiset(RequestsFor([b[j]], e)) + multiset(RequestsFor(rest, e))
  {
    hide CountOutcome, CountState, RequestsFor;
    var front, back := b[..j], b[j + 1..];
    assert b == front + ([b[j]] + back);
    OutcomesJoin(front, back, o);
    OutcomesJoin([b[j]], back, o);
    OutcomesJoin(front, [b[j]] + back, o);
    StatesJoin(front, back, p);
    StatesJoin([b[j]], back, p);
    StatesJoin(front, [b[j]] + back, p);
    RequestsJoin(front, back, e);
    RequestsJoin([b[j]], back, e);
    RequestsJoin(front, [b[j]] + back, e);
  }

  /** Outcomes, states and requests are counted the same in every order. */
  lemma {:induction false} CountsPermute(a: seq<Sample>, b: seq<Sample>, o: Outcome, p: PresentationState, e: Endpoint)
    requires multiset(a) == multiset(b)
    ensures CountOutcome(a, o) == CountOutcome(b, o) && CountState(a, p) == CountState(b, p)
    ensures multiset(RequestsFor(a, e)) == multiset(RequestsFor(b, e))
  {
    hide CountOutcome, CountState, RequestsFor;
    SameElements(a, b);
    if a == [] {
      assert b == [];
    } else {
      assert a[0] in b;
      var j :| 0 <= j < |b| && b[j] == a[0];
      RemovalPermutes(a, b, j);
      CountsPermute(a[1..], b[..j] + b[j + 1..], o, p, e);
      assert a[..0] + a[1..] == a[1..];
      CountsRemove(a, 0, o, p, e);
      CountsRemove(b, j, o, p, e);
    }
  }

  lemma {:induction false} MapPermutes<T>(a: seq<T>, b: seq<T>, f: T -> int)
    requires multiset(a) == multiset(b)
    ensures multiset(Map(a, f)) == multiset(Map(b, f))
  {
    hide Map;
    SameElements(a, b);
    if a == [] {
      assert b == [];
    } else {
      assert a[0] in b;
      var j :| 0 <= j < |b| && b[j] == a[0];
      var front, back := b[..j], b[j + 1..];
      RemovalPermutes(a, b, j);
      MapPermutes(a[1..], front + back, f);
      assert a == [a[0]] + a[1..] && b == front + ([b[j]] + back);
      MapJoin([a[0]], a[1..], f);
      MapJoin(front, back, f);
      MapJoin(front, [b[j]] + back, f);
      MapJoin([b[j]], back, f);
    }
  }

  lemma EndpointTimingPermutes(a: seq<Sample>, b: seq<Sample>, e: Endpoint)
    requires multiset(a) == multiset(b)
    ensures EndpointTimingFor(a, e) == EndpointTimingFor(b, e)
  {
    hide CreateMetricSummary;
    CountsPermute(a, b, LocalProjection, Ready, e);
    var p, q := RequestsFor(a, e), RequestsFor(b, e);
    SameElements(p, q);
    if p != [] {
      MapPermutes(p, q, ClientOf);
      MapPermutes(p, q, ResponseEndOf);
      MapPermutes(p, q, StartOf);
      MetricPermutes(Map(p, ClientOf), Map(q, ClientOf));
      MetricPermutes(Map(p, ResponseEndOf), Map(q, ResponseEndOf));
      MetricPermutes(Map(p, StartOf), Map(q, StartOf));
    }
  }

  /** The whole summary is the same for every order of the samples. */
  lemma SummaryPermutes(a: seq<Sample>, b: seq<Sample>)
    requires a != [] && multiset(a) == multiset(b)
    ensures b != [] && SummaryOf(a) == SummaryOf(b)
  {
    hide CreateMetricSummary, EndpointTimingFor;
    SameElements(a, b);
    EndpointTimingPermutes(a, b, LocalMetadata);
    EndpointTimingPermutes(a, b, OperatorProjection);
    EndpointTimingPermutes(a, b, Discography);
    CountsPermute(a, b, LocalProjection, Ready, LocalMetadata);
    CountsPermute(a, b, FallbackAfterLookup, StillLoading, LocalMetadata);
    CountsPermute(a, b, FallbackAfterOperator, Unavailable, LocalMetadata);
    MapPermutes(a, b, ObservedOf);
    MetricPermutes(Map(a, ObservedOf), Map(b, ObservedOf));
  }
}
