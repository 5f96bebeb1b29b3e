/** One Artist Detail timing sample: scripts/artist-detail-local-timing-evidence.js. */
module TimingEvidence {
  import opened Common

  datatype Endpoint = LocalMetadata | OperatorProjection | Discography

  datatype Outcome = LocalProjection | FallbackAfterLookup | FallbackAfterOperator

  datatype PresentationState = Ready | StillLoading | Unavailable

  datatype StatusFamily = Family2 | Family3 | Family4 | Family5

  /** A number as a caller supplies it. */
  datatype Duration = Finite(ms: real) | NotFinite

  datatype RawTiming = RawTiming(clientRequestDuration: Duration, responseEnd: Duration, startTime: Duration)

  datatype RawRequest = RawRequest(endpoint: Endpoint, statusFamily: StatusFamily, timing: RawTiming)

  datatype RawSample = RawSample(
    capturedAt: int, outcome: Outcome, state: PresentationState, observedAt: Duration, requests: seq<RawRequest>)

  datatype Timing = Timing(clientRequestDurationMs: int, responseEndMs: int, startTimeMs: int)

  datatype Request = Request(endpoint: Endpoint, statusFamily: StatusFamily, timing: Timing)

  datatype Sample = Sample(
    capturedAt: int, outcome: Outcome, state: PresentationState, observedAtMs: int, requests: seq<Request>)

  const MAXIMUM_TIMING_MS := 3_600_000

  /** `Math.round`: to the nearest integer, halves upwards. */
  function Round(x: real): int {
    (x + 0.5).Floor
  }

  /** The rounded value is the one integer within half a unit, the upper one at a tie. */
  lemma RoundExact(x: real, n: int)
    ensures n == Round(x) <==> n as real - 0.5 <= x < n as real + 0.5
  {
  }

  function NormalizeDuration(d: Duration): (r: Result<int>)
    ensures r.Ok? ==> 0 <= r.value <= MAXIMUM_TIMING_MS
  {
    if d.NotFinite? || d.ms < 0.0 || d.ms > MAXIMUM_TIMING_MS as real then Rejected else Ok(Round(d.ms))
  }

  function NormalizeTiming(t: RawTiming): Result<Timing> {
    var client :- NormalizeDuration(t.clientRequestDuration);
    var end :- NormalizeDuration(t.responseEnd);
    var begin :- NormalizeDuration(t.startTime);
    if end < begin then Rejected else Ok(Timing(client, end, begin))
  }

  function NormalizeRequest(q: RawRequest): Result<Request> {
    var timing :- NormalizeTiming(q.timing);
    Ok(Request(q.endpoint, q.statusFamily, timing))
  }

  function NormalizeRequests(requests: seq<RawRequest>): Result<seq<Request>> {
    if requests == [] then Ok([])
    else
      var first :- NormalizeRequest(requests[0]);
      var rest :- NormalizeRequests(requests[1..]);
      Ok([first] + rest)
  }

  function ExpectedEndpointOrder(outcome: Outcome): seq<Endpoint> {
    match outcome
    case LocalProjection => [LocalMetadata, OperatorProjection]
    case FallbackAfterLookup => [LocalMetadata, Discography]
    case FallbackAfterOperator => [LocalMetadata, OperatorProjection, Discography]
  }

  function EndpointOf(q: Request): Endpoint {
    q.endpoint
  }

  function CreateEvidence(raw: RawSample): Result<Sample> {
    var requests :- NormalizeRequests(raw.requests);
    if Map(requests, EndpointOf) != ExpectedEndpointOrder(raw.outcome) then Rejected
    else
      var observedAtMs :- NormalizeDuration(raw.observedAt);
      Ok(Sample(raw.capturedAt, raw.outcome, raw.state, observedAtMs, requests))
  }

  // ----- What a sample satisfies, and that checking it again changes nothing -----

  predicate Bounded(ms: int) {
    0 <= ms <= MAXIMUM_TIMING_MS
  }

  predicate ValidRequest(q: Request) {
    && Bounded(q.timing.clientRequestDurationMs) && Bounded(q.timing.responseEndMs) && Bounded(q.timing.startTimeMs)
    && q.timing.startTimeMs <= q.timing.responseEndMs
  }

  predicate ValidSample(s: Sample) {
    && Map(s.requests, EndpointOf) == ExpectedEndpointOrder(s.outcome)
    && (forall q | q in s.requests :: ValidRequest(q))
    && Bounded(s.observedAtMs)
  }

  /** A sample handed in again, as it was written. */
  function Resubmit(ms: int): Duration {
    Finite(ms as real)
  }

  function RawRequestOf(q: Request): RawRequest {
    RawRequest(q.endpoint, q.statusFamily,
               RawTiming(Resubmit(q.timing.clientRequestDurationMs), Resubmit(q.timing.responseEndMs),
                 Resubmit(q.timing.startTimeMs)))
  }

  function RawSampleOf(s: Sample): RawSample {
    RawSample(s.capturedAt, s.outcome, s.state, Resubmit(s.observedAtMs), Map(s.requests, RawRequestOf))
  }

  lemma {:induction false} NormalizedRequestsValid(requests: seq<RawRequest>)
    requires NormalizeRequests(requests).Ok?
    ensures forall q | q in NormalizeRequests(requests).value :: ValidRequest(q)
  {
    if requests != [] {
      NormalizedRequestsValid(requests[1..]);
    }
  }

  lemma {:induction false} ResubmittedRequests(requests: seq<Request>)
    requires forall q | q in requests :: ValidRequest(q)
    ensures NormalizeRequests(Map(requests, RawRequestOf)) == Ok(requests)
  {
    if requests != [] {
      assert requests[0] in requests;
      ResubmittedRequests(requests[1..]);
      assert Map(requests, RawRequestOf)[0] == RawRequestOf(requests[0]);
      assert Map(requests, RawRequestOf)[1..] == Map(requests[1..], RawRequestOf);
      assert NormalizeRequest(RawRequestOf(requests[0])) == Ok(requests[0]);
      assert requests == [requests[0]] + requests[1..];
    }
  }

  /** Evidence that was created is valid, and valid evidence is accepted unchanged: normalising is idempotent. */
  lemma EvidenceExact(raw: RawSample, s: Sample)
    ensures CreateEvidence(raw) == Ok(s) ==> ValidSample(s)
    ensures ValidSample(s) <==> CreateEvidence(RawSampleOf(s)) == Ok(s)
  {
    if CreateEvidence(raw) == Ok(s) {
      NormalizedRequestsValid(raw.requests);
    }
    if ValidSample(s) {
      ResubmittedRequests(s.requests);
    }
    if CreateEvidence(RawSampleOf(s)) == Ok(s) {
      NormalizedRequestsValid(RawSampleOf(s).requests);
    }
  }
}
