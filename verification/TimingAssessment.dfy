/** The next action derived from timing evidence: scripts/artist-detail-local-timing-assessment.js. */
module TimingAssessment {
  import opened Common
  import opened TimingEvidence
  import opened TimingBatch

  datatype Action =
    | InspectClientLoading
    | InspectDiscographyAvailability
    | InspectProviderCache
    | ReproduceAffectedCase
    | ReproduceRouteVariation

  /** Validated evidence of either format. */
  datatype Evidence = Single(sample: Sample) | Repeated(batch: Batch)

  function GetPresentationStateCounts(e: Evidence): StateCounts {
    match e
    case Repeated(batch) => batch.summary.presentation.stateCounts
    case Single(s) =>
      var ready, stillLoading := if s.state.Ready? then 1 else 0, if s.state.StillLoading? then 1 else 0;
      StateCounts(ready, stillLoading, if s.state.Unavailable? then 1 else 0)
  }

  function GetOutcomeCounts(e: Evidence): OutcomeCounts {
    match e
    case Repeated(batch) => batch.summary.outcomeCounts
    case Single(s) =>
      OutcomeCounts(if s.outcome.LocalProjection? then 1 else 0, if s.outcome.FallbackAfterLookup? then 1 else 0,
                    if s.outcome.FallbackAfterOperator? then 1 else 0)
  }

  function GetNextAction(e: Evidence): Action {
    var states, outcomes := GetPresentationStateCounts(e), GetOutcomeCounts(e);
    if states.unavailable > 0 then InspectDiscographyAvailability
    else if states.stillLoading > 0 then InspectClientLoading
    else if DistinctOutcomes(outcomes) > 1 then ReproduceRouteVariation
    else if outcomes.afterLookup > 0 || outcomes.afterOperator > 0 then InspectProviderCache
    else ReproduceAffectedCase
  }

  /** A single capture is counted as a batch of one. */
  lemma SingleCountsAsBatch(s: Sample)
    ensures GetPresentationStateCounts(Single(s)) == StateCountsOf([s])
    ensures GetOutcomeCounts(Single(s)) == OutcomeCountsOf([s])
  {
    forall o: Outcome
      ensures CountOutcome([s], o) == if s.outcome == o then 1 else 0
    {
      assert [s][..0] == [] && CountOutcome([s][..0], o) == 0;
    }
    forall p: PresentationState
      ensures CountState([s], p) == if s.state == p then 1 else 0
    {
      assert [s][..0] == [] && CountState([s][..0], p) == 0;
    }
  }

  /** What each sample would be told alone. */
  function Alone(s: Sample): Action {
    GetNextAction(Single(s))
  }

  ghost predicate Any(samples: seq<Sample>, action: Action) {
    exists s | s in samples :: Alone(s) == action
  }

  ghost predicate Every(samples: seq<Sample>, action: Action) {
    forall s | s in samples :: Alone(s) == action
  }

  ghost predicate OneOutcome(samples: seq<Sample>) {
    forall s, t | s in samples && t in samples :: s.outcome == t.outcome
  }

  predicate AnyState(samples: seq<Sample>, state: PresentationState) {
    exists s | s in samples :: s.state == state
  }

  predicate AnyOutcome(samples: seq<Sample>, outcome: Outcome) {
    exists s | s in samples :: s.outcome == outcome
  }

  lemma {:induction false} OutcomeCounted(samples: seq<Sample>, o: Outcome)
    ensures CountOutcome(samples, o) > 0 <==> AnyOutcome(samples, o)
  {
    if samples != [] {
      var init, last := samples[..|samples| - 1], samples[|samples| - 1];
      OutcomeCounted(init, o);
      assert samples == init + [last];
    }
  }

  lemma {:induction false} StateCounted(samples: seq<Sample>, p: PresentationState)
    ensures CountState(samples, p) > 0 <==> AnyState(samples, p)
  {
    if samples != [] {
      var init, last := samples[..|samples| - 1], samples[|samples| - 1];
      StateCounted(init, p);
      assert samples == init + [last];
    }
  }

  /** The counts see several outcomes exactly when two samples differ in theirs. */
  lemma DistinctOutcomesExact(samples: seq<Sample>)
    ensures DistinctOutcomes(OutcomeCountsOf(samples)) > 1 <==> !OneOutcome(samples)
  {
    OutcomeCounted(samples, LocalProjection);
    OutcomeCounted(samples, FallbackAfterLookup);
    OutcomeCounted(samples, FallbackAfterOperator);
  }

  /** A batch calls its route, or its presentation, consistent if and only if no two samples differ in it. */
  lemma ConsistencyExact(samples: seq<Sample>)
    requires samples != []
    ensures SummaryOf(samples).outcomeIsConsistent <==>
      forall s, t | s in samples && t in samples :: s.outcome == t.outcome
    ensures SummaryOf(samples).presentation.stateIsConsistent <==>
      forall s, t | s in samples && t in samples :: s.state == t.state
  {
    hide CreateEndpointTimings, CreateMetricSummary, CountOutcome, CountState;
    OutcomeCounted(samples, LocalProjection);
    OutcomeCounted(samples, FallbackAfterLookup);
    OutcomeCounted(samples, FallbackAfterOperator);
    StateCounted(samples, Ready);
    StateCounted(samples, StillLoading);
    StateCounted(samples, Unavailable);
    assert samples[0] in samples;
  }

  /** The action for a batch with these samples. */
  function Together(samples: seq<Sample>): Action
    requires samples != []
  {
    GetNextAction(Repeated(Batch(0, SummaryOf(samples), |samples|, samples)))
  }

  // The branches of the decision, in terms of the samples.
  lemma BatchBranches(samples: seq<Sample>)
    requires samples != []
    ensures Together(samples) ==
        if AnyState(samples, Unavailable) then InspectDiscographyAvailability
        else if AnyState(samples, StillLoading) then InspectClientLoading
        else if !OneOutcome(samples) then ReproduceRouteVariation
        else if AnyOutcome(samples, FallbackAfterLookup) || AnyOutcome(samples, FallbackAfterOperator)
        then InspectProviderCache
        else ReproduceAffectedCase
  {
    hide AnyState, AnyOutcome, OneOutcome, CreateEndpointTimings, CreateMetricSummary, CountOutcome, CountState;
    StateCounted(samples, StillLoading);
    StateCounted(samples, Unavailable);
    OutcomeCounted(samples, FallbackAfterLookup);
    OutcomeCounted(samples, FallbackAfterOperator);
    DistinctOutcomesExact(samples);
  }

  lemma AloneExact(s: Sample)
    ensures Alone(s) == InspectDiscographyAvailability <==> s.state.Unavailable?
    ensures Alone(s) == InspectClientLoading <==> s.state.StillLoading?
    ensures Alone(s) == InspectProviderCache <==> s.state.Ready? && !s.outcome.LocalProjection?
    ensures Alone(s) == ReproduceAffectedCase <==> s.state.Ready? && s.outcome.LocalProjection?
  {
  }

  // The actions of single samples, in the same terms.
  lemma AloneBranches(samples: seq<Sample>)
    requires samples != []
    ensures Any(samples, InspectDiscographyAvailability) <==> AnyState(samples, Unavailable)
    ensures Any(samples, InspectClientLoading) <==> AnyState(samples, StillLoading)
    ensures var settled := !AnyState(samples, Unavailable) && !AnyState(samples, StillLoading);
      var fallback := AnyOutcome(samples, FallbackAfterLookup) || AnyOutcome(samples, FallbackAfterOperator);
      && (Every(samples, ReproduceAffectedCase) <==> settled && !fallback)
      && (OneOutcome(samples) ==> (Every(samples, InspectProviderCache) <==> settled && fallback))
      && (!fallback ==> OneOutcome(samples))
  {
    forall s | s in samples
      ensures Alone(s) == InspectDiscographyAvailability <==> s.state.Unavailable?
      ensures Alone(s) == InspectClientLoading <==> s.state.StillLoading?
      ensures Alone(s) == InspectProviderCache <==> s.state.Ready? && !s.outcome.LocalProjection?
      ensures Alone(s) == ReproduceAffectedCase <==> s.state.Ready? && s.outcome.LocalProjection?
    {
      AloneExact(s);
    }
    hide Alone;
    assert samples[0] in samples;
  }

  /**
   The action for a batch, in terms of what its samples would be told alone: trouble in one sample decides for all,
   the two settled actions need every sample to agree, and only differing routes lead to an action no sample has alone.
   */
  lemma BatchAgreesWithSamples(samples: seq<Sample>)
    requires samples != []
    ensures var action := Together(samples);
      && (action == InspectDiscographyAvailability <==> Any(samples, InspectDiscographyAvailability))
      && (action == InspectClientLoading <==>
            Any(samples, InspectClientLoading) && !Any(samples, InspectDiscographyAvailability))
      && (action == ReproduceRouteVariation <==>
            !Any(samples, InspectDiscographyAvailability) && !Any(samples, InspectClientLoading)
              && !OneOutcome(samples))
      && (action == InspectProviderCache <==> Every(samples, InspectProviderCache) && OneOutcome(samples))
      && (action == ReproduceAffectedCase <==> Every(samples, ReproduceAffectedCase))
  {
    hide Together, Any, Every, AnyState, AnyOutcome, OneOutcome;
    BatchBranches(samples);
    AloneBranches(samples);
  }

  /** Batches with the same samples in another order are assessed alike. */
  lemma AssessmentIgnoresOrder(a: seq<Sample>, b: seq<Sample>)
    requires a != [] && b != [] && multiset(a) == multiset(b)
    ensures Together(a) == Together(b)
  {
    SummaryPermutes(a, b);
  }

  /** Assessment of evidence as handed in: what fails its contract gets no action. */
  function AssessBatch(raw: RawBatch): Result<Action> {
    var batch :- AssertBatchContract(raw);
    Ok(GetNextAction(Repeated(batch)))
  }

  /** Handed-in evidence gets the action of its samples, whatever its summary claimed. */
  lemma AssessmentFollowsSamples(raw: RawBatch)
    ensures var samples := NormalizeSamples(raw.samples);
      AssessBatch(raw).Ok? ==> samples.Ok? && samples.value != [] && AssessBatch(raw).value == Together(samples.value)
  {
    ContractExact(raw);
    hide AssertBatchContract, NormalizeSamples, SummaryOf;
  }
}
