/**
 The serial collection of browser-validation samples: scripts/browser-validation-sample-collection.js.
 What the service, the clock and the file system answer is a script of replies.
 */
module SampleCollection {
  import opened Common
  import opened StableSort
  import opened EvidenceReview

  datatype Listed = Listed(id: RunId, headSha: Sha, completed: bool)

  /**
   One answer to one call. `at` is the moment the service looked; a call that is answered by something else throws.
   */
  datatype Reply =
    | Threw
    | Clock(now: Time)
    | MainAt(sha: Sha)
    | Listing(at: Time, runs: seq<Listed>)
    | RunAt(at: Time, id: RunId, terminal: Option<WorkflowRun>)
    | Dispatched
    | Downloaded(evidence: Evidence)
    | Saved

  /** An exhausted script is a collector that was stopped. */
  function Head(script: seq<Reply>): Reply {
    if script == [] then Threw else script[0]
  }

  function Tail(script: seq<Reply>): seq<Reply> {
    if script == [] then [] else script[1..]
  }

  // ----- What is taken for granted about the service -----

  type Facts = map<RunId, WorkflowRun>

  function At(reply: Reply, since: Time): Time {
    match reply
    case Listing(at, _) => at
    case RunAt(at, _, _) => at
    case _ => since
  }

  predicate Shows(reply: Reply, id: RunId) {
    reply.Listing? && exists r | r in reply.runs :: r.id == id
  }

  /** Some listing among these replies shows the run. */
  predicate ShownIn(script: seq<Reply>, id: RunId) {
    script != [] && (Shows(script[0], id) || ShownIn(script[1..], id))
  }

  /**
   Time does not run backwards; a run keeps its commit and its times; a run that a listing does not show, and a later
   one does, starts no earlier than the first; a completion that is reported lies in the past.
   */
  ghost predicate Credible(facts: Facts, reply: Reply, since: Time, later: seq<Reply>) {
    && since <= At(reply, since)
    && match reply
       case Listing(at, runs) =>
         && (forall r | r in runs :: r.id in facts && facts[r.id].headSha == r.headSha)
         && (forall id | id in facts && !Shows(reply, id) && ShownIn(later, id) :: at <= facts[id].startedAt)
       case RunAt(at, id, Some(run)) => id in facts && facts[id] == run && run.completedAt <= at
       case _ => true
  }

  ghost predicate Plausible(facts: Facts, script: seq<Reply>, since: Time) {
    script != [] ==>
      Credible(facts, script[0], since, script[1..]) && Plausible(facts, script[1..], At(script[0], since))
  }

  function TimeAfter(script: seq<Reply>, since: Time): Time {
    if script == [] then since else TimeAfter(script[1..], At(script[0], since))
  }

  lemma {:induction false} TimePasses(facts: Facts, script: seq<Reply>, since: Time)
    requires Plausible(facts, script, since)
    ensures since <= TimeAfter(script, since)
  {
    if script != [] {
      TimePasses(facts, script[1..], At(script[0], since));
    }
  }

  /** `rest` at the time `now` is what is left of a script that began at the time `since`. */
  ghost predicate Continues(facts: Facts, script: seq<Reply>, since: Time, rest: seq<Reply>, now: Time) {
    && Plausible(facts, rest, now) && since <= now && |rest| <= |script|
    && TimeAfter(rest, now) == TimeAfter(script, since)
  }

  lemma OneReply(facts: Facts, script: seq<Reply>, since: Time)
    requires Plausible(facts, script, since)
    ensures Continues(facts, script, since, Tail(script), At(Head(script), since))
    ensures Credible(facts, Head(script), since, Tail(script))
    ensures script != [] ==> |Tail(script)| < |script|
    ensures forall id :: ShownIn(Tail(script), id) ==> ShownIn(script, id)
  {
  }

  // ----- What a collection file holds -----

  /** The runs are disjoint in time and listed in that order. */
  predicate InSequence(samples: seq<Sample>) {
    forall i, j | 0 <= i < j < |samples| :: samples[i].workflowRun.completedAt <= samples[j].workflowRun.startedAt
  }

  ghost predicate Serial(samples: seq<Sample>) {
    ValidInput(samples) && InSequence(samples) && OneCommit(samples)
  }

  predicate CompletedBy(samples: seq<Sample>, now: Time) {
    forall s | s in samples :: s.workflowRun.completedAt <= now
  }

  function Samples(file: Option<seq<Sample>>): seq<Sample> {
    if file.Some? then file.value else []
  }

  ghost predicate Retained(file: Option<seq<Sample>>, now: Time) {
    Serial(Samples(file)) && CompletedBy(Samples(file), now)
  }

  // ----- One session -----

  datatype Outcome = Completed | StoppedEarly | Failed

  /** What a session did that can be seen from outside. */
  datatype Action = Looked(runs: seq<Listed>) | Dispatch | Wrote(samples: seq<Sample>)

  function Unknown(knownRunIds: set<RunId>): Listed -> bool {
    (run: Listed) => run.id !in knownRunIds
  }

  /** The runs of a listing that were not known before. */
  function NewRuns(knownRunIds: set<RunId>, workflowRuns: seq<Listed>): seq<Listed> {
    Filter(workflowRuns, Unknown(knownRunIds))
  }

  function GetNewWorkflowRunCandidate(baselineSha: Sha, knownRunIds: set<RunId>,
      workflowRuns: seq<Listed>): (r: Result<Option<Listed>>)
    ensures r == Ok(None) <==> forall run | run in workflowRuns :: run.id in knownRunIds
    ensures r.Ok? && r.value.Some? <==>
      && |NewRuns(knownRunIds, workflowRuns)| == 1
      && forall run | run in workflowRuns && run.id !in knownRunIds :: run.headSha == baselineSha
    ensures r.Ok? && r.value.Some? ==>
      && r.value.value in workflowRuns && r.value.value.id !in knownRunIds
      && forall run | run in workflowRuns && run.id !in knownRunIds :: run == r.value.value
  {
    var newRuns := NewRuns(knownRunIds, workflowRuns);
    assert forall run | run in workflowRuns && run.id !in knownRunIds :: run in newRuns;
    assert newRuns != [] ==> newRuns[0] in newRuns;
    if newRuns == [] then Ok(None)
    else if exists run | run in newRuns :: run.headSha != baselineSha then Rejected
    else if |newRuns| > 1 then Rejected
    else Ok(Some(newRuns[0]))
  }

  // ----- What the script of replies makes of a session -----

  function Discover(script: seq<Reply>, deadline: Time, baselineSha: Sha, knownRunIds: set<RunId>)
    : (Result<Listed>, seq<Reply>)
    decreases |script|
  {
    var listing := Tail(script);
    if !Head(script).Clock? || Head(script).now > deadline then (Rejected, listing)
    else if !Head(listing).Listing? then (Rejected, Tail(listing))
    else
      var candidate := GetNewWorkflowRunCandidate(baselineSha, knownRunIds, Head(listing).runs);
      if candidate.Rejected? then (Rejected, Tail(listing))
      else if candidate.value.Some? then (Ok(candidate.value.value), Tail(listing))
      else Discover(Tail(listing), deadline, baselineSha, knownRunIds)
  }

  function Await(script: seq<Reply>, deadline: Time, runId: RunId): (Result<WorkflowRun>, seq<Reply>)
    decreases |script|
  {
    var report := Tail(script);
    if !Head(script).Clock? || Head(script).now > deadline then (Rejected, report)
    else if !Head(report).RunAt? || Head(report).id != runId then (Rejected, Tail(report))
    else if Head(report).terminal.Some? then (Ok(Head(report).terminal.value), Tail(report))
    else Await(Tail(report), deadline, runId)
  }

  /** The deadline is set by the clock before the first poll. */
  function DiscoverNew(script: seq<Reply>, baselineSha: Sha, knownRunIds: set<RunId>, timeoutMs: int)
    : (Result<Listed>, seq<Reply>)
  {
    if !Head(script).Clock? then (Rejected, Tail(script))
    else Discover(Tail(script), Head(script).now + timeoutMs, baselineSha, knownRunIds)
  }

  function AwaitCompletion(script: seq<Reply>, runId: RunId, timeoutMs: int): (Result<WorkflowRun>, seq<Reply>) {
    if !Head(script).Clock? then (Rejected, Tail(script))
    else Await(Tail(script), Head(script).now + timeoutMs, runId)
  }

  const DISCOVERY_TIMEOUT_MS := 120_000
  const COMPLETION_TIMEOUT_MS := 1_500_000

  /** How one attempt to add a sample ended. */
  datatype Round = Round(ok: bool, evidenced: bool, samples: seq<Sample>, log: seq<Action>, rest: seq<Reply>)

  /** The evidence is downloaded, or is missing; the manifest is checked and written. */
  ghost function Keep(script: seq<Reply>, samples: seq<Sample>, log: seq<Action>, runId: RunId,
      run: WorkflowRun): (r: Round)
    ensures if r.ok then |r.samples| == |samples| + 1 else r.samples == samples
  {
    var evidence := if Head(script).Downloaded? then Some(Head(script).evidence) else None;
    var grown := samples + [Sample(runId, run, evidence)];
    if !ValidInput(grown) then Round(false, evidence.Some?, samples, log, Tail(script))
    else if !Head(Tail(script)).Saved? then Round(false, evidence.Some?, samples, log, Tail(Tail(script)))
    else Round(true, evidence.Some?, grown, log + [Wrote(grown)], Tail(Tail(script)))
  }

  ghost function Recover(script: seq<Reply>, samples: seq<Sample>, log: seq<Action>, runId: RunId, sha: Sha): (r: Round)
    ensures if r.ok then |r.samples| == |samples| + 1 else r.samples == samples
  {
    var report := Head(script);
    if !report.RunAt? || report.id != runId || report.terminal.None? || report.terminal.value.headSha != sha
      || !FollowsRetainedSamples(samples, report.terminal.value, runId)
    then Round(false, false, samples, log, Tail(script))
    else Keep(Tail(script), samples, log, runId, report.terminal.value)
  }

  ghost function OneMore(script: seq<Reply>, samples: seq<Sample>, log: seq<Action>, sha: Sha): (r: Round)
    ensures if r.ok then |r.samples| == |samples| + 1 else r.samples == samples
  {
    if !Head(script).Listing? then Round(false, false, samples, log, Tail(script))
    else
      var runs, looked := Head(script).runs, log + [Looked(Head(script).runs)];
      if !AllCompleted(runs) then Round(false, false, samples, looked, Tail(script))
      else if !Head(Tail(script)).Dispatched? then Round(false, false, samples, looked, Tail(Tail(script)))
      else AfterDispatch(Tail(Tail(script)), samples, looked + [Dispatch], runs, sha)
  }

  ghost function AfterDispatch(script: seq<Reply>, samples: seq<Sample>, log: seq<Action>, runs: seq<Listed>,
      sha: Sha): (r: Round)
    ensures if r.ok then |r.samples| == |samples| + 1 else r.samples == samples
  {
    var (candidate, rest) := DiscoverNew(script, sha, set r | r in runs :: r.id, DISCOVERY_TIMEOUT_MS);
    if candidate.Rejected? then Round(false, false, samples, log, rest)
    else
      var (run, rest) := AwaitCompletion(rest, candidate.value.id, COMPLETION_TIMEOUT_MS);
      if run.Rejected? then Round(false, false, samples, log, rest)
      else Keep(rest, samples, log, candidate.value.id, run.value)
  }

  /** Rounds until the count is reached, a round fails, or a run has no evidence. */
  ghost function Rounds(script: seq<Reply>, samples: seq<Sample>, log: seq<Action>, count: nat, sha: Sha)
    : (Outcome, seq<Sample>, seq<Action>)
    decreases count - |samples|
  {
    if |samples| >= count then (Completed, samples, log)
    else
      var r := OneMore(script, samples, log, sha);
      if !r.ok then (Failed, samples, r.log)
      else if !r.evidenced then (StoppedEarly, r.samples, r.log)
      else Rounds(r.rest, r.samples, r.log, count, sha)
  }

  ghost function SessionOf(samples: seq<Sample>, sampleCount: int, initialRunId: Option<int>,
      script: seq<Reply>): (Outcome, seq<Sample>, seq<Action>) {
    if !(1 <= sampleCount <= REQUIRED_SAMPLE_COUNT) || !Head(script).MainAt? then (Failed, samples, [])
    else
      var sha := Head(script).sha;
      if !OnCommit(samples, sha) || |samples| > sampleCount then (Failed, samples, [])
      else if initialRunId.None? then Rounds(Tail(script), samples, [], sampleCount, sha)
      else if initialRunId.value < 1 || |samples| >= sampleCount then (Failed, samples, [])
      else
        var r := Recover(Tail(script), samples, [], initialRunId.value, sha);
        if !r.ok then (Failed, samples, [])
        else if !r.evidenced then (StoppedEarly, r.samples, r.log)
        else Rounds(r.rest, r.samples, r.log, sampleCount, sha)
  }

  /**
   Samples added since `base` all have evidence, except that a session that stopped early ends with one that has
   none.
   */
  predicate OutcomeShown(base: seq<Sample>, outcome: Outcome, samples: seq<Sample>, count: int) {
    && base <= samples
    && (forall i | |base| <= i < |samples| - (if outcome == StoppedEarly then 1 else 0) :: samples[i].evidence.Some?)
    && (outcome == Completed ==> |samples| == count)
    && (outcome == StoppedEarly ==> |samples| > |base| && samples[|samples| - 1].evidence.None?)
  }

  lemma RoundShown(script: seq<Reply>, samples: seq<Sample>, log: seq<Action>, sha: Sha)
    ensures var r := OneMore(script, samples, log, sha);
      r.ok ==> samples <= r.samples && (r.evidenced <==> r.samples[|samples|].evidence.Some?)
  {
    hide Discover, Await, ValidInput, AllCompleted;
  }

  lemma RecoveryShown(script: seq<Reply>, samples: seq<Sample>, log: seq<Action>, runId: RunId, sha: Sha)
    ensures var r := Recover(script, samples, log, runId, sha);
      r.ok ==> samples <= r.samples && (r.evidenced <==> r.samples[|samples|].evidence.Some?)
  {
    hide FollowsRetainedSamples, ValidInput;
  }

  lemma {:induction false} RoundsShown(script: seq<Reply>, base: seq<Sample>, samples: seq<Sample>, log: seq<Action>,
      count: nat, sha: Sha)
    requires base <= samples && |samples| <= count && forall i | |base| <= i < |samples| :: samples[i].evidence.Some?
    ensures var (outcome, samples', _) := Rounds(script, samples, log, count, sha);
      OutcomeShown(base, outcome, samples', count)
    decreases count - |samples|
  {
    hide OneMore;
    if |samples| < count {
      RoundShown(script, samples, log, sha);
      var r := OneMore(script, samples, log, sha);
      if r.ok && r.evidenced {
        RoundsShown(r.rest, base, r.samples, r.log, count, sha);
      }
    }
  }

  /** What the outcome of a session says about the collection is so. */
  lemma OutcomeTruthful(base: seq<Sample>, sampleCount: int, initialRunId: Option<int>, script: seq<Reply>)
    ensures var (outcome, samples, _) := SessionOf(base, sampleCount, initialRunId, script);
      OutcomeShown(base, outcome, samples, sampleCount)
  {
    hide Recover, Rounds;
    if 1 <= sampleCount <= REQUIRED_SAMPLE_COUNT && Head(script).MainAt? && |base| <= sampleCount {
      var sha := Head(script).sha;
      if initialRunId.None? {
        RoundsShown(Tail(script), base, base, [], sampleCount, sha);
      } else if |base| < sampleCount {
        RecoveryShown(Tail(script), base, [], initialRunId.value, sha);
        var r := Recover(Tail(script), base, [], initialRunId.value, sha);
        if r.ok && r.evidenced {
          RoundsShown(r.rest, base, r.samples, r.log, sampleCount, sha);
        }
      }
    }
  }

  /** Every dispatch is directly behind a look at a listing in which each run was completed. */
  predicate DispatchesIdle(log: seq<Action>) {
    forall i | 0 <= i < |log| && log[i].Dispatch? ::
      i > 0 && log[i - 1].Looked? && forall run | run in log[i - 1].runs :: run.completed
  }

  lemma IdleGrows(log: seq<Action>, action: Action)
    requires DispatchesIdle(log)
    requires action.Dispatch? ==>
      log != [] && log[|log| - 1].Looked? && forall r | r in log[|log| - 1].runs :: r.completed
    ensures DispatchesIdle(log + [action])
  {
  }

  lemma RoundIdle(script: seq<Reply>, samples: seq<Sample>, log: seq<Action>, sha: Sha)
    requires DispatchesIdle(log)
    ensures DispatchesIdle(OneMore(script, samples, log, sha).log)
  {
    hide Discover, Await, ValidInput, DispatchesIdle;
    if Head(script).Listing? {
      var runs, looked := Head(script).runs, log + [Looked(Head(script).runs)];
      IdleGrows(log, Looked(runs));
      if AllCompleted(runs) {
        IdleGrows(looked, Dispatch);
        forall written
          ensures DispatchesIdle(looked + [Dispatch] + [Wrote(written)])
        {
          IdleGrows(looked + [Dispatch], Wrote(written));
        }
      }
    }
  }

  lemma {:induction false} RoundsIdle(script: seq<Reply>, samples: seq<Sample>, log: seq<Action>, count: nat, sha: Sha)
    requires DispatchesIdle(log)
    ensures DispatchesIdle(Rounds(script, samples, log, count, sha).2)
    decreases count - |samples|
  {
    hide OneMore, DispatchesIdle;
    if |samples| < count {
      RoundIdle(script, samples, log, sha);
      var r := OneMore(script, samples, log, sha);
      if r.ok && r.evidenced {
        RoundsIdle(r.rest, r.samples, r.log, count, sha);
      }
    }
  }

  /** Whatever the service answers: no session dispatches the workflow while a listed run is active. */
  lemma SessionsDispatchIdle(samples: seq<Sample>, sampleCount: int, initialRunId: Option<int>, script: seq<Reply>)
    ensures DispatchesIdle(SessionOf(samples, sampleCount, initialRunId, script).2)
  {
    hide OneMore, Rounds, ValidInput, FollowsRetainedSamples;
    if 1 <= sampleCount && Head(script).MainAt? {
      var sha := Head(script).sha;
      RoundsIdle(Tail(script), samples, [], sampleCount, sha);
      if initialRunId.Some? {
        var r := Recover(Tail(script), samples, [], initialRunId.value, sha);
        RoundsIdle(r.rest, r.samples, r.log, sampleCount, sha);
      }
    }
  }

  /** A round that meets an active run fails there: it has looked, and neither dispatched nor written. */
  lemma ActiveRunStops(script: seq<Reply>, samples: seq<Sample>, log: seq<Action>, sha: Sha, run: Listed)
    requires Head(script).Listing? && run in Head(script).runs && !run.completed
    ensures OneMore(script, samples, log, sha)
      == Round(false, false, samples, log + [Looked(Head(script).runs)], Tail(script))
  {
  }

  /** A round that meets no active run dispatches the workflow, provided that the service takes it. */
  lemma IdleListingDispatches(script: seq<Reply>, samples: seq<Sample>, log: seq<Action>, sha: Sha)
    requires Head(script).Listing? && (forall run | run in Head(script).runs :: run.completed)
    requires Head(Tail(script)).Dispatched?
    ensures log + [Looked(Head(script).runs), Dispatch] <= OneMore(script, samples, log, sha).log
  {
    hide Discover, Await, ValidInput;
    assert log + [Looked(Head(script).runs)] + [Dispatch] == log + [Looked(Head(script).runs), Dispatch];
  }

  // ----- Which replies make a sample -----

  /** Reply i is a reading of the clock within the deadline. */
  predicate InTime(script: seq<Reply>, i: nat, deadline: Time) {
    i < |script| && script[i].Clock? && script[i].now <= deadline
  }

  /** The run is the only entry that was not known, and it is on the commit. */
  predicate OnlyNew(runs: seq<Listed>, known: set<RunId>, sha: Sha, run: Listed) {
    run.id !in known && run.headSha == sha &&
    exists n: nat | n < |runs| :: runs[n] == run && forall m: nat | m < |runs| && m != n :: runs[m].id in known
  }

  /** Poll k of the listing shows known runs alone. */
  predicate NothingNew(script: seq<Reply>, k: nat, deadline: Time, known: set<RunId>) {
    && InTime(script, 2 * k, deadline) && 2 * k + 1 < |script| && script[2 * k + 1].Listing?
    && forall r | r in script[2 * k + 1].runs :: r.id in known
  }

  /** Behind a polls without anything new, one in which the run is new. */
  predicate FoundAfter(script: seq<Reply>, a: nat, deadline: Time, sha: Sha, known: set<RunId>, run: Listed) {
    && (forall k: nat | k < a :: NothingNew(script, k, deadline, known))
    && InTime(script, 2 * a, deadline) && 2 * a + 1 < |script| && script[2 * a + 1].Listing?
    && OnlyNew(script[2 * a + 1].runs, known, sha, run)
  }

  /** Poll k of the run says that it goes on. */
  predicate StillGoing(script: seq<Reply>, k: nat, deadline: Time, runId: RunId) {
    && InTime(script, 2 * k, deadline) && 2 * k + 1 < |script|
    && script[2 * k + 1].RunAt? && script[2 * k + 1].id == runId && script[2 * k + 1].terminal.None?
  }

  /** Behind b polls of a run that goes on, one that tells how it ended. */
  predicate EndedAfter(script: seq<Reply>, b: nat, deadline: Time, runId: RunId, run: WorkflowRun) {
    && (forall k: nat | k < b :: StillGoing(script, k, deadline, runId))
    && InTime(script, 2 * b, deadline) && 2 * b + 1 < |script|
    && script[2 * b + 1].RunAt? && script[2 * b + 1].id == runId && script[2 * b + 1].terminal == Some(run)
  }

  lemma OnlyNewExact(runs: seq<Listed>, known: set<RunId>, sha: Sha, run: Listed)
    ensures GetNewWorkflowRunCandidate(sha, known, runs) == Ok(Some(run)) <==> OnlyNew(runs, known, sha, run)
  {
    hide Filter;
    if GetNewWorkflowRunCandidate(sha, known, runs) == Ok(Some(run)) {
      var n: nat :| n < |runs| && runs[n] == run;
      SingleKept(runs, Unknown(known), n);
    } else if OnlyNew(runs, known, sha, run) {
      var n: nat :| n < |runs| && runs[n] == run && forall m: nat | m < |runs| && m != n :: runs[m].id in known;
      OnlyKept(runs, Unknown(known), n);
    }
  }

  // The polls behind the first one.
  lemma NextPolls(script: seq<Reply>, deadline: Time, known: set<RunId>, runId: RunId)
    requires |script| >= 2
    ensures forall k: nat :: NothingNew(script[2..], k, deadline, known) <==> NothingNew(script, k + 1, deadline, known)
    ensures forall k: nat :: StillGoing(script[2..], k, deadline, runId) <==> StillGoing(script, k + 1, deadline, runId)
  {
  }

  lemma {:induction false} DiscoverExact(script: seq<Reply>, a: nat, deadline: Time, sha: Sha, known: set<RunId>,
      run: Listed)
    ensures FoundAfter(script, a, deadline, sha, known, run) ==>
      2 * a + 1 < |script| && Discover(script, deadline, sha, known) == (Ok(run), script[2 * a + 2..])
    decreases a
  {
    hide GetNewWorkflowRunCandidate, OnlyNew;
    if FoundAfter(script, a, deadline, sha, known, run) {
      if a == 0 {
        OnlyNewExact(script[1].runs, known, sha, run);
      } else {
        assert NothingNew(script, 0, deadline, known);
        NextPolls(script, deadline, known, run.id);
        assert FoundAfter(script[2..], a - 1, deadline, sha, known, run);
        DiscoverExact(script[2..], a - 1, deadline, sha, known, run);
        assert script[2..][2 * (a - 1) + 2..] == script[2 * a + 2..];
      }
    }
  }

  lemma {:induction false} DiscoveredAfter(script: seq<Reply>, deadline: Time, sha: Sha, known: set<RunId>)
    returns (a: nat)
    requires Discover(script, deadline, sha, known).0.Ok?
    ensures FoundAfter(script, a, deadline, sha, known, Discover(script, deadline, sha, known).0.value)
    decreases |script|
  {
    hide GetNewWorkflowRunCandidate, OnlyNew;
    var run := Discover(script, deadline, sha, known).0.value;
    OnlyNewExact(script[1].runs, known, sha, run);
    if GetNewWorkflowRunCandidate(sha, known, script[1].runs).value.Some? {
      a := 0;
    } else {
      var later := DiscoveredAfter(script[2..], deadline, sha, known);
      a := later + 1;
      NextPolls(script, deadline, known, run.id);
      assert NothingNew(script, 0, deadline, known);
      forall k: nat | k < a
        ensures NothingNew(script, k, deadline, known)
      {
        assert k > 0 ==> NothingNew(script[2..], k - 1, deadline, known);
      }
    }
  }

  lemma {:induction false} AwaitExact(script: seq<Reply>, b: nat, deadline: Time, runId: RunId, run: WorkflowRun)
    ensures EndedAfter(script, b, deadline, runId, run) ==>
      2 * b + 1 < |script| && Await(script, deadline, runId) == (Ok(run), script[2 * b + 2..])
    decreases b
  {
    if EndedAfter(script, b, deadline, runId, run) && b > 0 {
      assert StillGoing(script, 0, deadline, runId);
      NextPolls(script, deadline, {}, runId);
      assert EndedAfter(script[2..], b - 1, deadline, runId, run);
      AwaitExact(script[2..], b - 1, deadline, runId, run);
      assert script[2..][2 * (b - 1) + 2..] == script[2 * b + 2..];
    }
  }

  lemma {:induction false} AwaitedAfter(script: seq<Reply>, deadline: Time, runId: RunId) returns (b: nat)
    requires Await(script, deadline, runId).0.Ok?
    ensures EndedAfter(script, b, deadline, runId, Await(script, deadline, runId).0.value)
    decreases |script|
  {
    if script[1].terminal.Some? {
      b := 0;
    } else {
      var later := AwaitedAfter(script[2..], deadline, runId);
      b := later + 1;
      NextPolls(script, deadline, {}, runId);
      assert StillGoing(script, 0, deadline, runId);
      forall k: nat | k < b
        ensures StillGoing(script, k, deadline, runId)
      {
        assert k > 0 ==> StillGoing(script[2..], k - 1, deadline, runId);
      }
    }
  }

  /** Replies k and k + 1 are the download, or its failure, and the write of the samples with this one. */
  ghost predicate KeptAt(script: seq<Reply>, k: nat, samples: seq<Sample>, sample: Sample) {
    && k + 1 < |script| && script[k + 1].Saved? && ValidInput(samples + [sample])
    && sample.evidence == if script[k].Downloaded? then Some(script[k].evidence) else None
  }

  lemma KeptBehind(script: seq<Reply>, k: nat, j: nat, samples: seq<Sample>, sample: Sample)
    requires k <= |script|
    ensures KeptAt(script[k..], j, samples, sample) <==> KeptAt(script, k + j, samples, sample)
  {
    hide ValidInput;
  }

  lemma KeptEvidence(script: seq<Reply>, k: nat, samples: seq<Sample>, sample: Sample)
    requires KeptAt(script, k, samples, sample)
    ensures k + 1 < |script| && sample.evidence == if script[k].Downloaded? then Some(script[k].evidence) else None
  {
  }

  lemma KeepExact(script: seq<Reply>, samples: seq<Sample>, log: seq<Action>, sample: Sample)
    requires sample.evidence == if Head(script).Downloaded? then Some(Head(script).evidence) else None
    ensures var r := Keep(script, samples, log, sample.runId, sample.workflowRun);
      && (r.ok <==> KeptAt(script, 0, samples, sample))
      && (r.ok ==> r == Round(true, sample.evidence.Some?, samples + [sample], log + [Wrote(samples + [sample])],
            script[2..]))
  {
    hide ValidInput;
  }

  /**
   The replies of a round that adds a sample: an idle listing and a dispatch that is taken; within two minutes the run,
   new in the listing; within twenty-five minutes the run as it ended; the evidence or none; and the write.
   */
  ghost predicate Collects(script: seq<Reply>, samples: seq<Sample>, sha: Sha, a: nat, b: nat, listed: Listed,
      sample: Sample) {
    && |script| > 2 && script[0].Listing? && (forall run | run in script[0].runs :: run.completed)
    && script[1].Dispatched? && script[2].Clock? && sample.runId == listed.id
    && FoundAfter(script[3..], a, script[2].now + 120_000, sha, set run | run in script[0].runs :: run.id, listed)
    && var k := 2 * a + 5;
       && k < |script| && script[k].Clock?
       && EndedAfter(script[k + 1..], b, script[k].now + 1_500_000, listed.id, sample.workflowRun)
       && KeptAt(script, k + 2 * b + 3, samples, sample)
  }

  ghost predicate CollectsSome(script: seq<Reply>, samples: seq<Sample>, sha: Sha) {
    exists a: nat, b: nat, listed, sample :: Collects(script, samples, sha, a, b, listed, sample)
  }

  /** What such a round comes to. */
  lemma CollectsGives(script: seq<Reply>, samples: seq<Sample>, log: seq<Action>, sha: Sha, a: nat, b: nat,
      listed: Listed, sample: Sample)
    requires Collects(script, samples, sha, a, b, listed, sample)
    ensures OneMore(script, samples, log, sha)
      == Round(true, sample.evidence.Some?, samples + [sample],
               log + [Looked(script[0].runs), Dispatch, Wrote(samples + [sample])], script[2 * a + 2 * b + 10..])
  {
    hide Discover, Await, FoundAfter, EndedAfter, KeptAt, Keep;
    var known := set run | run in script[0].runs :: run.id;
    var k := 2 * a + 5;
    var looked := log + [Looked(script[0].runs)];
    DiscoverExact(script[3..], a, script[2].now + 120_000, sha, known, listed);
    assert script[3..][2 * a + 2..] == script[k..];
    AwaitExact(script[k + 1..], b, script[k].now + 1_500_000, listed.id, sample.workflowRun);
    assert script[k + 1..][2 * b + 2..] == script[k + 2 * b + 3..];
    KeptBehind(script, k + 2 * b + 3, 0, samples, sample);
    KeptEvidence(script, k + 2 * b + 3, samples, sample);
    KeepExact(script[k + 2 * b + 3..], samples, looked + [Dispatch], sample);
    assert Tail(Tail(script)) == script[2..] && Tail(script[2..]) == script[3..];
    assert Tail(script[k..]) == script[k + 1..];
  }

  /** A round adds a sample if and only if its replies are of this kind. */
  lemma RoundExact(script: seq<Reply>, samples: seq<Sample>, log: seq<Action>, sha: Sha)
    ensures OneMore(script, samples, log, sha).ok <==> CollectsSome(script, samples, sha)
  {
    if OneMore(script, samples, log, sha).ok {
      AddedCollects(script, samples, log, sha);
    } else if CollectsSome(script, samples, sha) {
      var a: nat, b: nat, listed, sample :| Collects(script, samples, sha, a, b, listed, sample);
      CollectsGives(script, samples, log, sha, a, b, listed, sample);
    }
  }

  lemma EndedAndKept(script: seq<Reply>, samples: seq<Sample>, log: seq<Action>, runId: RunId)
    returns (b: nat, sample: Sample)
    requires AwaitCompletion(script, runId, COMPLETION_TIMEOUT_MS).0.Ok?
    requires var (run, rest) := AwaitCompletion(script, runId, COMPLETION_TIMEOUT_MS);
      Keep(rest, samples, log, runId, run.value).ok
    ensures script != [] && script[0].Clock? && sample.runId == runId
    ensures EndedAfter(script[1..], b, script[0].now + 1_500_000, runId, sample.workflowRun)
    ensures KeptAt(script, 2 * b + 3, samples, sample)
  {
    hide Await, EndedAfter, KeptAt, Keep;
    var (run, rest) := AwaitCompletion(script, runId, COMPLETION_TIMEOUT_MS);
    b := AwaitedAfter(script[1..], script[0].now + 1_500_000, runId);
    AwaitExact(script[1..], b, script[0].now + 1_500_000, runId, run.value);
    assert script[1..][2 * b + 2..] == script[2 * b + 3..] == rest;
    sample := Sample(runId, run.value, if Head(rest).Downloaded? then Some(Head(rest).evidence) else None);
    KeptBehind(script, 2 * b + 3, 0, samples, sample);
    KeepExact(rest, samples, log, sample);
  }

  lemma AddedCollects(script: seq<Reply>, samples: seq<Sample>, log: seq<Action>, sha: Sha)
    requires OneMore(script, samples, log, sha).ok
    ensures CollectsSome(script, samples, sha)
  {
    hide Discover, AwaitCompletion, FoundAfter, EndedAfter, KeptAt, Keep;
    var known := set run | run in script[0].runs :: run.id;
    var (candidate, rest) := DiscoverNew(script[2..], sha, known, DISCOVERY_TIMEOUT_MS);
    var listed := candidate.value;
    var a := DiscoveredAfter(script[3..], script[2].now + 120_000, sha, known);
    DiscoverExact(script[3..], a, script[2].now + 120_000, sha, known, listed);
    var k := 2 * a + 5;
    assert script[3..][2 * a + 2..] == script[k..] == rest;
    var b, sample := EndedAndKept(rest, samples, log + [Looked(script[0].runs)] + [Dispatch], listed.id);
    KeptBehind(script, k, 2 * b + 3, samples, sample);
    assert rest[1..] == script[k + 1..];
    assert Collects(script, samples, sha, a, b, listed, sample);
  }

  /** The reply and what follows it make a sample of the run that was asked for, if it may follow the others. */
  ghost predicate Recovers(script: seq<Reply>, samples: seq<Sample>, runId: RunId, sha: Sha, sample: Sample) {
    && script != [] && script[0].RunAt? && script[0].id == runId == sample.runId
    && script[0].terminal == Some(sample.workflowRun) && sample.workflowRun.headSha == sha
    && (forall s | s in samples ::
          s.runId != runId && s.workflowRun.completedAt <= sample.workflowRun.startedAt)
    && KeptAt(script, 1, samples, sample)
  }

  /** Taking over a run adds a sample if and only if the replies are of this kind. */
  lemma RecoverExact(script: seq<Reply>, samples: seq<Sample>, log: seq<Action>, runId: RunId, sha: Sha)
    ensures var r := Recover(script, samples, log, runId, sha);
      && (r.ok <==> exists sample :: Recovers(script, samples, runId, sha, sample))
      && forall sample | Recovers(script, samples, runId, sha, sample) ::
           r == Round(true, sample.evidence.Some?, samples + [sample], log + [Wrote(samples + [sample])], script[3..])
  {
    hide Keep, ValidInput;
    var report := Head(script);
    if report.RunAt? && report.terminal.Some? {
      var run := report.terminal.value;
      var evidence := if Head(script[1..]).Downloaded? then Some(Head(script[1..]).evidence) else None;
      var sample := Sample(runId, run, evidence);
      KeepExact(script[1..], samples, log, sample);
      if samples != [] {
        LatestCompletionIsLatest(samples, run.startedAt);
      }
      assert KeptAt(script, 1, samples, sample) <==> KeptAt(script[1..], 0, samples, sample);
      assert Recover(script, samples, log, runId, sha).ok ==> Recovers(script, samples, runId, sha, sample);
    }
  }

  // ----- Which replies make a session -----

  /** The samples are added one behind the other, each from the replies that the one before it left. */
  ghost predicate CollectsAll(script: seq<Reply>, samples: seq<Sample>, added: seq<Sample>, sha: Sha)
    decreases |added|
  {
    added == [] || exists a: nat, b: nat, listed ::
      && Collects(script, samples, sha, a, b, listed, added[0]) && 2 * a + 2 * b + 10 <= |script|
      && CollectsAll(script[2 * a + 2 * b + 10..], samples + [added[0]], added[1..], sha)
  }

  /** The count is reached with evidence throughout, or the last sample, and only that, has none. */
  predicate Ended(outcome: Outcome, samples: seq<Sample>, added: seq<Sample>, count: int) {
    match outcome
    case Completed => |samples| + |added| == count && forall s | s in added :: s.evidence.Some?
    case StoppedEarly =>
      && added != [] && |samples| + |added| <= count && added[|added| - 1].evidence.None?
      && forall s | s in added[..|added| - 1] :: s.evidence.Some?
    case Failed => false
  }

  ghost predicate Adds(script: seq<Reply>, samples: seq<Sample>, added: seq<Sample>, sha: Sha, count: int,
      outcome: Outcome) {
    CollectsAll(script, samples, added, sha) && Ended(outcome, samples, added, count)
  }

  lemma {:induction false} AddsGives(script: seq<Reply>, samples: seq<Sample>, added: seq<Sample>, log: seq<Action>,
      count: nat, sha: Sha, outcome: Outcome)
    requires Adds(script, samples, added, sha, count, outcome)
    ensures var (o, s, _) := Rounds(script, samples, log, count, sha); o == outcome && s == samples + added
    decreases |added|
  {
    hide OneMore, Collects;
    if added != [] {
      var a: nat, b: nat, listed :|
        && Collects(script, samples, sha, a, b, listed, added[0]) && 2 * a + 2 * b + 10 <= |script|
        && CollectsAll(script[2 * a + 2 * b + 10..], samples + [added[0]], added[1..], sha);
      CollectsGives(script, samples, log, sha, a, b, listed, added[0]);
      var r := OneMore(script, samples, log, sha);
      assert added == [added[0]] + added[1..];
      if r.evidenced {
        EndedNext(outcome, samples, added, count);
        AddsGives(r.rest, r.samples, added[1..], r.log, count, sha, outcome);
        assert samples + [added[0]] + added[1..] == samples + added;
      }
    }
  }

  lemma EndedNext(outcome: Outcome, samples: seq<Sample>, added: seq<Sample>, count: nat)
    requires added != [] && added[0].evidence.Some?
    ensures Ended(outcome, samples, added, count) <==> Ended(outcome, samples + [added[0]], added[1..], count)
  {
    if |added| > 1 {
      assert added[..|added| - 1] == [added[0]] + added[1..][..|added[1..]| - 1];
    }
    assert added == [added[0]] + added[1..];
  }

  lemma {:induction false} RoundsAdd(script: seq<Reply>, samples: seq<Sample>, log: seq<Action>, count: nat, sha: Sha)
    returns (added: seq<Sample>)
    requires |samples| <= count && Rounds(script, samples, log, count, sha).0 != Failed
    ensures Adds(script, samples, added, sha, count, Rounds(script, samples, log, count, sha).0)
    decreases count - |samples|
  {
    hide OneMore, Collects;
    added := [];
    if |samples| < count {
      RoundExact(script, samples, log, sha);
      var a: nat, b: nat, listed, sample :| Collects(script, samples, sha, a, b, listed, sample);
      CollectsGives(script, samples, log, sha, a, b, listed, sample);
      CollectsEnd(script, samples, sha, a, b, listed, sample);
      var r := OneMore(script, samples, log, sha);
      if r.evidenced {
        var later := RoundsAdd(r.rest, r.samples, r.log, count, sha);
        added := [sample] + later;
        AddedFirst(script, samples, sha, a, b, listed, sample, later);
        EndedNext(Rounds(script, samples, log, count, sha).0, samples, added, count);
      } else {
        added := [sample] + [];
        AddedFirst(script, samples, sha, a, b, listed, sample, []);
        assert added[..0] == [];
      }
    }
  }

  lemma AddedFirst(script: seq<Reply>, samples: seq<Sample>, sha: Sha, a: nat, b: nat, listed: Listed, sample: Sample,
      later: seq<Sample>)
    requires Collects(script, samples, sha, a, b, listed, sample) && 2 * a + 2 * b + 10 <= |script|
    requires CollectsAll(script[2 * a + 2 * b + 10..], samples + [sample], later, sha)
    ensures CollectsAll(script, samples, [sample] + later, sha) && ([sample] + later)[1..] == later
  {
    hide Collects;
    var added := [sample] + later;
    assert added[0] == sample && added[1..] == later;
  }

  lemma CollectsEnd(script: seq<Reply>, samples: seq<Sample>, sha: Sha, a: nat, b: nat, listed: Listed, sample: Sample)
    requires Collects(script, samples, sha, a, b, listed, sample)
    ensures 2 * a + 2 * b + 10 <= |script|
  {
  }

  /** A session may begin: the count is one of 1 to 10, not exceeded, and the samples are on the head of the branch. */
  predicate Begins(script: seq<Reply>, samples: seq<Sample>, sampleCount: int) {
    && 1 <= sampleCount <= 10 && |samples| <= sampleCount && script != [] && script[0].MainAt?
    && forall s | s in samples :: s.workflowRun.headSha == script[0].sha
  }

  /**
   A session ends without failing if and only if it may begin and its replies are those of samples that are added one
   behind the other, up to the count or to the first without evidence; it leaves just these.
   */
  lemma SessionExact(samples: seq<Sample>, sampleCount: int, script: seq<Reply>, outcome: Outcome)
    requires outcome != Failed
    ensures var (o, s, _) := SessionOf(samples, sampleCount, None, script);
      && (o == outcome <==>
        && Begins(script, samples, sampleCount)
        && exists added :: Adds(script[1..], samples, added, script[0].sha, sampleCount, outcome))
      && forall added | Begins(script, samples, sampleCount)
           && Adds(script[1..], samples, added, script[0].sha, sampleCount, outcome) :: s == samples + added
  {
    hide Rounds, Adds;
    if Begins(script, samples, sampleCount) {
      var sha := script[0].sha;
      forall added | Adds(script[1..], samples, added, sha, sampleCount, outcome)
        ensures var (o, s, _) := Rounds(script[1..], samples, [], sampleCount, sha);
          o == outcome && s == samples + added
      {
        AddsGives(script[1..], samples, added, [], sampleCount, sha, outcome);
      }
      if Rounds(script[1..], samples, [], sampleCount, sha).0 == outcome {
        var added := RoundsAdd(script[1..], samples, [], sampleCount, sha);
      }
    }
  }

  /** The first reply is of a run that is taken over, and the session goes on, or stops, from there. */
  ghost predicate TakesOver(script: seq<Reply>, samples: seq<Sample>, runId: int, sample: Sample, added: seq<Sample>,
      sampleCount: int, outcome: Outcome)
    requires script != [] && script[0].MainAt?
  {
    && runId >= 1 && |samples| < sampleCount && Recovers(script[1..], samples, runId, script[0].sha, sample)
    && if sample.evidence.None? then outcome == StoppedEarly && added == []
       else |script| >= 4 && Adds(script[4..], samples + [sample], added, script[0].sha, sampleCount, outcome)
  }

  /** The same for a session that first takes over a run. */
  lemma TakeoverExact(samples: seq<Sample>, sampleCount: int, runId: int, script: seq<Reply>, outcome: Outcome)
    requires outcome != Failed
    ensures var (o, s, _) := SessionOf(samples, sampleCount, Some(runId), script);
      && (o == outcome <==>
        && Begins(script, samples, sampleCount)
        && exists sample, added :: TakesOver(script, samples, runId, sample, added, sampleCount, outcome))
      && forall sample, added | Begins(script, samples, sampleCount)
           && TakesOver(script, samples, runId, sample, added, sampleCount, outcome) :: s == samples + [sample] + added
  {
    hide Rounds, Adds, Recover, Recovers;
    if Begins(script, samples, sampleCount) && runId >= 1 && |samples| < sampleCount {
      var sha := script[0].sha;
      RecoverExact(script[1..], samples, [], runId, sha);
      var r := Recover(script[1..], samples, [], runId, sha);
      forall sample, added | TakesOver(script, samples, runId, sample, added, sampleCount, outcome)
        ensures var (o, s, _) := SessionOf(samples, sampleCount, Some(runId), script);
          o == outcome && s == samples + [sample] + added
      {
        if sample.evidence.Some? {
          assert script[1..][3..] == script[4..];
          AddsGives(script[4..], samples + [sample], added, r.log, sampleCount, sha, outcome);
        }
      }
      if SessionOf(samples, sampleCount, Some(runId), script).0 == outcome {
        var sample :| Recovers(script[1..], samples, runId, sha, sample);
        RecoversEnd(script[1..], samples, runId, sha, sample);
        assert script[1..][3..] == script[4..];
        var added := [];
        if sample.evidence.Some? {
          added := RoundsAdd(script[4..], samples + [sample], r.log, sampleCount, sha);
        }
        assert TakesOver(script, samples, runId, sample, added, sampleCount, outcome);
      }
    }
  }

  lemma RecoversEnd(script: seq<Reply>, samples: seq<Sample>, runId: RunId, sha: Sha, sample: Sample)
    requires Recovers(script, samples, runId, sha, sample)
    ensures |script| >= 3
  {
  }

  /** Polls the listing until a run appears that the listing before the dispatch did not show. */
  method WaitForNewWorkflowRun(ghost facts: Facts, ghost since: Time, script: seq<Reply>, baselineSha: Sha,
      knownRunIds: set<RunId>, timeoutMs: int)
    returns (r: Result<Listed>, rest: seq<Reply>, ghost now: Time)
    requires Plausible(facts, script, since)
    ensures (r, rest) == DiscoverNew(script, baselineSha, knownRunIds, timeoutMs)
    ensures Continues(facts, script, since, rest, now)
    ensures r.Ok? ==> r.value.id !in knownRunIds && r.value.id in facts && facts[r.value.id].headSha == baselineSha
    ensures r.Ok? ==> ShownIn(script, r.value.id)
  {
    rest, now := script, since;
    OneReply(facts, rest, now);
    var started := Head(rest);
    rest, now := Tail(rest), At(Head(rest), now);
    if !started.Clock? {
      return Rejected, rest, now;
    }
    while true
      invariant Continues(facts, script, since, rest, now)
      invariant forall id :: ShownIn(rest, id) ==> ShownIn(script, id)
      invariant Discover(rest, started.now + timeoutMs, baselineSha, knownRunIds)
        == DiscoverNew(script, baselineSha, knownRunIds, timeoutMs)
      decreases |rest|
    {
      OneReply(facts, rest, now);
      var clock := Head(rest);
      rest, now := Tail(rest), At(Head(rest), now);
      if !clock.Clock? || clock.now > started.now + timeoutMs {
        return Rejected, rest, now;
      }
      OneReply(facts, rest, now);
      var listing := Head(rest);
      ghost var before, shown := now, rest;
      rest, now := Tail(rest), At(Head(rest), now);
      if !listing.Listing? {
        return Rejected, rest, now;
      }
      var candidate := GetNewWorkflowRunCandidate(baselineSha, knownRunIds, listing.runs);
      if candidate.Rejected? {
        return Rejected, rest, now;
      }
      if candidate.value.Some? {
        assert Credible(facts, listing, before, rest);
        assert Shows(listing, candidate.value.value.id) && ShownIn(shown, candidate.value.value.id);
        return Ok(candidate.value.value), rest, now;
      }
    }
  }

  /** Polls one run until it is reported in a terminal state. */
  method WaitForWorkflowCompletion(ghost facts: Facts, ghost since: Time, script: seq<Reply>, runId: RunId,
      timeoutMs: int)
    returns (r: Result<WorkflowRun>, rest: seq<Reply>, ghost now: Time)
    requires Plausible(facts, script, since)
    ensures (r, rest) == AwaitCompletion(script, runId, timeoutMs)
    ensures Continues(facts, script, since, rest, now)
    ensures r.Ok? ==> runId in facts && r.value == facts[runId] && r.value.completedAt <= now
  {
    rest, now := script, since;
    OneReply(facts, rest, now);
    var started := Head(rest);
    rest, now := Tail(rest), At(Head(rest), now);
    if !started.Clock? {
      return Rejected, rest, now;
    }
    while true
      invariant Continues(facts, script, since, rest, now)
      invariant Await(rest, started.now + timeoutMs, runId) == AwaitCompletion(script, runId, timeoutMs)
      decreases |rest|
    {
      OneReply(facts, rest, now);
      var clock := Head(rest);
      rest, now := Tail(rest), At(Head(rest), now);
      if !clock.Clock? || clock.now > started.now + timeoutMs {
        return Rejected, rest, now;
      }
      OneReply(facts, rest, now);
      var report := Head(rest);
      ghost var before := now;
      rest, now := Tail(rest), At(Head(rest), now);
      if !report.RunAt? || report.id != runId {
        return Rejected, rest, now;
      }
      if report.terminal.Some? {
        assert Credible(facts, report, before, rest);
        return Ok(report.terminal.value), rest, now;
      }
    }
  }

  function LatestCompletion(samples: seq<Sample>): Time
    requires samples != []
  {
    var last := samples[|samples| - 1].workflowRun.completedAt;
    if |samples| == 1 then last
    else
      var earlier := LatestCompletion(samples[..|samples| - 1]);
      if earlier < last then last else earlier
  }

  /** A recovered run may not be one that is retained, nor start before the retained ones completed. */
  predicate FollowsRetainedSamples(samples: seq<Sample>, workflowRun: WorkflowRun, runId: RunId) {
    && (forall s | s in samples :: s.runId != runId)
    && (samples != [] ==> LatestCompletion(samples) <= workflowRun.startedAt)
  }

  lemma {:induction false} LatestCompletionIsLatest(samples: seq<Sample>, t: Time)
    requires samples != []
    ensures LatestCompletion(samples) <= t <==> CompletedBy(samples, t)
  {
    var init := samples[..|samples| - 1];
    assert samples == init + [samples[|samples| - 1]];
    if init != [] {
      LatestCompletionIsLatest(init, t);
    }
  }

  method SourceCommitIs(samples: seq<Sample>, baselineSha: Sha) returns (ok: bool)
    ensures ok <==> OnCommit(samples, baselineSha)
  {
    for i := 0 to |samples|
      invariant OnCommit(samples[..i], baselineSha)
    {
      if samples[i].workflowRun.headSha != baselineSha {
        assert samples[i] in samples;
        return false;
      }
      assert samples[..i + 1] == samples[..i] + [samples[i]];
    }
    assert samples[..|samples|] == samples;
    return true;
  }

  predicate OnCommit(samples: seq<Sample>, sha: Sha) {
    forall s | s in samples :: s.workflowRun.headSha == sha
  }

  // ----- The log of a session -----

  /** The manifest after the logged actions. */
  function Latest(base: seq<Sample>, log: seq<Action>): seq<Sample> {
    if log == [] then base
    else if log[|log| - 1].Wrote? then log[|log| - 1].samples
    else Latest(base, log[..|log| - 1])
  }

  predicate AllCompleted(runs: seq<Listed>) {
    forall r | r in runs :: r.completed
  }

  /**
   Every manifest written is serial, within the count, and the one before it with one more sample; every dispatch
   follows an idle listing.
   */
  ghost predicate GoodLog(base: seq<Sample>, log: seq<Action>, count: nat) {
    if log == [] then true
    else
      var init, last := log[..|log| - 1], log[|log| - 1];
      && GoodLog(base, init, count)
      && match last
         case Looked(_) => true
         case Dispatch => init != [] && init[|init| - 1].Looked? && AllCompleted(init[|init| - 1].runs)
         case Wrote(samples) =>
           && Serial(samples) && |samples| <= count
           && samples != [] && samples[..|samples| - 1] == Latest(base, init)
  }

  lemma LogGrows(base: seq<Sample>, log: seq<Action>, action: Action, count: nat)
    requires GoodLog(base, log, count)
    requires action.Wrote? ==>
      Serial(action.samples) && |action.samples| <= count && action.samples != []
        && action.samples[..|action.samples| - 1] == Latest(base, log)
    requires action.Dispatch? ==> log != [] && log[|log| - 1].Looked? && AllCompleted(log[|log| - 1].runs)
    ensures GoodLog(base, log + [action], count)
    ensures Latest(base, log + [action]) == if action.Wrote? then action.samples else Latest(base, log)
  {
  }

  /** The collection as it stands inside a session: what is retained is what was last written. */
  ghost predicate Collecting(base: seq<Sample>, log: seq<Action>, count: nat, samples: seq<Sample>, sha: Sha,
      now: Time) {
    && GoodLog(base, log, count) && Latest(base, log) == samples
    && Serial(samples) && OnCommit(samples, sha) && CompletedBy(samples, now)
  }

  lemma TimeMoves(base: seq<Sample>, log: seq<Action>, count: nat, samples: seq<Sample>, sha: Sha, now: Time,
      later: Time)
    requires Collecting(base, log, count, samples, sha, now) && now <= later
    ensures Collecting(base, log, count, samples, sha, later)
  {
  }

  lemma LogsLook(base: seq<Sample>, log: seq<Action>, count: nat, samples: seq<Sample>, sha: Sha, now: Time,
      action: Action)
    requires Collecting(base, log, count, samples, sha, now)
    requires action.Looked?
      || (action == Dispatch && log != [] && log[|log| - 1].Looked? && AllCompleted(log[|log| - 1].runs))
    ensures Collecting(base, log + [action], count, samples, sha, now)
  {
  }

  lemma ContinuesOn(facts: Facts, script: seq<Reply>, since: Time, rest: seq<Reply>, now: Time, rest': seq<Reply>,
      later: Time)
    requires Continues(facts, script, since, rest, now) && Continues(facts, rest, now, rest', later)
    ensures Continues(facts, script, since, rest', later)
    ensures now <= later && Plausible(facts, rest', later)
  {
  }

  lemma ContinuesNow(facts: Facts, script: seq<Reply>, since: Time, rest: seq<Reply>, now: Time)
    requires Continues(facts, script, since, rest, now)
    ensures since <= now && Plausible(facts, rest, now)
  {
  }

  // A valid manifest with one more run that starts behind all others is serial again.
  lemma SerialGrows(samples: seq<Sample>, added: Sample, sha: Sha)
    requires Serial(samples) && OnCommit(samples, sha) && added.workflowRun.headSha == sha
    requires ValidInput(samples + [added]) && CompletedBy(samples, added.workflowRun.startedAt)
    ensures Serial(samples + [added]) && OnCommit(samples + [added], sha)
  {
  }

  /** Downloads the evidence, adds the sample and writes the manifest; the manifest contract keeps run IDs unique. */
  method Retain(ghost facts: Facts, ghost since: Time, script: seq<Reply>, samples: seq<Sample>, log: seq<Action>,
      runId: RunId, workflowRun: WorkflowRun, ghost base: seq<Sample>, ghost count: nat, ghost sha: Sha)
    returns (r: Round, ghost now: Time)
    requires Plausible(facts, script, since)
    requires Collecting(base, log, count, samples, sha, since) && |samples| < count
    requires workflowRun.headSha == sha && CompletedBy(samples, workflowRun.startedAt)
      && workflowRun.completedAt <= since
    ensures r == Keep(script, samples, log, runId, workflowRun)
    ensures Continues(facts, script, since, r.rest, now)
    ensures Collecting(base, r.log, count, r.samples, sha, now)
  {
    hide Collecting, Continues, Plausible, TimeAfter, Credible, ValidInput, CompletedBy;
    OneReply(facts, script, since);
    var download := Head(script);
    var rest := Tail(script);
    now := At(Head(script), since);
    ContinuesNow(facts, script, since, rest, now);
    TimeMoves(base, log, count, samples, sha, since, now);
    var evidence := if download.Downloaded? then Some(download.evidence) else None;
    var sample := Sample(runId, workflowRun, evidence);
    r := Round(false, evidence.Some?, samples, log, rest);
    SingleValid(samples, sample);
    var single := CreateReviewInput([sample], 2);
    if single.Rejected? {
      return;
    }
    var manifest := CreateReviewInput(samples + [sample], 2);
    if manifest.Rejected? {
      return;
    }
    OneReply(facts, rest, now);
    var write := Head(rest);
    ContinuesOn(facts, script, since, rest, now, Tail(rest), At(Head(rest), now));
    TimeMoves(base, log, count, samples, sha, now, At(Head(rest), now));
    rest, now := Tail(rest), At(Head(rest), now);
    r := r.(rest := rest);
    if write.Saved? {
      CollectionGrows(base, log, count, samples, sample, sha, now);
      r := Round(true, evidence.Some?, samples + [sample], log + [Wrote(samples + [sample])], rest);
    }
  }

  lemma SingleValid(samples: seq<Sample>, sample: Sample)
    ensures ValidInput(samples + [sample]) ==> ValidInput([sample])
  {
    assert sample in samples + [sample] && [sample][0] == sample;
  }

  // A manifest that is written with one more run behind all others.
  lemma CollectionGrows(base: seq<Sample>, log: seq<Action>, count: nat, samples: seq<Sample>, added: Sample, sha: Sha,
      now: Time)
    requires Collecting(base, log, count, samples, sha, now) && |samples| < count
    requires ValidInput(samples + [added]) && added.workflowRun.headSha == sha
    requires CompletedBy(samples, added.workflowRun.startedAt) && added.workflowRun.completedAt <= now
    ensures Collecting(base, log + [Wrote(samples + [added])], count, samples + [added], sha, now)
  {
    hide GoodLog, Latest;
    SerialGrows(samples, added, sha);
    LogGrows(base, log, Wrote(samples + [added]), count);
  }

  /** Takes over a run that was started outside the collection. */
  method RecoverInitialRun(ghost facts: Facts, ghost since: Time, script: seq<Reply>, samples: seq<Sample>,
      log: seq<Action>, runId: RunId, ghost base: seq<Sample>, ghost count: nat, sha: Sha)
    returns (r: Round, ghost now: Time)
    requires Plausible(facts, script, since)
    requires Collecting(base, log, count, samples, sha, since) && |samples| < count
    ensures r == Recover(script, samples, log, runId, sha)
    ensures Continues(facts, script, since, r.rest, now)
    ensures Collecting(base, r.log, count, r.samples, sha, now)
  {
    hide Collecting, Continues, Plausible, TimeAfter, Keep;
    OneReply(facts, script, since);
    var report := Head(script);
    var rest := Tail(script);
    now := At(Head(script), since);
    ContinuesNow(facts, script, since, rest, now);
    TimeMoves(base, log, count, samples, sha, since, now);
    r := Round(false, false, samples, log, rest);
    if !report.RunAt? || report.id != runId || report.terminal.None? {
      return;
    }
    var run := report.terminal.value;
    assert Credible(facts, report, since, rest);
    if run.headSha != sha || !FollowsRetainedSamples(samples, run, runId) {
      return;
    }
    if samples != [] {
      LatestCompletionIsLatest(samples, run.startedAt);
    }
    ghost var now0 := now;
    r, now := Retain(facts, now, rest, samples, log, runId, run, base, count, sha);
    ContinuesOn(facts, script, since, rest, now0, r.rest, now);
  }

  /** One round of the serial collection: nothing active, dispatch, discover, wait, download, write. */
  method CollectOneSample(ghost facts: Facts, ghost since: Time, script: seq<Reply>, samples: seq<Sample>,
      log: seq<Action>, ghost base: seq<Sample>, ghost count: nat, sha: Sha)
    returns (r: Round, ghost now: Time)
    requires Plausible(facts, script, since)
    requires Collecting(base, log, count, samples, sha, since) && |samples| < count
    ensures r == OneMore(script, samples, log, sha)
    ensures Continues(facts, script, since, r.rest, now)
    ensures Collecting(base, r.log, count, r.samples, sha, now)
  {
    hide Collecting, Continues, Plausible, TimeAfter, Credible, Keep, DiscoverNew, AwaitCompletion, ShownIn;
    OneReply(facts, script, since);
    var listing := Head(script);
    var rest := Tail(script);
    now := At(Head(script), since);
    ContinuesNow(facts, script, since, rest, now);
    TimeMoves(base, log, count, samples, sha, since, now);
    r := Round(false, false, samples, log, rest);
    if !listing.Listing? {
      return;
    }
    ghost var later := rest;
    LogsLook(base, log, count, samples, sha, now, Looked(listing.runs));
    r := r.(log := log + [Looked(listing.runs)]);
    if !AllCompleted(listing.runs) {
      return;
    }
    OneReply(facts, rest, now);
    var dispatch := Head(rest);
    ContinuesOn(facts, script, since, rest, now, Tail(rest), At(Head(rest), now));
    TimeMoves(base, r.log, count, samples, sha, now, At(Head(rest), now));
    rest, now := Tail(rest), At(Head(rest), now);
    r := r.(rest := rest);
    if !dispatch.Dispatched? {
      return;
    }
    LogsLook(base, r.log, count, samples, sha, now, Dispatch);
    var log2 := r.log + [Dispatch];
    var known := set r | r in listing.runs :: r.id;
    var candidate, rest1, now1 := WaitForNewWorkflowRun(facts, now, rest, sha, known, DISCOVERY_TIMEOUT_MS);
    ContinuesOn(facts, script, since, rest, now, rest1, now1);
    TimeMoves(base, log2, count, samples, sha, now, now1);
    if candidate.Rejected? {
      return Round(false, false, samples, log2, rest1), now1;
    }
    StartsBehind(facts, listing, since, later, candidate.value.id, samples) by {
      Retains(base, log, count, samples, sha, since);
    }
    var run, rest2, now2 := WaitForWorkflowCompletion(facts, now1, rest1, candidate.value.id, COMPLETION_TIMEOUT_MS);
    ContinuesOn(facts, script, since, rest1, now1, rest2, now2);
    TimeMoves(base, log2, count, samples, sha, now1, now2);
    if run.Rejected? {
      return Round(false, false, samples, log2, rest2), now2;
    }
    r, now := Retain(facts, now2, rest2, samples, log2, candidate.value.id, run.value, base, count, sha);
    ContinuesOn(facts, script, since, rest2, now2, r.rest, now);
  }

  lemma Retains(base: seq<Sample>, log: seq<Action>, count: nat, samples: seq<Sample>, sha: Sha, now: Time)
    requires Collecting(base, log, count, samples, sha, now)
    ensures CompletedBy(samples, now)
  {
  }

  // A run that only a later listing shows starts no earlier than everything completed by the first.
  lemma StartsBehind(facts: Facts, listing: Reply, since: Time, later: seq<Reply>, id: RunId, samples: seq<Sample>)
    requires listing.Listing? && Credible(facts, listing, since, later)
    requires id in facts && id !in (set r | r in listing.runs :: r.id) && ShownIn(later, id)
    requires CompletedBy(samples, since)
    ensures CompletedBy(samples, facts[id].startedAt)
  {
  }

  /** What a session leaves behind, whatever became of it: a good log, and the file as it was last written. */
  ghost predicate Leaves(script: seq<Reply>, since: Time, file: Option<seq<Sample>>, count: int, log: seq<Action>,
      file': Option<seq<Sample>>) {
    && Retained(file', TimeAfter(script, since))
    && GoodLog(Samples(file), log, REQUIRED_SAMPLE_COUNT) && (count >= 0 ==> GoodLog(Samples(file), log, count))
    && Samples(file') == Latest(Samples(file), log) && Samples(file) <= Samples(file')
    && (file' == file || (file'.Some? && Wrote(file'.value) in log))
  }

  /** One whole session over the collection file. */
  method Collect(ghost facts: Facts, ghost since: Time, file: Option<seq<Sample>>, sampleCount: int,
      initialRunId: Option<int>, script: seq<Reply>)
    returns (outcome: Outcome, file': Option<seq<Sample>>, log: seq<Action>)
    requires Plausible(facts, script, since) && Retained(file, since)
    ensures (outcome, Samples(file'), log) == SessionOf(Samples(file), sampleCount, initialRunId, script)
    ensures Leaves(script, since, file, sampleCount, log, file')
    ensures |Samples(file')| <= REQUIRED_SAMPLE_COUNT || file' == file
  {
    hide Collecting, Continues, Plausible, TimeAfter, GoodLog, Latest, Retained, OnCommit, Leaves, OneMore, Recover;
    outcome, file', log := Failed, file, [];
    NothingLogged(facts, script, since, file, sampleCount);
    if !(1 <= sampleCount <= REQUIRED_SAMPLE_COUNT) {
      return;
    }
    ghost var base := Samples(file);
    OneReply(facts, script, since);
    var main := Head(script);
    var rest := Tail(script);
    ghost var now := At(Head(script), since);
    if !main.MainAt? {
      return;
    }
    var samples, sha := Samples(file), main.sha;
    var sameCommit := SourceCommitIs(samples, sha);
    if !sameCommit || |samples| > sampleCount {
      return;
    }
    SessionStarts(facts, script, since, rest, now, file, sampleCount, sha);
    if initialRunId.Some? {
      if initialRunId.value < 1 || |samples| >= sampleCount {
        return;
      }
      ghost var now0 := now;
      var r;
      r, now := RecoverInitialRun(facts, now, rest, samples, log, initialRunId.value, base, sampleCount, sha);
      ContinuesOn(facts, script, since, rest, now0, r.rest, now);
      if !r.ok {
        return;
      }
      RoundWrote(rest, samples, log, initialRunId.value, sha);
      samples, log, rest := r.samples, r.log, r.rest;
      Settles(facts, script, since, rest, now, file, log, sampleCount, samples, sha);
      file' := Some(samples);
      if !r.evidenced {
        outcome := StoppedEarly;
        return;
      }
    }
    while |samples| < sampleCount
      invariant SessionOf(base, sampleCount, initialRunId, script) == Rounds(rest, samples, log, sampleCount, sha)
      invariant Continues(facts, script, since, rest, now) && Plausible(facts, rest, now)
      invariant Collecting(base, log, sampleCount, samples, sha, now) && |samples| <= sampleCount
      invariant Leaves(script, since, file, sampleCount, log, file') && Samples(file') == samples
      invariant base <= samples
      decreases sampleCount - |samples|
    {
      ghost var now0, log0 := now, log;
      var r;
      r, now := CollectOneSample(facts, now, rest, samples, log, base, sampleCount, sha);
      ContinuesOn(facts, script, since, rest, now0, r.rest, now);
      if !r.ok {
        RoundLogged(rest, samples, log, sha);
        log := r.log;
        StillLeaves(facts, script, since, r.rest, now, file, log0, file', log, sampleCount, samples, sha);
        return;
      }
      RoundLogged(rest, samples, log, sha);
      samples, log, rest := r.samples, r.log, r.rest;
      Settles(facts, script, since, rest, now, file, log, sampleCount, samples, sha);
      file' := Some(samples);
      if !r.evidenced {
        outcome := StoppedEarly;
        return;
      }
    }
    outcome := Completed;
  }

  // A round that went well ended by writing the samples; one that did not has only added to the log.
  lemma RoundLogged(script: seq<Reply>, samples: seq<Sample>, log: seq<Action>, sha: Sha)
    ensures var r := OneMore(script, samples, log, sha);
      && log <= r.log && samples <= r.samples
      && (r.ok ==> r.log != [] && r.log[|r.log| - 1] == Wrote(r.samples))
  {
    hide Discover, Await, ValidInput, AllCompleted;
  }

  lemma RoundWrote(script: seq<Reply>, samples: seq<Sample>, log: seq<Action>, runId: RunId, sha: Sha)
    ensures var r := Recover(script, samples, log, runId, sha);
      r.ok ==> samples <= r.samples && r.log != [] && r.log[|r.log| - 1] == Wrote(r.samples)
  {
  }

  lemma NothingLogged(facts: Facts, script: seq<Reply>, since: Time, file: Option<seq<Sample>>, count: int)
    requires Plausible(facts, script, since) && Retained(file, since)
    ensures Leaves(script, since, file, count, [], file)
  {
  }

  lemma SessionStarts(facts: Facts, script: seq<Reply>, since: Time, rest: seq<Reply>, now: Time,
      file: Option<seq<Sample>>, count: nat, sha: Sha)
    requires Retained(file, since) && OnCommit(Samples(file), sha) && Continues(facts, script, since, rest, now)
    ensures Collecting(Samples(file), [], count, Samples(file), sha, now) && Plausible(facts, rest, now)
  {
  }

  // What holds whenever the session ends, now or later, once the manifest has been written.
  lemma Settles(facts: Facts, script: seq<Reply>, since: Time, rest: seq<Reply>, now: Time, file: Option<seq<Sample>>,
      log: seq<Action>, count: nat, samples: seq<Sample>, sha: Sha)
    requires Continues(facts, script, since, rest, now) && Collecting(Samples(file), log, count, samples, sha, now)
      && count <= REQUIRED_SAMPLE_COUNT
    requires log != [] && log[|log| - 1] == Wrote(samples) && Samples(file) <= samples
    ensures Leaves(script, since, file, count, log, Some(samples))
  {
    TimePasses(facts, rest, now);
    Widen(Samples(file), log, count);
  }

  // A round that wrote nothing leaves the file as it was.
  lemma StillLeaves(facts: Facts, script: seq<Reply>, since: Time, rest: seq<Reply>, now: Time,
      file: Option<seq<Sample>>, log0: seq<Action>, file': Option<seq<Sample>>, log: seq<Action>, count: nat,
      samples: seq<Sample>, sha: Sha)
    requires Continues(facts, script, since, rest, now) && Collecting(Samples(file), log, count, samples, sha, now)
      && count <= REQUIRED_SAMPLE_COUNT
    requires Leaves(script, since, file, count, log0, file') && Samples(file') == samples && log0 <= log
    ensures Leaves(script, since, file, count, log, file')
  {
    TimePasses(facts, rest, now);
    Widen(Samples(file), log, count);
  }

  lemma {:induction false} Widen(base: seq<Sample>, log: seq<Action>, count: nat)
    requires GoodLog(base, log, count) && count <= REQUIRED_SAMPLE_COUNT
    ensures GoodLog(base, log, REQUIRED_SAMPLE_COUNT)
  {
    if log != [] {
      Widen(base, log[..|log| - 1], count);
    }
  }

  // ----- Many sessions, and the review of what they leave -----

  datatype Session = Session(sampleCount: int, initialRunId: Option<int>, script: seq<Reply>)

  ghost predicate PlausibleSessions(facts: Facts, sessions: seq<Session>, since: Time) {
    sessions != [] ==>
      Plausible(facts, sessions[0].script, since)
        && PlausibleSessions(facts, sessions[1..], TimeAfter(sessions[0].script, since))
  }

  /** What every manifest that was ever written looks like. */
  ghost predicate WellWritten(log: seq<Action>) {
    forall a | a in log && a.Wrote? :: Serial(a.samples) && |a.samples| <= REQUIRED_SAMPLE_COUNT
  }

  lemma {:induction false} GoodLogWellWritten(base: seq<Sample>, log: seq<Action>)
    requires GoodLog(base, log, REQUIRED_SAMPLE_COUNT)
    ensures WellWritten(log)
  {
    if log != [] {
      GoodLogWellWritten(base, log[..|log| - 1]);
      assert log == log[..|log| - 1] + [log[|log| - 1]];
    }
  }

  /** Any number of sessions over one file that did not exist before: recoveries, failures and early stops included. */
  method CollectSessions(ghost facts: Facts, ghost since: Time, sessions: seq<Session>)
    returns (file: Option<seq<Sample>>, log: seq<Action>)
    requires PlausibleSessions(facts, sessions, since)
    ensures WellWritten(log)
    ensures Serial(Samples(file)) && |Samples(file)| <= REQUIRED_SAMPLE_COUNT
    ensures file.Some? ==> Wrote(file.value) in log
  {
    hide Plausible, TimeAfter, Retained, WellWritten, Leaves;
    file, log := None, [];
    NothingWritten(since);
    ghost var now := since;
    for i := 0 to |sessions|
      invariant PlausibleSessions(facts, sessions[i..], now) && Retained(file, now)
      invariant WellWritten(log) && |Samples(file)| <= REQUIRED_SAMPLE_COUNT
      invariant file.Some? ==> Wrote(file.value) in log
    {
      assert sessions[i..][1..] == sessions[i + 1..];
      var outcome, next, actions :=
        Collect(facts, now, file, sessions[i].sampleCount, sessions[i].initialRunId, sessions[i].script);
      LeavesWellWritten(sessions[i].script, now, file, sessions[i].sampleCount, actions, next);
      WellWrittenJoin(log, actions);
      file, log := next, log + actions;
      now := TimeAfter(sessions[i].script, now);
    }
    assert Retained(file, now);
    RetainedIsSerial(file, now);
  }

  lemma RetainedIsSerial(file: Option<seq<Sample>>, now: Time)
    requires Retained(file, now)
    ensures Serial(Samples(file))
  {
  }

  lemma LeavesWellWritten(script: seq<Reply>, since: Time, file: Option<seq<Sample>>, count: int, log: seq<Action>,
      file': Option<seq<Sample>>)
    requires Leaves(script, since, file, count, log, file')
    ensures WellWritten(log) && Retained(file', TimeAfter(script, since))
    ensures file' == file || (file'.Some? && Wrote(file'.value) in log)
  {
    GoodLogWellWritten(Samples(file), log);
  }

  lemma NothingWritten(now: Time)
    ensures Retained(None, now) && WellWritten([])
  {
  }

  lemma WellWrittenJoin(a: seq<Action>, b: seq<Action>)
    requires WellWritten(a) && WellWritten(b)
    ensures WellWritten(a + b)
  {
  }

  /** A serial manifest is in chronological order, and nothing in it overlaps. */
  lemma SerialHasNoOverlap(samples: seq<Sample>)
    requires Serial(samples)
    ensures Chronological(samples) == samples && !HasOverlap(samples)
  {
    forall i, j | 0 <= i < j < |samples|
      ensures AtMost(StartKey(samples[i]), StartKey(samples[j]))
    {
      assert ValidSample(samples[i]);
    }
    SortFixpoint(samples, StartKey);
  }

  /** The review of a collected manifest never finds too many samples, a changed commit, or overlapping runs. */
  lemma CollectedNeverTripsReview(log: seq<Action>, samples: seq<Sample>, findings: seq<Finding>)
    requires WellWritten(log) && Wrote(samples) in log
    requires Accurate(findings, samples)
    ensures forall f | f in findings :: !f.SampleCountExceeded? && !f.SourceCommitChanged? && !f.WorkflowRunsOverlapped?
  {
    SerialHasNoOverlap(samples);
  }

  /** Collection followed by review: a complete collection can only be held up by what single samples show. */
  method CollectThenReview(ghost facts: Facts, ghost since: Time, sessions: seq<Session>)
    returns (samples: seq<Sample>, status: ReviewStatus)
    requires PlausibleSessions(facts, sessions, since)
    ensures status == BaselineConfirmed <==> |samples| == REQUIRED_SAMPLE_COUNT && forall s | s in samples :: Good(s)
    ensures status == Incomplete <==> |samples| < REQUIRED_SAMPLE_COUNT && forall s | s in samples :: Good(s)
    ensures Serial(samples) && |samples| <= REQUIRED_SAMPLE_COUNT
  {
    var file, log := CollectSessions(facts, since, sessions);
    samples := Samples(file);
    var findings := CreateFindings(samples);
    SerialHasNoOverlap(samples);
    VerdictExact(samples, findings);
    status := GetReviewStatus(findings);
  }
}
