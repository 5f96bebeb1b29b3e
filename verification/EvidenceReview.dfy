/** The review of collected browser-test samples: scripts/browser-test-evidence-review.js. */
module EvidenceReview {
  import opened Common
  import opened StableSort

  type RunId = int
  type Sha = int
  type Time = int

  datatype Conclusion = ActionRequired | Cancelled | Failure | Neutral | Skipped | Stale | Success | TimedOut

  datatype WorkflowRun = WorkflowRun(startedAt: Time, completedAt: Time, conclusion: Conclusion, headSha: Sha)

  datatype CleanupStatus = CheckFailed | Clean | ResourcesRemaining

  datatype Evidence = Evidence(durationMs: nat, passed: bool, workerCount: nat, cleanup: CleanupStatus)

  datatype Sample = Sample(runId: RunId, workflowRun: WorkflowRun, evidence: Option<Evidence>)

  function RunIdOf(s: Sample): RunId {
    s.runId
  }

  function HeadShaOf(s: Sample): Sha {
    s.workflowRun.headSha
  }

  const REQUIRED_SAMPLE_COUNT := 10

  // ----- Input contract -----

  /** What the input contract promises about the samples it lets through. */
  ghost predicate ValidInput(samples: seq<Sample>) {
    && (forall i, j | 0 <= i < j < |samples| :: samples[i].runId != samples[j].runId)
    && forall s | s in samples :: ValidSample(s)
  }

  predicate ValidSample(s: Sample) {
    s.runId >= 1 && s.workflowRun.startedAt <= s.workflowRun.completedAt
  }

  /** Schema version 1 still demands evidence; version 2 allows a sample whose evidence was unavailable. */
  predicate SchemaAllows(s: Sample, schemaVersion: int) {
    schemaVersion == 2 || s.evidence.Some?
  }

  method CreateReviewInput(samples: seq<Sample>, schemaVersion: int) returns (r: Result<seq<Sample>>)
    ensures r.Ok? ==> r.value == samples
    ensures r.Ok? <==>
      schemaVersion in {1, 2} && ValidInput(samples) && forall s | s in samples :: SchemaAllows(s, schemaVersion)
  {
    if schemaVersion !in {1, 2} {
      return Rejected;
    }
    var runIds := {};
    for index := 0 to |samples|
      invariant runIds == set i | 0 <= i < index :: samples[i].runId
      invariant ValidInput(samples[..index])
      invariant forall s | s in samples[..index] :: SchemaAllows(s, schemaVersion)
    {
      var sample := samples[index];
      assert sample in samples && samples[..index + 1] == samples[..index] + [sample];
      if sample.runId < 1 || sample.runId in runIds {
        return Rejected;
      }
      if sample.evidence.None? && schemaVersion == 1 {
        return Rejected;
      }
      if sample.workflowRun.completedAt < sample.workflowRun.startedAt {
        return Rejected;
      }
      runIds := runIds + {sample.runId};
    }
    assert samples[..|samples|] == samples;
    return Ok(samples);
  }

  // ----- Overlap sweep -----

  function StartKey(s: Sample): Key {
    NumberKey(s.workflowRun.startedAt)
  }

  function Chronological(samples: seq<Sample>): seq<Sample> {
    Sort(samples, StartKey)
  }

  /** The run at position a is still going when the later run at position b starts. */
  ghost predicate Overlap(c: seq<Sample>, a: int, b: int) {
    0 <= a < b < |c| && c[a].workflowRun.completedAt > c[b].workflowRun.startedAt
  }

  /** The naive definition: the run is one half of some overlapping pair. */
  ghost predicate TakesPart(c: seq<Sample>, id: RunId) {
    exists a, b :: Overlap(c, a, b) && (id == c[a].runId || id == c[b].runId)
  }

  /** After the first n runs: everything reported takes part in an overlap, and every overlapping pair is reported. */
  ghost predicate Swept(c: seq<Sample>, n: nat, ids: seq<RunId>) {
    && (forall id | id in ids :: TakesPart(c, id))
    && (forall a, b | Overlap(c, a, b) && b < n :: c[a].runId in ids && c[b].runId in ids)
  }

  /** The run at this position finishes last among the first n. */
  ghost predicate FinishesLast(c: seq<Sample>, n: nat, active: nat) {
    active < n <= |c| && forall i | 0 <= i < n :: c[i].workflowRun.completedAt <= c[active].workflowRun.completedAt
  }

  /** The run IDs of this list that are among the given ones, in the order of the list. */
  function IdsAmong(c: seq<Sample>, ids: seq<RunId>): seq<RunId> {
    if c == [] then []
    else IdsAmong(c[..|c| - 1], ids) + if c[|c| - 1].runId in ids then [c[|c| - 1].runId] else []
  }

  ghost predicate DistinctIds(samples: seq<Sample>) {
    forall i, j | 0 <= i < j < |samples| :: samples[i].runId != samples[j].runId
  }

  /** Nothing behind the first n runs is reported, and behind the active one nothing unless it is itself. */
  ghost predicate ActiveFirst(c: seq<Sample>, n: nat, active: nat, ids: seq<RunId>) {
    && active < n <= |c|
    && (forall k | n <= k < |c| :: c[k].runId !in ids)
    && (c[active].runId !in ids ==> forall k | active < k < n :: c[k].runId !in ids)
  }

  lemma {:induction false} NoneAmong(c: seq<Sample>, ids: seq<RunId>)
    requires forall s | s in c :: s.runId !in ids
    ensures IdsAmong(c, ids) == []
  {
    if c != [] {
      assert c[|c| - 1] in c;
      NoneAmong(c[..|c| - 1], ids);
    }
  }

  lemma {:induction false} MoreAmong(c: seq<Sample>, ids: seq<RunId>, id: RunId)
    requires forall s | s in c :: s.runId != id
    ensures IdsAmong(c, ids + [id]) == IdsAmong(c, ids)
  {
    if c != [] {
      assert c[|c| - 1] in c;
      MoreAmong(c[..|c| - 1], ids, id);
    }
  }

  lemma {:induction false} AmongParts(c: seq<Sample>, n: nat, ids: seq<RunId>)
    requires n <= |c|
    ensures IdsAmong(c, ids) == IdsAmong(c[..n], ids) + IdsAmong(c[n..], ids)
  {
    if n == |c| {
      assert c[..n] == c && c[n..] == [];
    } else {
      AmongParts(c[..|c| - 1], n, ids);
      assert c[..|c| - 1][..n] == c[..n] && c[..|c| - 1][n..] == c[n..][..|c[n..]| - 1];
    }
  }

  // One run is added behind all that are reported: it comes last in the list too.
  lemma AddedAmong(c: seq<Sample>, k: nat, ids: seq<RunId>)
    requires DistinctIds(c) && k < |c| && c[k].runId !in ids && forall j | k < j < |c| :: c[j].runId !in ids
    ensures IdsAmong(c, ids + [c[k].runId]) == IdsAmong(c, ids) + [c[k].runId]
  {
    var id := c[k].runId;
    AmongParts(c, k + 1, ids);
    AmongParts(c, k + 1, ids + [id]);
    MoreAmong(c[..k], ids, id);
    MoreAmong(c[k + 1..], ids, id);
    NoneAmong(c[k + 1..], ids);
    assert c[..k + 1][..k] == c[..k];
  }

  lemma DedupNext(ids: seq<RunId>, id: RunId)
    ensures Dedup(ids + [id]) == if id in ids then Dedup(ids) else Dedup(ids) + [id]
  {
    assert (ids + [id])[..|ids|] == ids;
  }

  // What one overlap adds to the report, in the order of the list.
  lemma PairReported(c: seq<Sample>, active: nat, index: nat, ids: seq<RunId>)
    requires DistinctIds(c) && index < |c| && ActiveFirst(c, index, active, ids) && Dedup(ids) == IdsAmong(c, ids)
    ensures var after := ids + [c[active].runId] + [c[index].runId];
      ActiveFirst(c, index + 1, active, after) && Dedup(after) == IdsAmong(c, after)
  {
    hide Dedup, IdsAmong;
    var once := ids + [c[active].runId];
    DedupNext(ids, c[active].runId);
    DedupNext(once, c[index].runId);
    if c[active].runId !in ids {
      AddedAmong(c, active, ids);
    } else {
      SameAmong(c, ids, c[active].runId);
    }
    AddedAmong(c, index, once);
  }

  lemma {:induction false} SameAmong(c: seq<Sample>, ids: seq<RunId>, id: RunId)
    requires id in ids
    ensures IdsAmong(c, ids + [id]) == IdsAmong(c, ids)
  {
    if c != [] {
      SameAmong(c[..|c| - 1], ids, id);
    }
  }

  /** One pass that only remembers the run finishing last so far finds every member of every overlapping pair. */
  method SweepOverlaps(c: seq<Sample>) returns (overlapping: seq<RunId>)
    requires SortedBy(c, StartKey)
    ensures forall id :: id in overlapping <==> TakesPart(c, id)
    ensures DistinctIds(c) ==> Dedup(overlapping) == IdsAmong(c, overlapping)
  {
    hide Swept, TakesPart, SortedBy, Dedup, IdsAmong, DistinctIds;
    overlapping := [];
    NothingSwept(c);
    NoneAmong(c, []);
    assert Dedup<RunId>([]) == [] by {
      NothingDeduped();
    }
    if c == [] {
      SweptAll(c, overlapping);
      return;
    }
    var activeSample := c[0];
    ghost var active := 0;
    for index := 1 to |c|
      invariant FinishesLast(c, index, active) && activeSample == c[active]
      invariant Swept(c, index, overlapping)
      invariant DistinctIds(c) ==> ActiveFirst(c, index, active, overlapping)
      invariant DistinctIds(c) ==> Dedup(overlapping) == IdsAmong(c, overlapping)
    {
      var sample := c[index];
      ActivePairSuffices(c, active, index, overlapping);
      if activeSample.workflowRun.completedAt > sample.workflowRun.startedAt {
        assert overlapping + [activeSample.runId, sample.runId] == overlapping + [activeSample.runId] + [sample.runId];
        if DistinctIds(c) {
          PairReported(c, active, index, overlapping);
        }
        overlapping := overlapping + [activeSample.runId, sample.runId];
      }
      if sample.workflowRun.completedAt > activeSample.workflowRun.completedAt {
        activeSample := sample;
        active := index;
      }
    }
    SweptAll(c, overlapping);
  }

  lemma NothingDeduped()
    ensures Dedup<RunId>([]) == []
  {
  }

  lemma NothingSwept(c: seq<Sample>)
    ensures Swept(c, 0, []) && (c != [] ==> Swept(c, 1, []))
  {
  }

  lemma SweptAll(c: seq<Sample>, ids: seq<RunId>)
    requires Swept(c, |c|, ids)
    ensures forall id :: id in ids <==> TakesPart(c, id)
  {
  }

  lemma PairTakesPart(c: seq<Sample>, a: int, b: int)
    requires Overlap(c, a, b)
    ensures TakesPart(c, c[a].runId) && TakesPart(c, c[b].runId)
  {
  }

  // A run that overlaps the new one, and is not the one finishing last, overlaps the one finishing last.
  lemma ActivePairSuffices(c: seq<Sample>, active: nat, index: nat, ids: seq<RunId>)
    requires SortedBy(c, StartKey) && index < |c| && FinishesLast(c, index, active) && Swept(c, index, ids)
    ensures Overlap(c, active, index) ==> Swept(c, index + 1, ids + [c[active].runId, c[index].runId])
    ensures !Overlap(c, active, index) ==> Swept(c, index + 1, ids)
  {
    if Overlap(c, active, index) {
      var after := ids + [c[active].runId, c[index].runId];
      PairTakesPart(c, active, index);
      forall id | id in after
        ensures TakesPart(c, id)
      {
      }
      forall a, b | Overlap(c, a, b) && b < index + 1
        ensures c[a].runId in after && c[b].runId in after
      {
        if b == index {
          EarlierMemberReported(c, active, index, ids, a);
        }
      }
    } else {
      forall a, b | Overlap(c, a, b) && b < index + 1
        ensures b < index
      {
      }
    }
  }

  lemma EarlierMemberReported(c: seq<Sample>, active: nat, index: nat, ids: seq<RunId>, a: int)
    requires SortedBy(c, StartKey) && index < |c| && FinishesLast(c, index, active) && Swept(c, index, ids)
    requires Overlap(c, a, index)
    ensures a == active || c[a].runId in ids
  {
  }

  // ----- When the answer depends on the order of the input -----

  ghost predicate SameOverlaps(p: seq<Sample>, q: seq<Sample>) {
    forall id :: TakesPart(Chronological(p), id) <==> TakesPart(Chronological(q), id)
  }

  /** Every reordering of the samples has the same overlapping runs. */
  ghost predicate OrderIndependent(p: seq<Sample>) {
    forall q: seq<Sample> | multiset(q) == multiset(p) :: SameOverlaps(p, q)
  }

  /** z is running strictly before and strictly after the instant t. */
  predicate Covers(z: Sample, t: Time) {
    z.workflowRun.startedAt < t < z.workflowRun.completedAt
  }

  predicate Instantaneous(x: Sample) {
    x.workflowRun.startedAt == x.workflowRun.completedAt
  }

  predicate StartTogether(x: Sample, y: Sample) {
    x.workflowRun.startedAt == y.workflowRun.startedAt
  }

  /** A run of no duration that starts together with a lasting run does so under a third run covering that instant. */
  ghost predicate InstantsCovered(p: seq<Sample>) {
    forall x, y | x in p && y in p && Instantaneous(x) && !Instantaneous(y) && StartTogether(x, y) ::
      exists z | z in p :: Covers(z, x.workflowRun.startedAt)
  }

  /** Order-free overlap of two runs: each starts before the other ends. */
  predicate Clash(x: Sample, y: Sample) {
    x.workflowRun.startedAt < y.workflowRun.completedAt && y.workflowRun.startedAt < x.workflowRun.completedAt
  }

  ghost predicate ClashesWithSome(p: seq<Sample>, id: RunId) {
    exists x, y | x in p && y in p :: x != y && Clash(x, y) && x.runId == id
  }

  lemma OverlapIsOrderFree(p: seq<Sample>, q: seq<Sample>, id: RunId)
    requires ValidInput(p) && InstantsCovered(p) && multiset(q) == multiset(p)
    ensures TakesPart(Chronological(q), id) <==> ClashesWithSome(p, id)
  {
    hide Sort, InstantsCovered, ValidInput;
    var c := Chronological(q);
    SortSorts(q, StartKey);
    SameElements(q, p);
    if TakesPart(c, id) {
      var a, b :| Overlap(c, a, b) && (id == c[a].runId || id == c[b].runId);
      OverlapClashes(p, q, a, b);
    }
    if ClashesWithSome(p, id) {
      var x, y :| x in p && y in p && x != y && Clash(x, y) && x.runId == id;
      var a :| 0 <= a < |c| && c[a] == x;
      var b :| 0 <= b < |c| && c[b] == y;
      if a < b {
        assert Overlap(c, a, b);
      } else {
        assert Overlap(c, b, a);
      }
    }
  }

  // Both members of an overlapping pair clash with some run, whichever way the tie was broken.
  lemma OverlapClashes(p: seq<Sample>, q: seq<Sample>, a: int, b: int)
    requires ValidInput(p) && InstantsCovered(p) && multiset(q) == multiset(p)
    requires Overlap(Chronological(q), a, b)
    ensures ClashesWithSome(p, Chronological(q)[a].runId) && ClashesWithSome(p, Chronological(q)[b].runId)
  {
    hide Sort;
    var c := Chronological(q);
    SortSorts(q, StartKey);
    SameElements(c, p);
    var x, y := c[a], c[b];
    assert x in p && y in p && ValidSample(x) && ValidSample(y);
    assert AtMost(StartKey(x), StartKey(y));
    if StartTogether(x, y) && Instantaneous(y) {
      assert !Instantaneous(x);
      var z :| z in p && Covers(z, y.workflowRun.startedAt);
      assert Clash(x, z) && Clash(y, z) && x != z && y != z;
    } else {
      DistinctRunsDiffer(p, c, a, b);
      assert Clash(x, y) && Clash(y, x);
    }
  }

  lemma DistinctRunsDiffer(p: seq<Sample>, c: seq<Sample>, a: int, b: int)
    requires ValidInput(p) && multiset(c) == multiset(p) && 0 <= a < b < |c|
    ensures c[a] != c[b]
  {
    DistinctPermutes(p, c);
  }

  /** Exactly when the overlap report does not depend on the order of the samples. */
  lemma OrderIndependenceExact(p: seq<Sample>)
    requires ValidInput(p)
    ensures OrderIndependent(p) <==> InstantsCovered(p)
  {
    if InstantsCovered(p) {
      forall q: seq<Sample> | multiset(q) == multiset(p)
        ensures SameOverlaps(p, q)
      {
        forall id
          ensures TakesPart(Chronological(p), id) <==> TakesPart(Chronological(q), id)
        {
          OverlapIsOrderFree(p, p, id);
          OverlapIsOrderFree(p, q, id);
        }
      }
    } else {
      var x, y :| x in p && y in p && Instantaneous(x) && !Instantaneous(y) && StartTogether(x, y)
        && !exists z | z in p :: Covers(z, x.workflowRun.startedAt);
      var q1 := MoveToFront(p, x);
      var q2 := MoveToFront(p, y);
      InstantFirstIsFree(p, q1, x);
      InstantLaterIsCaught(p, q2, x, y);
      assert !SameOverlaps(p, q1) || !SameOverlaps(p, q2);
    }
  }

  /** One run of no duration and one that lasts, starting together: the same two samples overlap in one order only. */
  lemma InstantOrderMatters(conclusion: Conclusion, sha: Sha)
    ensures var instant := Sample(1, WorkflowRun(5, 5, conclusion, sha), None);
      var lasting := Sample(2, WorkflowRun(5, 9, conclusion, sha), None);
      && ValidInput([instant, lasting]) && !OrderIndependent([instant, lasting])
      && !HasOverlap([instant, lasting]) && HasOverlap([lasting, instant])
  {
    var instant := Sample(1, WorkflowRun(5, 5, conclusion, sha), None);
    var lasting := Sample(2, WorkflowRun(5, 9, conclusion, sha), None);
    InOrderAlready(instant, lasting);
    InOrderAlready(lasting, instant);
    OrderIndependenceExact([instant, lasting]);
    hide Chronological, OrderIndependent;
    assert instant in [instant, lasting] && lasting in [instant, lasting];
    assert Overlap(Chronological([lasting, instant]), 0, 1);
  }

  lemma InOrderAlready(x: Sample, y: Sample)
    requires StartTogether(x, y)
    ensures Chronological([x, y]) == [x, y]
  {
    SortFixpoint([x, y], StartKey);
  }

  lemma MoveToFront(p: seq<Sample>, x: Sample) returns (q: seq<Sample>)
    requires x in p
    ensures multiset(q) == multiset(p) && q != [] && q[0] == x
  {
    var i :| 0 <= i < |p| && p[i] == x;
    q := [x] + (p[..i] + p[i + 1..]);
    assert p == p[..i] + [x] + p[i + 1..];
    assert multiset(q) == multiset{x} + multiset(p[..i] + p[i + 1..]);
  }

  // Listed first, a run of no duration precedes everything that starts with it, so nothing overlaps it.
  lemma InstantFirstIsFree(p: seq<Sample>, q: seq<Sample>, x: Sample)
    requires ValidInput(p) && multiset(q) == multiset(p) && q != [] && q[0] == x && Instantaneous(x)
    requires !exists z | z in p :: Covers(z, x.workflowRun.startedAt)
    ensures !TakesPart(Chronological(q), x.runId)
  {
    var c := Chronological(q);
    SortSorts(q, StartKey);
    SameElements(c, p);
    var k := InsertSplits(x, Sort(q[1..], StartKey), StartKey);
    assert c[k] == x;
    DistinctPermutes(p, c);
    assert x in p;
    forall i | 0 <= i < |c| && i != k
      ensures c[i].runId != x.runId
    {
      assert c[i] in p && c[i] != c[k];
      if c[i].runId == x.runId {
        SameIdSameSample(p, c[i], x);
      }
    }
    assert forall i | 0 <= i < k :: !Covers(c[i], x.workflowRun.startedAt);
    assert forall i | 0 <= i < k :: Before(StartKey(c[i]), StartKey(x));
    NothingOverlaps(c, k);
  }

  lemma SameIdSameSample(p: seq<Sample>, x: Sample, y: Sample)
    requires ValidInput(p) && x in p && y in p && x.runId == y.runId
    ensures x == y
  {
  }

  lemma NothingOverlaps(c: seq<Sample>, k: nat)
    requires SortedBy(c, StartKey) && k < |c| && Instantaneous(c[k])
    requires forall i | 0 <= i < |c| && i != k :: c[i].runId != c[k].runId
    requires forall i | 0 <= i < k ::
      Before(StartKey(c[i]), StartKey(c[k])) && !Covers(c[i], c[k].workflowRun.startedAt)
    ensures !TakesPart(c, c[k].runId)
  {
  }

  // Listed behind a lasting run that starts with it, the same run is caught.
  lemma InstantLaterIsCaught(p: seq<Sample>, q: seq<Sample>, x: Sample, y: Sample)
    requires ValidInput(p) && multiset(q) == multiset(p) && q != [] && q[0] == y
    requires x in p && y in p && Instantaneous(x) && !Instantaneous(y) && StartTogether(x, y)
    ensures TakesPart(Chronological(q), x.runId)
  {
    var c := Chronological(q);
    SortSorts(q, StartKey);
    SameElements(c, p);
    var k := InsertSplits(y, Sort(q[1..], StartKey), StartKey);
    var b :| 0 <= b < |c| && c[b] == x;
    assert c[k] == y;
    assert b < k ==> Before(StartKey(c[b]), StartKey(y));
    assert Overlap(c, k, b);
  }

  /** Runs that all last some time never have a disputed order. */
  lemma LastingRunsOrderIndependent(p: seq<Sample>)
    requires ValidInput(p)
    requires forall s | s in p :: !Instantaneous(s)
    ensures OrderIndependent(p)
  {
    OrderIndependenceExact(p);
  }

  // ----- Findings -----

  datatype Finding =
    | SampleCountShortfall(received: nat, required: nat)
    | SampleCountExceeded(received: nat, required: nat)
    | SourceCommitChanged(headShas: seq<Sha>)
    | WorkflowRunsOverlapped(runIds: seq<RunId>)
    | EvidenceUnavailable(runIds: seq<RunId>)
    | WorkflowResultMismatch(runIds: seq<RunId>)
    | BrowserTestFailed(runIds: seq<RunId>)
    | CleanupNotClean(runIds: seq<RunId>)
    | WorkerCountChanged(runIds: seq<RunId>)

  /** The nine finding codes; the last five are about single samples. */
  datatype Code =
    | Shortfall | Exceeded | CommitChanged | Overlapped
    | NoEvidence | Mismatch | TestFailed | NotClean | Workers
  {
    predicate AboutSamples() {
      NoEvidence? || Mismatch? || TestFailed? || NotClean? || Workers?
    }
  }

  /** The sample shows the discrepancy that the code stands for. */
  predicate Discrepant(code: Code, s: Sample) {
    match code
    case NoEvidence => s.evidence.None?
    case Mismatch => s.evidence.Some? && (s.evidence.value.passed <==> !s.workflowRun.conclusion.Success?)
    case TestFailed => s.evidence.Some? && !s.evidence.value.passed
    case NotClean => s.evidence.Some? && !s.evidence.value.cleanup.Clean?
    case Workers => s.evidence.Some? && s.evidence.value.workerCount != 2
    case _ => false
  }

  function CodeOf(f: Finding): Code {
    match f
    case SampleCountShortfall(_, _) => Shortfall
    case SampleCountExceeded(_, _) => Exceeded
    case SourceCommitChanged(_) => CommitChanged
    case WorkflowRunsOverlapped(_) => Overlapped
    case EvidenceUnavailable(_) => NoEvidence
    case WorkflowResultMismatch(_) => Mismatch
    case BrowserTestFailed(_) => TestFailed
    case CleanupNotClean(_) => NotClean
    case WorkerCountChanged(_) => Workers
  }

  ghost predicate OneCommit(samples: seq<Sample>) {
    forall s, t | s in samples && t in samples :: s.workflowRun.headSha == t.workflowRun.headSha
  }

  ghost predicate HasOverlap(samples: seq<Sample>) {
    exists a, b :: Overlap(Chronological(samples), a, b)
  }

  /** The listed run IDs are those of the discrepant samples, in sample order. */
  ghost predicate Names(runIds: seq<RunId>, samples: seq<Sample>, code: Code) {
    runIds == Map(Filter(samples, (s: Sample) => Discrepant(code, s)), RunIdOf)
  }

  /** What each finding says is so. */
  ghost predicate Justified(f: Finding, samples: seq<Sample>) {
    match f
    case SampleCountShortfall(received, required) => received == |samples| < required == REQUIRED_SAMPLE_COUNT
    case SampleCountExceeded(received, required) => received == |samples| > required == REQUIRED_SAMPLE_COUNT
    case SourceCommitChanged(shas) =>
      && !OneCommit(samples) && Distinct(shas)
      && forall h :: h in shas <==> exists s | s in samples :: s.workflowRun.headSha == h
    case WorkflowRunsOverlapped(ids) =>
      && HasOverlap(samples) && Distinct(ids) && (forall id :: id in ids <==> TakesPart(Chronological(samples), id))
      && (DistinctIds(samples) ==> ids == IdsAmong(Chronological(samples), ids))
    case _ => f.runIds != [] && Names(f.runIds, samples, CodeOf(f))
  }

  /** The discrepancy a code stands for is there. */
  ghost predicate Warranted(code: Code, samples: seq<Sample>) {
    match code
    case Shortfall => |samples| < REQUIRED_SAMPLE_COUNT
    case Exceeded => |samples| > REQUIRED_SAMPLE_COUNT
    case CommitChanged => !OneCommit(samples)
    case Overlapped => HasOverlap(samples)
    case _ => exists s | s in samples :: Discrepant(code, s)
  }

  ghost predicate Reports(findings: seq<Finding>, code: Code) {
    exists f | f in findings :: CodeOf(f) == code
  }

  /** Among the given codes, each discrepancy is reported exactly when it is there; every report is true. */
  ghost predicate AccurateFor(findings: seq<Finding>, samples: seq<Sample>, codes: set<Code>) {
    && (forall f | f in findings :: Justified(f, samples))
    && (forall code {:trigger Reports(findings, code)} ::
          Reports(findings, code) <==> code in codes && Warranted(code, samples))
  }

  ghost predicate Accurate(findings: seq<Finding>, samples: seq<Sample>) {
    && (forall f | f in findings :: Justified(f, samples))
    && (forall code {:trigger Reports(findings, code)} :: Reports(findings, code) <==> Warranted(code, samples))
  }

  lemma ReportAdded(findings: seq<Finding>, samples: seq<Sample>, codes: set<Code>, f: Finding)
    requires AccurateFor(findings, samples, codes)
    requires Justified(f, samples) && Warranted(CodeOf(f), samples)
    ensures AccurateFor(findings + [f], samples, codes + {CodeOf(f)})
  {
    forall code
      ensures Reports(findings + [f], code) <==> code in codes + {CodeOf(f)} && Warranted(code, samples)
    {
      assert f in findings + [f];
      if Reports(findings, code) {
        var g :| g in findings && CodeOf(g) == code;
        assert g in findings + [f];
      }
    }
  }

  lemma NothingToReport(findings: seq<Finding>, samples: seq<Sample>, codes: set<Code>, code: Code)
    requires AccurateFor(findings, samples, codes)
    requires !Warranted(code, samples)
    ensures AccurateFor(findings, samples, codes + {code})
  {
  }

  function CollectRunIds(samples: seq<Sample>, code: Code): (ids: seq<RunId>)
    ensures ids != [] <==> exists s | s in samples :: Discrepant(code, s)
  {
    var kept := Filter(samples, (s: Sample) => Discrepant(code, s));
    assert kept != [] ==> kept[0] in kept;
    Map(kept, RunIdOf)
  }

  function SampleFinding(code: Code, ids: seq<RunId>): Finding
    requires code.AboutSamples()
  {
    match code
    case NoEvidence => EvidenceUnavailable(ids)
    case Mismatch => WorkflowResultMismatch(ids)
    case TestFailed => BrowserTestFailed(ids)
    case NotClean => CleanupNotClean(ids)
    case Workers => WorkerCountChanged(ids)
  }

  /** Appends the finding about one per-sample discrepancy, if any sample shows it. */
  method ReportSamples(findings: seq<Finding>, samples: seq<Sample>, code: Code, ghost codes: set<Code>)
    returns (extended: seq<Finding>)
    requires code.AboutSamples() && AccurateFor(findings, samples, codes)
    ensures AccurateFor(extended, samples, codes + {code}) && ExtendedBy(findings, extended, code)
  {
    var ids := CollectRunIds(samples, code);
    if |ids| > 0 {
      extended := findings + [SampleFinding(code, ids)];
      ReportAdded(findings, samples, codes, SampleFinding(code, ids));
    } else {
      extended := findings;
      NothingToReport(findings, samples, codes, code);
    }
  }

  /** Appends the finding about several source commits, if there are several. */
  method ReportCommits(findings: seq<Finding>, samples: seq<Sample>, ghost codes: set<Code>)
    returns (extended: seq<Finding>)
    requires AccurateFor(findings, samples, codes)
    ensures AccurateFor(extended, samples, codes + {CommitChanged}) && ExtendedBy(findings, extended, CommitChanged)
  {
    var headShas := Dedup(Map(samples, HeadShaOf));
    DistinctShas(samples, headShas);
    if |headShas| > 1 {
      extended := findings + [SourceCommitChanged(headShas)];
      ReportAdded(findings, samples, codes, SourceCommitChanged(headShas));
    } else {
      extended := findings;
      NothingToReport(findings, samples, codes, CommitChanged);
    }
  }

  /** Appends the finding about overlapping runs, if there are any. */
  method ReportOverlaps(findings: seq<Finding>, samples: seq<Sample>, ghost codes: set<Code>)
    returns (extended: seq<Finding>)
    requires AccurateFor(findings, samples, codes)
    ensures AccurateFor(extended, samples, codes + {Overlapped}) && ExtendedBy(findings, extended, Overlapped)
  {
    SortSorts(samples, StartKey);
    var overlapping := SweepOverlaps(Chronological(samples));
    OverlapReported(samples, overlapping);
    DistinctChronological(samples);
    AmongDeduped(Chronological(samples), overlapping);
    if |overlapping| > 0 {
      extended := findings + [WorkflowRunsOverlapped(Dedup(overlapping))];
      ReportAdded(findings, samples, codes, WorkflowRunsOverlapped(Dedup(overlapping)));
    } else {
      extended := findings;
      NothingToReport(findings, samples, codes, Overlapped);
    }
  }

  lemma DistinctChronological(samples: seq<Sample>)
    ensures DistinctIds(samples) ==> DistinctIds(Chronological(samples))
  {
    if DistinctIds(samples) {
      SortSorts(samples, StartKey);
      DistinctPermutes(samples, Chronological(samples));
      var c := Chronological(samples);
      forall i, j | 0 <= i < j < |c|
        ensures c[i].runId != c[j].runId
      {
        assert c[i] in samples && c[j] in samples && c[i] != c[j];
      }
    }
  }

  lemma {:induction false} AmongDeduped(c: seq<Sample>, ids: seq<RunId>)
    ensures IdsAmong(c, Dedup(ids)) == IdsAmong(c, ids)
  {
    hide Dedup;
    if c != [] {
      AmongDeduped(c[..|c| - 1], ids);
    }
  }

  /** The place of a code in the report. */
  function Place(code: Code): nat {
    match code
    case Shortfall => 0
    case Exceeded => 1
    case CommitChanged => 2
    case Overlapped => 3
    case NoEvidence => 4
    case Mismatch => 5
    case TestFailed => 6
    case NotClean => 7
    case Workers => 8
  }

  /** Each finding in its place, and none twice. */
  ghost predicate InPlace(findings: seq<Finding>) {
    forall i, j | 0 <= i < j < |findings| :: Place(CodeOf(findings[i])) < Place(CodeOf(findings[j]))
  }

  /** The findings have been extended by at most one, with this code. */
  predicate ExtendedBy(findings: seq<Finding>, extended: seq<Finding>, code: Code) {
    extended == findings || (|extended| == |findings| + 1 && extended[..|findings|] == findings
      && CodeOf(extended[|findings|]) == code)
  }

  /** Findings in place that all come in front of this one. */
  ghost predicate InPlaceUpTo(findings: seq<Finding>, place: nat) {
    InPlace(findings) && forall f | f in findings :: Place(CodeOf(f)) < place
  }

  lemma StillInPlace(findings: seq<Finding>, extended: seq<Finding>, code: Code)
    requires InPlaceUpTo(findings, Place(code)) && ExtendedBy(findings, extended, code)
    ensures InPlaceUpTo(extended, Place(code) + 1)
  {
  }

  /** The findings about the number of samples. */
  method ReportCounts(samples: seq<Sample>) returns (findings: seq<Finding>)
    ensures AccurateFor(findings, samples, {Shortfall, Exceeded}) && InPlaceUpTo(findings, 2)
  {
    hide AccurateFor, InPlaceUpTo, ExtendedBy;
    findings := [];
    NothingReported(samples);
    if |samples| < REQUIRED_SAMPLE_COUNT {
      ReportAdded(findings, samples, {}, SampleCountShortfall(|samples|, REQUIRED_SAMPLE_COUNT));
      findings := findings + [SampleCountShortfall(|samples|, REQUIRED_SAMPLE_COUNT)];
    } else {
      NothingToReport(findings, samples, {}, Shortfall);
    }
    assert {} + {Shortfall} == {Shortfall};
    OneExtends([], findings, Shortfall);
    StillInPlace([], findings, Shortfall);
    ghost var before := findings;
    if |samples| > REQUIRED_SAMPLE_COUNT {
      ReportAdded(findings, samples, {Shortfall}, SampleCountExceeded(|samples|, REQUIRED_SAMPLE_COUNT));
      findings := findings + [SampleCountExceeded(|samples|, REQUIRED_SAMPLE_COUNT)];
    } else {
      NothingToReport(findings, samples, {Shortfall}, Exceeded);
    }
    assert {Shortfall} + {Exceeded} == {Shortfall, Exceeded};
    OneExtends(before, findings, Exceeded);
    StillInPlace(before, findings, Exceeded);
  }

  /** The findings about single samples, one behind the other. */
  method ReportEach(earlier: seq<Finding>, samples: seq<Sample>, ghost codes: set<Code>)
    returns (findings: seq<Finding>)
    requires AccurateFor(earlier, samples, codes) && InPlaceUpTo(earlier, 4)
    ensures AccurateFor(findings, samples, codes + {NoEvidence, Mismatch, TestFailed, NotClean, Workers})
    ensures InPlaceUpTo(findings, 9)
  {
    hide AccurateFor, InPlaceUpTo, ExtendedBy;
    findings := ReportSamples(earlier, samples, NoEvidence, codes);
    StillInPlace(earlier, findings, NoEvidence);
    ghost var beforeMismatch := findings;
    findings := ReportSamples(findings, samples, Mismatch, codes + {NoEvidence});
    StillInPlace(beforeMismatch, findings, Mismatch);
    assert codes + {NoEvidence} + {Mismatch} == codes + {NoEvidence, Mismatch};
    ghost var beforeTestFailed := findings;
    findings := ReportSamples(findings, samples, TestFailed, codes + {NoEvidence, Mismatch});
    StillInPlace(beforeTestFailed, findings, TestFailed);
    assert codes + {NoEvidence, Mismatch} + {TestFailed} == codes + {NoEvidence, Mismatch, TestFailed};
    ghost var beforeNotClean := findings;
    findings := ReportSamples(findings, samples, NotClean, codes + {NoEvidence, Mismatch, TestFailed});
    StillInPlace(beforeNotClean, findings, NotClean);
    assert codes + {NoEvidence, Mismatch, TestFailed} + {NotClean}
      == codes + {NoEvidence, Mismatch, TestFailed, NotClean};
    ghost var beforeWorkers := findings;
    findings := ReportSamples(findings, samples, Workers, codes + {NoEvidence, Mismatch, TestFailed, NotClean});
    StillInPlace(beforeWorkers, findings, Workers);
    assert codes + {NoEvidence, Mismatch, TestFailed, NotClean} + {Workers}
      == codes + {NoEvidence, Mismatch, TestFailed, NotClean, Workers};
  }

  method CreateFindings(samples: seq<Sample>) returns (findings: seq<Finding>)
    ensures Accurate(findings, samples) && InPlace(findings)
  {
    hide AccurateFor, InPlaceUpTo, ExtendedBy;
    findings := ReportCounts(samples);
    ghost var counts, codes := findings, {Shortfall, Exceeded};
    findings := ReportCommits(findings, samples, codes);
    StillInPlace(counts, findings, CommitChanged);
    ghost var commits := findings;
    codes := codes + {CommitChanged};
    findings := ReportOverlaps(findings, samples, codes);
    StillInPlace(commits, findings, Overlapped);
    codes := codes + {Overlapped};
    findings := ReportEach(findings, samples, codes);
    AllReported(findings, samples, codes + {NoEvidence, Mismatch, TestFailed, NotClean, Workers});
  }

  lemma NothingReported(samples: seq<Sample>)
    ensures AccurateFor([], samples, {}) && InPlaceUpTo([], 0)
  {
  }

  lemma OneExtends(before: seq<Finding>, findings: seq<Finding>, code: Code)
    requires findings == before || (findings != [] && findings == before + [findings[|findings| - 1]]
      && CodeOf(findings[|findings| - 1]) == code)
    ensures ExtendedBy(before, findings, code)
  {
  }

  lemma AllReported(findings: seq<Finding>, samples: seq<Sample>, codes: set<Code>)
    requires AccurateFor(findings, samples, codes) && InPlaceUpTo(findings, 9)
    requires codes
      == {Shortfall, Exceeded, CommitChanged, Overlapped, NoEvidence, Mismatch, TestFailed, NotClean, Workers}
    ensures Accurate(findings, samples) && InPlace(findings)
  {
    forall code: Code
      ensures code in codes
    {
      match code
      case Shortfall | Exceeded | CommitChanged | Overlapped =>
      case NoEvidence | Mismatch | TestFailed | NotClean | Workers =>
    }
  }

  lemma DistinctShas(samples: seq<Sample>, headShas: seq<Sha>)
    requires headShas == Dedup(Map(samples, HeadShaOf))
    ensures |headShas| > 1 <==> !OneCommit(samples)
    ensures forall h :: h in headShas <==> exists s | s in samples :: s.workflowRun.headSha == h
  {
    var all := Map(samples, HeadShaOf);
    forall h
      ensures h in all <==> exists s | s in samples :: s.workflowRun.headSha == h
    {
      if h in all {
        var i :| 0 <= i < |all| && all[i] == h;
        assert samples[i] in samples;
      }
    }
    if |headShas| > 1 {
      assert headShas[0] in headShas && headShas[1] in headShas && headShas[0] != headShas[1];
    }
    if !OneCommit(samples) {
      var s, t :| s in samples && t in samples && s.workflowRun.headSha != t.workflowRun.headSha;
      assert s.workflowRun.headSha in headShas && t.workflowRun.headSha in headShas;
    }
  }

  lemma OverlapReported(samples: seq<Sample>, overlapping: seq<RunId>)
    requires forall id :: id in overlapping <==> TakesPart(Chronological(samples), id)
    ensures |overlapping| > 0 <==> HasOverlap(samples)
  {
    if |overlapping| > 0 {
      assert overlapping[0] in overlapping;
      var a, b :| Overlap(Chronological(samples), a, b)
        && (overlapping[0] == Chronological(samples)[a].runId || overlapping[0] == Chronological(samples)[b].runId);
    }
    if HasOverlap(samples) {
      var c := Chronological(samples);
      var a, b :| Overlap(c, a, b);
      PairTakesPart(c, a, b);
      assert c[a].runId in overlapping;
    }
  }

  // ----- What the findings say of the fields -----

  /** The run IDs of the samples that show this, in the order of the samples. */
  function RunsThat(samples: seq<Sample>, shows: Sample -> bool): seq<RunId> {
    if samples == [] then []
    else
      var last := samples[|samples| - 1];
      RunsThat(samples[..|samples| - 1], shows) + if shows(last) then [last.runId] else []
  }

  lemma {:induction false} RunsThatExact(samples: seq<Sample>, code: Code, shows: Sample -> bool)
    requires forall s :: shows(s) <==> Discrepant(code, s)
    ensures RunsThat(samples, shows) == Map(Filter(samples, (s: Sample) => Discrepant(code, s)), RunIdOf)
  {
    var discrepant := (s: Sample) => Discrepant(code, s);
    if samples != [] {
      var init, last := samples[..|samples| - 1], samples[|samples| - 1];
      RunsThatExact(init, code, shows);
      assert samples == init + [last];
      FilterAppend(init, [last], discrepant);
      assert [last][1..] == [];
      assert Filter([last], discrepant) == if discrepant(last) then [last] else [];
    }
  }

  function HasNoEvidence(): Sample -> bool {
    (s: Sample) => s.evidence.None?
  }

  /** The browser test passed under a workflow that did not succeed, or failed under one that did. */
  function Disagrees(): Sample -> bool {
    (s: Sample) => s.evidence.Some?
      && ((s.evidence.value.passed && s.workflowRun.conclusion != Success)
        || (!s.evidence.value.passed && s.workflowRun.conclusion == Success))
  }

  function Failed(): Sample -> bool {
    (s: Sample) => s.evidence.Some? && !s.evidence.value.passed
  }

  function LeftSomething(): Sample -> bool {
    (s: Sample) => s.evidence.Some? && s.evidence.value.cleanup != Clean
  }

  function NotTwoWorkers(): Sample -> bool {
    (s: Sample) => s.evidence.Some? && s.evidence.value.workerCount != 2
  }

  /** What a finding lists, said of the fields of the samples. */
  ghost predicate SaysSo(f: Finding, samples: seq<Sample>) {
    match f
    case SampleCountShortfall(received, required) => received == |samples| < 10 == required
    case SampleCountExceeded(received, required) => received == |samples| > 10 == required
    case SourceCommitChanged(shas) =>
      && Distinct(shas) && |shas| > 1
      && forall h :: h in shas <==> exists s | s in samples :: s.workflowRun.headSha == h
    case WorkflowRunsOverlapped(ids) => Distinct(ids) && ids != []
    case EvidenceUnavailable(ids) => ids == RunsThat(samples, HasNoEvidence()) != []
    case WorkflowResultMismatch(ids) => ids == RunsThat(samples, Disagrees()) != []
    case BrowserTestFailed(ids) => ids == RunsThat(samples, Failed()) != []
    case CleanupNotClean(ids) => ids == RunsThat(samples, LeftSomething()) != []
    case WorkerCountChanged(ids) => ids == RunsThat(samples, NotTwoWorkers()) != []
  }

  /** Every finding of an accurate report says of the samples what their fields show. */
  lemma FindingsShown(findings: seq<Finding>, samples: seq<Sample>, f: Finding)
    requires Accurate(findings, samples) && f in findings
    ensures SaysSo(f, samples)
  {
    assert Justified(f, samples);
    hide RunsThat, Filter, IdsAmong, OneCommit, Accurate, HasOverlap;
    match f {
      case SampleCountShortfall(_, _) =>
      case SampleCountExceeded(_, _) =>
      case SourceCommitChanged(shas) =>
        SeveralCommits(samples, shas);
      case WorkflowRunsOverlapped(ids) =>
        SomeOverlap(samples, ids);
      case EvidenceUnavailable(_) =>
        RunsThatExact(samples, NoEvidence, HasNoEvidence());
      case WorkflowResultMismatch(_) =>
        RunsThatExact(samples, Mismatch, Disagrees());
      case BrowserTestFailed(_) =>
        RunsThatExact(samples, TestFailed, Failed());
      case CleanupNotClean(_) =>
        RunsThatExact(samples, NotClean, LeftSomething());
      case WorkerCountChanged(_) =>
        RunsThatExact(samples, Workers, NotTwoWorkers());
    }
  }

  lemma SeveralCommits(samples: seq<Sample>, shas: seq<Sha>)
    requires !OneCommit(samples) && forall h :: h in shas <==> exists s | s in samples :: s.workflowRun.headSha == h
    ensures |shas| > 1
  {
    var s, t :| s in samples && t in samples && s.workflowRun.headSha != t.workflowRun.headSha;
    assert s.workflowRun.headSha in shas && t.workflowRun.headSha in shas;
  }

  lemma SomeOverlap(samples: seq<Sample>, ids: seq<RunId>)
    requires HasOverlap(samples) && forall id :: id in ids <==> TakesPart(Chronological(samples), id)
    ensures ids != []
  {
    var a, b :| Overlap(Chronological(samples), a, b);
    PairTakesPart(Chronological(samples), a, b);
    assert Chronological(samples)[a].runId in ids;
  }

  /** And nothing that the fields of a sample show goes unreported. */
  lemma NothingUnreported(findings: seq<Finding>, samples: seq<Sample>, s: Sample, t: Sample)
    requires Accurate(findings, samples) && s in samples && t in samples
    ensures |samples| < 10 ==> exists f | f in findings :: f.SampleCountShortfall?
    ensures |samples| > 10 ==> exists f | f in findings :: f.SampleCountExceeded?
    ensures s.workflowRun.headSha != t.workflowRun.headSha ==> exists f | f in findings :: f.SourceCommitChanged?
    ensures HasNoEvidence()(s) ==> exists f | f in findings :: f.EvidenceUnavailable?
    ensures Disagrees()(s) ==> exists f | f in findings :: f.WorkflowResultMismatch?
    ensures Failed()(s) ==> exists f | f in findings :: f.BrowserTestFailed?
    ensures LeftSomething()(s) ==> exists f | f in findings :: f.CleanupNotClean?
    ensures NotTwoWorkers()(s) ==> exists f | f in findings :: f.WorkerCountChanged?
  {
    hide Accurate;
    if |samples| < 10 {
      var f := FindingFor(findings, samples, Shortfall);
    }
    if |samples| > 10 {
      var f := FindingFor(findings, samples, Exceeded);
    }
    if s.workflowRun.headSha != t.workflowRun.headSha {
      var f := FindingFor(findings, samples, CommitChanged);
    }
    if HasNoEvidence()(s) {
      assert Discrepant(NoEvidence, s);
      var f := FindingFor(findings, samples, NoEvidence);
    }
    if Disagrees()(s) {
      assert Discrepant(Mismatch, s);
      var f := FindingFor(findings, samples, Mismatch);
    }
    if Failed()(s) {
      assert Discrepant(TestFailed, s);
      var f := FindingFor(findings, samples, TestFailed);
    }
    if LeftSomething()(s) {
      assert Discrepant(NotClean, s);
      var f := FindingFor(findings, samples, NotClean);
    }
    if NotTwoWorkers()(s) {
      assert Discrepant(Workers, s);
      var f := FindingFor(findings, samples, Workers);
    }
  }

  lemma FindingFor(findings: seq<Finding>, samples: seq<Sample>, code: Code) returns (f: Finding)
    requires Accurate(findings, samples) && Warranted(code, samples)
    ensures f in findings && CodeOf(f) == code
  {
    hide Justified, Warranted;
    assert Reports(findings, code);
    f :| f in findings && CodeOf(f) == code;
  }

  // ----- Verdict -----

  datatype ReviewStatus = BaselineConfirmed | Incomplete | ReviewRequired

  function GetReviewStatus(findings: seq<Finding>): ReviewStatus {
    if findings == [] then BaselineConfirmed
    else if forall f | f in findings :: f.SampleCountShortfall? then Incomplete
    else ReviewRequired
  }

  predicate Good(s: Sample) {
    && s.workflowRun.conclusion.Success?
    && s.evidence.Some?
    && s.evidence.value.passed
    && s.evidence.value.cleanup.Clean?
    && s.evidence.value.workerCount == 2
  }

  /** Nothing about the samples is wrong; only their number may be. */
  ghost predicate Flawless(samples: seq<Sample>) {
    OneCommit(samples) && !HasOverlap(samples) && forall s | s in samples :: Good(s)
  }

  /** The verdict decides exactly what it claims to decide. */
  lemma VerdictExact(samples: seq<Sample>, findings: seq<Finding>)
    requires Accurate(findings, samples)
    ensures GetReviewStatus(findings) == BaselineConfirmed <==> |samples| == REQUIRED_SAMPLE_COUNT && Flawless(samples)
    ensures GetReviewStatus(findings) == Incomplete <==> |samples| < REQUIRED_SAMPLE_COUNT && Flawless(samples)
  {
    FlawlessUnreported(samples);
    StatusByCodes(findings);
    hide GetReviewStatus, Reports, Flawless, Justified;
    forall code: Code
      ensures Reports(findings, code) <==> Warranted(code, samples)
    {
    }
    assert Reports(findings, Shortfall) <==> |samples| < REQUIRED_SAMPLE_COUNT;
    assert Reports(findings, Exceeded) <==> |samples| > REQUIRED_SAMPLE_COUNT;
    assert (forall code | code != Shortfall && code != Exceeded :: !Reports(findings, code)) <==> Flawless(samples);
  }

  lemma StatusByCodes(findings: seq<Finding>)
    ensures GetReviewStatus(findings) == BaselineConfirmed <==> forall code :: !Reports(findings, code)
    ensures GetReviewStatus(findings) == Incomplete <==>
      Reports(findings, Shortfall) && forall code | code != Shortfall :: !Reports(findings, code)
  {
    if findings != [] {
      assert findings[0] in findings && Reports(findings, CodeOf(findings[0]));
    }
    if f :| f in findings && !f.SampleCountShortfall? {
      assert Reports(findings, CodeOf(f));
    }
  }

  lemma FlawlessUnreported(samples: seq<Sample>)
    ensures Flawless(samples) <==> forall code | code != Shortfall && code != Exceeded :: !Warranted(code, samples)
  {
    GoodSamplesUnreported(samples);
    assert CommitChanged != Shortfall && Overlapped != Shortfall;
    assert Warranted(CommitChanged, samples) <==> !OneCommit(samples);
    assert Warranted(Overlapped, samples) <==> HasOverlap(samples);
  }

  // Being good is having none of the five per-sample discrepancies.
  lemma GoodSamplesUnreported(samples: seq<Sample>)
    ensures (forall s | s in samples :: Good(s)) <==>
      forall code: Code | code.AboutSamples() :: !Warranted(code, samples)
  {
    if s :| s in samples && !Good(s) {
      if Discrepant(NoEvidence, s) {
        assert Warranted(NoEvidence, samples);
      } else if Discrepant(Mismatch, s) {
        assert Warranted(Mismatch, samples);
      } else if Discrepant(TestFailed, s) {
        assert Warranted(TestFailed, samples);
      } else if Discrepant(NotClean, s) {
        assert Warranted(NotClean, samples);
      } else {
        assert Warranted(Workers, samples);
      }
    }
  }
}
