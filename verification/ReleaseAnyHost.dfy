/**
 The same runs on any host, whatever it lists for the tag when they begin: what reaches the host is a list of writes
 each of which was in order when it arrived.
 */
module ReleaseAnyHost {
  import opened Common
  import opened ReleasePolicy
  import opened ReleaseRemote
  import opened ReleaseService
  import opened ReleaseCampaign

  /** The release that a call for this identifier addresses is an unpublished one of this job. */
  predicate OwnDraftAt(w: World, id: int, k: nat, job: Job) {
    k < |w.releases| && Position(w.releases, id) == Some(k) && Owned(w.releases[k], job.inputs, false)
  }

  /**
   The policy is enabled and the tag in place; a creation meets no release for the tag; an upload brings a validated
   asset to an owned draft that has none of its name; a publication meets an owned draft with the complete inventory.
   */
  ghost predicate InOrder(w: World, request: Request, job: Job) {
    && w.immutablePolicy && w.tagCommit == Some(job.inputs.revision)
    && match request
       case CreateDraft(inputs) => inputs == job.inputs && WithTag(w.releases, job.inputs.releaseTag) == []
       case UploadAsset(id, asset) => asset in job.assets
         && exists k: nat :: OwnDraftAt(w, id, k, job) && asset.name !in Names(w.releases[k].assets)
       case PublishDraft(id, prerelease) => prerelease == job.inputs.isPrerelease
         && exists k: nat :: OwnDraftAt(w, id, k, job) && CompleteInventory(w.releases[k].assets, job.assets)
       case _ => false
  }

  /** The host after a list of writes. */
  function Replay(w0: World, log: seq<Request>): World {
    if log == [] then w0 else Perform(Replay(w0, log[..|log| - 1]), log[|log| - 1]).0
  }

  ghost predicate AllInOrder(w0: World, log: seq<Request>, job: Job) {
    forall i | 0 <= i < |log| :: InOrder(Replay(w0, log[..i]), log[i], job)
  }

  ghost predicate Lawful(c: Conn, w0: World, job: Job) {
    c.world == Replay(w0, WriteLog(c.trace)) && AllInOrder(w0, WriteLog(c.trace), job)
  }

  lemma WriteIsLawful(c: Conn, request: Request, w0: World, job: Job)
    requires Quiet(c.script) && Lawful(c, w0, job) && IsWrite(request) && InOrder(c.world, request, job)
    ensures Lawful(Issue(c, request).0, w0, job) && Quiet(Issue(c, request).0.script)
  {
    hide InOrder, Issue, Perform;
    WriteCall(c, request);
    var log, c' := WriteLog(c.trace), Issue(c, request).0;
    if WriteLog(c'.trace) == log + [request] {
      forall i | 0 <= i < |log| + 1
        ensures InOrder(Replay(w0, (log + [request])[..i]), (log + [request])[i], job)
      {
        assert (log + [request])[..i] == log[..i];
        assert log[..|log|] == log;
      }
      assert (log + [request])[..|log|] == log;
    }
  }

  lemma PositionStays(releases: seq<Release>, k: nat, r: Release, id: int)
    requires k < |releases| && r.id == releases[k].id
    ensures Position(releases[k := r], id) == Position(releases, id)
  {
    if k > 0 && releases[0].id != id {
      assert releases[k := r][1..] == releases[1..][k - 1 := r];
      PositionStays(releases[1..], k - 1, r, id);
    } else if k == 0 {
      assert releases[k := r][1..] == releases[1..];
    }
  }

  // ----- The phases -----

  // An accepted upload leaves an owned draft with one more asset.
  lemma UploadMeetsDraft(w: World, id: int, k: nat, asset: LocalAsset, job: Job)
    requires OwnDraftAt(w, id, k, job) && Perform(w, UploadAsset(id, asset)).1.Done?
    ensures var w' := Perform(w, UploadAsset(id, asset)).0;
      && w'.immutablePolicy == w.immutablePolicy && w'.tagCommit == w.tagCommit && OwnDraftAt(w', id, k, job)
      && w'.releases[k].assets == w.releases[k].assets + [NewAsset(w, asset)]
  {
    var r := w.releases[k];
    PositionStays(w.releases, k, r.(assets := r.assets + [NewAsset(w, asset)]), id);
  }

  /** Staging is under way on an owned draft, and skips exactly what is there. */
  ghost predicate Underway(c: Conn, id: int, k: nat, job: Job, present: set<AssetName>, rest: seq<LocalAsset>) {
    && Quiet(c.script) && c.world.immutablePolicy && c.world.tagCommit == Some(job.inputs.revision)
    && OwnDraftAt(c.world, id, k, job)
    && (forall a | a in rest :: a in job.assets) && SkipsExact(rest, present, c.world.releases[k])
  }

  lemma OneStagedLawful(c: Conn, id: int, k: nat, w0: World, job: Job, inputs: Inputs, present: set<AssetName>,
      rest: seq<LocalAsset>)
    requires Lawful(c, w0, job) && Underway(c, id, k, job, present, rest)
    requires rest != [] && rest[0].name !in present
    ensures var run := StageOne(c, id, inputs, job.assets, rest[0]);
      Lawful(run.conn, w0, job) && (run.Went? ==> Underway(run.conn, id, k, job, present, rest[1..]))
  {
    hide Issue, Perform, SubInventory, CompleteInventory, WriteLog, Replay, Owned;
    var stage, asset := DraftAssetStaging, rest[0];
    ReadCall(c, ReadTag);
    var step1 := ResolveTag(c, inputs, stage);
    if step1.Went? {
      ReadCall(step1.conn, ReadRelease(id));
      var step2 := GetOwnedRelease(step1.conn, id, inputs, false, stage);
      if step2.Went? && step2.value.uploadsTo == id {
        assert asset in rest;
        WriteIsLawful(step2.conn, UploadAsset(id, asset), w0, job);
        WriteCall(step2.conn, UploadAsset(id, asset));
        var step3 := Upload(step2.conn, id, step2.value, asset, stage);
        if step3.Went? {
          UploadMeetsDraft(c.world, id, k, asset, job);
          SkipsStayExact(rest, present, c.world.releases[k], step3.conn.world.releases[k]);
          ReadCall(step3.conn, ListAssets(id));
        }
      }
    }
  }

  lemma {:induction false} StagingLawful(c: Conn, id: int, k: nat, w0: World, job: Job, inputs: Inputs,
      present: set<AssetName>, rest: seq<LocalAsset>)
    requires Lawful(c, w0, job) && Underway(c, id, k, job, present, rest)
    ensures var run := StageAssets(c, id, inputs, job.assets, present, rest);
      Lawful(run.conn, w0, job) && (run.Went? ==> Quiet(run.conn.script))
    decreases rest
  {
    hide StageOne, OwnDraftAt, Lawful;
    if rest != [] {
      if rest[0].name in present {
        StagingLawful(c, id, k, w0, job, inputs, present, rest[1..]);
      } else {
        OneStagedLawful(c, id, k, w0, job, inputs, present, rest);
        var step := StageOne(c, id, inputs, job.assets, rest[0]);
        if step.Went? {
          StagingLawful(step.conn, id, k, w0, job, inputs, present, rest[1..]);
        }
      }
    }
  }

  // The four looks meet an owned draft, and a listing without strange entries is all of it.
  lemma LooksMeetDraft(c: Conn, job: Job, id: int, inputs: Inputs, complete: bool, stage: Stage)
    requires Quiet(c.script) && inputs == job.inputs.(releaseId := inputs.releaseId) && job.inputs.releaseId.None?
    requires FourCalls(c, id, inputs, job.assets, complete, stage).Went?
    ensures var run := FourCalls(c, id, inputs, job.assets, complete, stage);
      && Unwritten(c, run.conn) && c.world.immutablePolicy && c.world.tagCommit == Some(inputs.revision)
      && exists k: nat ::
        && OwnDraftAt(c.world, id, k, job) && run.value == Names(c.world.releases[k].assets)
        && (complete ==> CompleteInventory(c.world.releases[k].assets, job.assets))
  {
    hide FourCalls, Issue;
    FourCallsRead(c, id, inputs, job.assets, complete, stage);
    var k := Position(c.world.releases, id).value;
    FourNamesAreAll(Perform(c.world, ListAssets(id)).1.assets, job.assets);
    assert OwnDraftAt(c.world, id, k, job);
  }

  lemma PublicationLawful(c: Conn, id: int, w0: World, job: Job, inputs: Inputs, imageRef: string)
    requires Quiet(c.script) && Lawful(c, w0, job) && inputs == job.inputs.(releaseId := inputs.releaseId)
    requires InOrder(c.world, PublishDraft(id, inputs.isPrerelease), job)
    ensures Lawful(PublishAndVerify(c, id, inputs, job.assets, imageRef).conn, w0, job)
  {
    hide Issue, Perform, VerifyBehind, InOrder, AllInOrder;
    WriteIsLawful(c, PublishDraft(id, inputs.isPrerelease), w0, job);
    var step := Publish(c, id, inputs, PublicationAndVerification);
    if step.Went? {
      VerifyBehindReads(step.conn, id, inputs, job.assets, imageRef);
    }
  }

  lemma FinalizeLawful(c: Conn, w0: World, job: Job, inputs: Inputs, imageRef: string)
    requires Proper(job) && Quiet(c.script) && Lawful(c, w0, job)
    requires inputs == job.inputs.(releaseId := inputs.releaseId)
    ensures Lawful(Finalize(c, inputs, job.assets, imageRef).conn, w0, job)
  {
    hide Issue, Perform, FourCalls, StageAssets, PublishAndVerify, Owned, SubInventory, CompleteInventory, Names;
    hide AllInOrder;
    if inputs.releaseId.Some? {
      var id := inputs.releaseId.value;
      FourCallsRead(c, id, inputs, job.assets, false, PrepublicationChecks);
      var step1 := FourCalls(c, id, inputs, job.assets, false, PrepublicationChecks);
      if step1.Went? {
        LooksMeetDraft(c, job, id, inputs, false, PrepublicationChecks);
        var k: nat :| OwnDraftAt(c.world, id, k, job) && step1.value == Names(c.world.releases[k].assets);
        SkipsAtStart(job, c.world.releases[k]);
        StagingLawful(step1.conn, id, k, w0, job, inputs, step1.value, job.assets);
        var step2 := StageAssets(step1.conn, id, inputs, job.assets, step1.value, job.assets);
        if step2.Went? {
          FourCallsRead(step2.conn, id, inputs, job.assets, true, FinalPublicationChecks);
          var step3 := FourCalls(step2.conn, id, inputs, job.assets, true, FinalPublicationChecks);
          if step3.Went? {
            LooksMeetDraft(step2.conn, job, id, inputs, true, FinalPublicationChecks);
            PublicationLawful(step3.conn, id, w0, job, inputs, imageRef);
          }
        }
      }
    }
  }

  lemma PrepareLawful(c: Conn, w0: World, job: Job)
    requires Proper(job) && Quiet(c.script) && Lawful(c, w0, job)
    ensures Lawful(Prepare(c, job.inputs).conn, w0, job)
  {
    hide Issue, ConfirmDraft, AllInOrder, WithTag;
    var stage := PrepublicationChecks;
    ReadCall(c, ReadPolicy);
    var step1 := AssertImmutablePolicy(c, stage);
    if step1.Went? {
      ReadCall(step1.conn, ReadTag);
      var step2 := ResolveTag(step1.conn, job.inputs, stage);
      if step2.Went? {
        ReadCall(step2.conn, FindReleases(job.inputs.releaseTag));
        var step3 := FindByTag(step2.conn, job.inputs, stage);
        if step3.Went? && |step3.value| <= 1 {
          AdoptOrCreateLawful(step3.conn, step3.value, w0, job);
        }
      }
    }
  }

  lemma AdoptOrCreateLawful(c: Conn, found: seq<Release>, w0: World, job: Job)
    requires Quiet(c.script) && Lawful(c, w0, job) && |found| <= 1
      && found == WithTag(c.world.releases, job.inputs.releaseTag)
    requires c.world.immutablePolicy && c.world.tagCommit == Some(job.inputs.revision)
    ensures Lawful(AdoptOrCreate(c, found, job.inputs).conn, w0, job)
  {
    hide Issue, Perform, ConfirmDraft, AllInOrder, WithTag;
    if found != [] {
      ConfirmDraftReads(c, found[0], job.inputs, true);
    } else {
      WriteIsLawful(c, CreateDraft(job.inputs), w0, job);
      var step := Create(c, job.inputs, PrepublicationChecks);
      if step.Went? {
        ConfirmDraftReads(step.conn, step.value, job.inputs, false);
      }
    }
  }

  /** After any runs on any host, however each was cut off: the host is what the writes made of it, each in order. */
  lemma {:induction false} CampaignLawful(w0: World, job: Job, runs: seq<Run>)
    requires Proper(job) && QuietRuns(runs)
    ensures Lawful(Campaign(Conn(w0, [], []), job, runs), w0, job)
  {
    hide Issue, Prepare, Finalize;
    if runs != [] {
      var before := Campaign(Conn(w0, [], []), job, runs[..|runs| - 1]);
      CampaignLawful(w0, job, runs[..|runs| - 1]);
      var run := runs[|runs| - 1];
      assert run in runs;
      match run {
        case PrepareRun(script) => PrepareLawful(before.(script := script), w0, job);
        case FinalizeRun(script, id, imageRef) =>
          FinalizeLawful(before.(script := script), w0, job, job.inputs.(releaseId := Some(id)), imageRef);
      }
    }
  }

  // ----- What that says about the whole list of writes -----

  /** What no write ever changes about a release. */
  predicate SameBut(r: Release, r': Release) {
    && r'.id == r.id && r'.tagName == r.tagName && r'.target == r.target && r'.markers == r.markers
    && (!r.draft ==> !r'.draft)
    && (forall a | a in r.assets :: a in r'.assets)
  }

  lemma OneWrite(w: World, request: Request, job: Job)
    requires InOrder(w, request, job)
    ensures var w' := Perform(w, request).0;
      && |w.releases| <= |w'.releases|
      && (forall k | 0 <= k < |w.releases| :: SameBut(w.releases[k], w'.releases[k]))
      && (forall k | 0 <= k < |w.releases| && !Owned(w.releases[k], job.inputs, false) ::
           w'.releases[k] == w.releases[k])
  {
  }

  lemma {:induction false} LaterHost(w0: World, log: seq<Request>, job: Job, i: nat)
    requires AllInOrder(w0, log, job) && i <= |log|
    ensures var w, w' := Replay(w0, log[..i]), Replay(w0, log);
      && |w.releases| <= |w'.releases|
      && (forall k | 0 <= k < |w.releases| :: SameBut(w.releases[k], w'.releases[k]))
      && (forall k | 0 <= k < |w.releases| && !Owned(w.releases[k], job.inputs, false) ::
           w'.releases[k] == w.releases[k])
  {
    hide Perform, InOrder, Owned;
    if i == |log| {
      assert log[..i] == log;
    } else {
      var before := log[..|log| - 1];
      assert forall j | 0 <= j < |before| :: before[..j] == log[..j];
      LaterHost(w0, before, job, i);
      assert before[..i] == log[..i];
      OneWrite(Replay(w0, before), log[|log| - 1], job);
    }
  }

  lemma {:induction false} SamePosition(a: seq<Release>, b: seq<Release>, id: int)
    requires |a| <= |b| && (forall k | 0 <= k < |a| :: b[k].id == a[k].id) && Position(a, id).Some?
    ensures Position(b, id) == Position(a, id)
  {
    if a[0].id != id {
      SamePosition(a[1..], b[1..], id);
    }
  }

  // Between two writes: the later one meets every release where it was, with what it had.
  lemma Between(w0: World, log: seq<Request>, job: Job, i: nat, j: nat)
    requires AllInOrder(w0, log, job) && i < j < |log|
    ensures var w, w' := Replay(w0, log[..i + 1]), Replay(w0, log[..j]);
      && |w.releases| <= |w'.releases|
      && (forall k | 0 <= k < |w.releases| :: SameBut(w.releases[k], w'.releases[k]))
      && (forall id | Position(w.releases, id).Some? :: Position(w'.releases, id) == Position(w.releases, id))
    ensures Replay(w0, log[..i + 1]) == Perform(Replay(w0, log[..i]), log[i]).0
    ensures InOrder(Replay(w0, log[..i]), log[i], job) && InOrder(Replay(w0, log[..j]), log[j], job)
  {
    hide Perform, InOrder, Position;
    assert forall n | 0 <= n < j :: log[..j][..n] == log[..n];
    assert log[..j][..i + 1] == log[..i + 1] && log[..i + 1][..i] == log[..i];
    LaterHost(w0, log[..j], job, i + 1);
    var w, w' := Replay(w0, log[..i + 1]), Replay(w0, log[..j]);
    forall id | Position(w.releases, id).Some?
      ensures Position(w'.releases, id) == Position(w.releases, id)
    {
      SamePosition(w.releases, w'.releases, id);
    }
  }

  lemma CreationIsFirst(w0: World, log: seq<Request>, job: Job, i: nat)
    requires AllInOrder(w0, log, job) && i < |log| && log[i].CreateDraft?
    ensures i == 0 && WithTag(w0.releases, job.inputs.releaseTag) == []
  {
    hide Perform, SameBut, WithTag;
    assert log[..0] == [] && Replay(w0, []) == w0;
    if i > 0 {
      Between(w0, log, job, 0, i);
      FirstLeavesTag(w0, log[0], job);
      TagStays(Replay(w0, log[..1]), Replay(w0, log[..i]), job);
    }
  }

  lemma TagStays(w: World, w': World, job: Job)
    requires |w.releases| <= |w'.releases| && forall k | 0 <= k < |w.releases| :: SameBut(w.releases[k], w'.releases[k])
    requires exists k :: 0 <= k < |w.releases| && w.releases[k].tagName == job.inputs.releaseTag
    ensures WithTag(w'.releases, job.inputs.releaseTag) != []
  {
    var k :| 0 <= k < |w.releases| && w.releases[k].tagName == job.inputs.releaseTag;
    assert SameBut(w.releases[k], w'.releases[k]);
    assert w'.releases[k] in WithTag(w'.releases, job.inputs.releaseTag);
  }

  // After any write in order there is a release for the tag.
  lemma FirstLeavesTag(w: World, request: Request, job: Job)
    requires InOrder(w, request, job)
    ensures var w' := Perform(w, request).0;
      exists k :: 0 <= k < |w'.releases| && w'.releases[k].tagName == job.inputs.releaseTag
  {
    var w' := Perform(w, request).0;
    match request {
      case CreateDraft(_) =>
        assert w'.releases[|w.releases|].tagName == job.inputs.releaseTag;
      case UploadAsset(id, asset) =>
        var k: nat :| OwnDraftAt(w, id, k, job);
        assert w'.releases[k].tagName == job.inputs.releaseTag;
      case PublishDraft(id, prerelease) =>
        var k: nat :| OwnDraftAt(w, id, k, job);
        assert w'.releases[k].tagName == job.inputs.releaseTag;
    }
  }

  /** The host takes the upload. */
  predicate Accepts(w: World, request: Request) {
    Perform(w, request).1.Done?
  }

  lemma UploadNotRepeated(w0: World, log: seq<Request>, job: Job, i: nat, j: nat)
    requires AllInOrder(w0, log, job) && i < j < |log| && log[i].UploadAsset? && log[j].UploadAsset?
    requires Accepts(Replay(w0, log[..i]), log[i]) && log[i].id == log[j].id
    ensures log[i].asset.name != log[j].asset.name
  {
    Between(w0, log, job, i, j);
    var w, id, asset := Replay(w0, log[..i]), log[i].id, log[i].asset;
    var w', w'' := Replay(w0, log[..i + 1]), Replay(w0, log[..j]);
    var k: nat :| OwnDraftAt(w, id, k, job);
    UploadMeetsDraft(w, id, k, asset, job);
    hide Perform, SubInventory;
    assert SameBut(w'.releases[k], w''.releases[k]);
    assert NewAsset(w, asset) in w''.releases[k].assets;
  }

  lemma PublicationMeetsDraft(w: World, id: int, k: nat, prerelease: bool, job: Job)
    requires OwnDraftAt(w, id, k, job)
    ensures var w' := Perform(w, PublishDraft(id, prerelease)).0;
      Position(w'.releases, id) == Some(k) && !w'.releases[k].draft
  {
    PositionStays(w.releases, k, Published(w, w.releases[k], prerelease), id);
  }

  lemma PublicationIsLast(w0: World, log: seq<Request>, job: Job, i: nat, j: nat)
    requires AllInOrder(w0, log, job) && i < j < |log| && log[i].PublishDraft? && !log[j].CreateDraft?
    ensures (log[j].UploadAsset? || log[j].PublishDraft?) && log[j].id != log[i].id
  {
    Between(w0, log, job, i, j);
    var w, id := Replay(w0, log[..i]), log[i].id;
    var w', w'' := Replay(w0, log[..i + 1]), Replay(w0, log[..j]);
    var k: nat :| OwnDraftAt(w, id, k, job);
    PublicationMeetsDraft(w, id, k, log[i].prerelease, job);
    hide Perform, SubInventory, CompleteInventory;
    assert SameBut(w'.releases[k], w''.releases[k]);
  }

  /**
   A draft is created only as the first write, and only where no release for the tag was listed at the start; an upload
   that the host took is not requested again; and no write addresses a release behind its publication.
   */
  ghost predicate OrderlyOn(w0: World, log: seq<Request>, job: Job) {
    && (forall i | 0 <= i < |log| && log[i].CreateDraft? :: i == 0 && WithTag(w0.releases, job.inputs.releaseTag) == [])
    && (forall i, j | 0 <= i < j < |log| && log[i].UploadAsset? && log[j].UploadAsset? && log[i].id == log[j].id
          && log[i].asset.name == log[j].asset.name :: !Accepts(Replay(w0, log[..i]), log[i]))
    && (forall i, j | 0 <= i < j < |log| && log[i].PublishDraft? && !log[j].CreateDraft? ::
          (log[j].UploadAsset? || log[j].PublishDraft?) && log[j].id != log[i].id)
  }

  lemma InOrderIsOrderly(w0: World, log: seq<Request>, job: Job)
    requires AllInOrder(w0, log, job)
    ensures OrderlyOn(w0, log, job)
  {
    hide AllInOrder, WithTag, Accepts, Replay;
    forall i | 0 <= i < |log| && log[i].CreateDraft?
      ensures i == 0 && WithTag(w0.releases, job.inputs.releaseTag) == []
    {
      CreationIsFirst(w0, log, job, i);
    }
    forall i, j | 0 <= i < j < |log| && log[i].UploadAsset? && log[j].UploadAsset? && log[i].id == log[j].id
      && log[i].asset.name == log[j].asset.name
      ensures !Accepts(Replay(w0, log[..i]), log[i])
    {
      if Accepts(Replay(w0, log[..i]), log[i]) {
        UploadNotRepeated(w0, log, job, i, j);
      }
    }
    forall i, j | 0 <= i < j < |log| && log[i].PublishDraft? && !log[j].CreateDraft?
      ensures (log[j].UploadAsset? || log[j].PublishDraft?) && log[j].id != log[i].id
    {
      PublicationIsLast(w0, log, job, i, j);
    }
  }

  /** Whatever the host lists when the runs begin: every write is in order, and the writes together are orderly. */
  lemma AnyHostWrites(w0: World, job: Job, runs: seq<Run>)
    requires Proper(job) && QuietRuns(runs)
    ensures var log := WriteLog(Campaign(Conn(w0, [], []), job, runs).trace);
      AllInOrder(w0, log, job) && OrderlyOn(w0, log, job)
  {
    hide Campaign, AllInOrder, OrderlyOn;
    CampaignLawful(w0, job, runs);
    InOrderIsOrderly(w0, WriteLog(Campaign(Conn(w0, [], []), job, runs).trace), job);
  }

  /**
   Every release that was not an unpublished one of this job is as it was, and the others keep identifier, tag, target,
   marker and assets.
   */
  lemma AnyHostKept(w0: World, job: Job, runs: seq<Run>)
    requires Proper(job) && QuietRuns(runs)
    ensures var w := Campaign(Conn(w0, [], []), job, runs).world;
      && |w0.releases| <= |w.releases|
      && (forall k | 0 <= k < |w0.releases| :: SameBut(w0.releases[k], w.releases[k]))
      && (forall k | 0 <= k < |w0.releases| && !Owned(w0.releases[k], job.inputs, false) ::
           w.releases[k] == w0.releases[k])
  {
    hide Campaign, AllInOrder, SameBut, Owned;
    CampaignLawful(w0, job, runs);
    var log := WriteLog(Campaign(Conn(w0, [], []), job, runs).trace);
    assert log[..0] == [];
    LaterHost(w0, log, job, 0);
  }
}
