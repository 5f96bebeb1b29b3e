/**
 Any number of preparation and finalization runs, one after the other, each cut off at any client call, on a host
 that nobody else changes: what the runs together do to the host, and that the work can always be finished.
 */
module ReleaseCampaign {
  import opened Common
  import opened ReleasePolicy
  import opened ReleaseRemote
  import opened ReleaseService

  /** Calls may be lost or their responses may be, but nobody else writes. */
  predicate Quiet(script: seq<Weather<World>>) {
    forall w | w in script :: !w.Changed?
  }

  /** The release to be made: preparation knows no release identifier yet. */
  datatype Job = Job(inputs: Inputs, assets: seq<LocalAsset>)

  predicate Proper(job: Job) {
    job.inputs.releaseId.None? && Validated(job.assets)
  }

  /** The host before the first run: the release does not exist yet, and identifiers are still to be given out. */
  predicate Fresh(w0: World, job: Job) {
    0 < w0.nextId && forall r | r in w0.releases :: r.tagName != job.inputs.releaseTag && r.id < w0.nextId
  }

  // ----- The invariant -----

  /** The release made so far: the host lists it behind the releases it had before. */
  function Made(w0: World, w: World): Option<Release> {
    if |w.releases| == |w0.releases| + 1 then Some(w.releases[|w0.releases|]) else None
  }

  /** The release is the owned draft with some validated assets, or the immutable publication with all of them. */
  ghost predicate Ours(r: Release, w0: World, job: Job) {
    && r.id == r.uploadsTo == w0.nextId
    && r.tagName == job.inputs.releaseTag && r.target == job.inputs.revision
    && r.markers == [Some(job.inputs.MarkerOf())] && r.prerelease == job.inputs.isPrerelease
    && SubInventory(r.assets, job.assets)
    && (r.draft ==> !r.immutable)
    && (!r.draft ==> r.immutable && r.publishedAt == Some(w0.now) && CompleteInventory(r.assets, job.assets))
  }

  ghost predicate HostInv(w: World, w0: World, job: Job) {
    && w.immutablePolicy == w0.immutablePolicy && w.tagCommit == w0.tagCommit && w.now == w0.now
    && ((w.releases == w0.releases && w.nextId == w0.nextId)
      || (|w.releases| == |w0.releases| + 1 && w.releases[..|w0.releases|] == w0.releases
        && Ours(w.releases[|w0.releases|], w0, job) && w.nextId > w0.nextId))
  }

  /** All writes that reached the host, in order. */
  function WriteLog(trace: seq<Event>): seq<Request> {
    if trace == [] then []
    else
      var last := trace[|trace| - 1].request;
      WriteLog(trace[..|trace| - 1]) + if IsWrite(last) then [last] else []
  }

  function UploadOf(id: int, a: RemoteAsset): Request {
    UploadAsset(id, LocalAsset(a.name, a.size, a.digest))
  }

  function UploadLog(id: int, assets: seq<RemoteAsset>): seq<Request> {
    if assets == [] then [] else UploadLog(id, assets[..|assets| - 1]) + [UploadOf(id, assets[|assets| - 1])]
  }

  /** The writes a release accounts for: its creation, one upload for each asset, its publication. */
  function LogOf(made: Option<Release>, job: Job): seq<Request> {
    match made
    case None => []
    case Some(r) =>
      [CreateDraft(job.inputs)] + UploadLog(r.id, r.assets)
        + if r.draft then [] else [PublishDraft(r.id, job.inputs.isPrerelease)]
  }

  ghost predicate Inv(c: Conn, w0: World, job: Job) {
    HostInv(c.world, w0, job) && WriteLog(c.trace) == LogOf(Made(w0, c.world), job)
  }

  // ----- One call -----

  lemma ReadCall(c: Conn, request: Request)
    requires Quiet(c.script) && !IsWrite(request)
    ensures var (c', reply) := Issue(c, request);
      && c'.world == c.world && Quiet(c'.script) && WriteLog(c'.trace) == WriteLog(c.trace)
      && (reply == Failed || reply == Perform(c.world, request).1)
  {
    var (c', reply) := Issue(c, request);
    if c.script != [] && !c.script[0].Down? {
      assert c.script[0] in c.script;
      assert c'.trace[..|c'.trace| - 1] == c.trace;
    }
  }

  lemma WriteCall(c: Conn, request: Request)
    requires Quiet(c.script) && IsWrite(request)
    ensures var (c', reply) := Issue(c, request);
      && Quiet(c'.script)
      && ((c'.world == c.world && c'.trace == c.trace && reply == Failed)
        || (c'.world == Perform(c.world, request).0 && WriteLog(c'.trace) == WriteLog(c.trace) + [request]
          && (reply == Failed || reply == Perform(c.world, request).1)))
  {
  }

  /** The same host and the same writes: nothing but reads lie between the two. */
  predicate Unwritten(c: Conn, c': Conn) {
    c'.world == c.world && Quiet(c'.script) && WriteLog(c'.trace) == WriteLog(c.trace)
  }

  // ----- Where the release is found -----

  // An owned release in the host can only be the one made here.
  lemma OwnedIsOurs(w: World, w0: World, job: Job, id: int, k: nat, inputs: Inputs, published: bool)
    requires Fresh(w0, job) && HostInv(w, w0, job)
    requires Position(w.releases, id) == Some(k) && Owned(w.releases[k], inputs, published)
      && inputs.releaseTag == job.inputs.releaseTag
    ensures Made(w0, w) == Some(w.releases[k]) && k == |w0.releases| && id == w0.nextId
      && w.releases[k].draft == !published
  {
  }

  lemma MadeIsFound(w: World, w0: World, job: Job)
    requires Fresh(w0, job) && HostInv(w, w0, job) && Made(w0, w).Some?
    ensures Position(w.releases, w0.nextId) == Some(|w0.releases|)
  {
  }

  // The lookup by tag finds the release made here, and nothing else.
  lemma LookupExact(w: World, w0: World, job: Job)
    requires Fresh(w0, job) && HostInv(w, w0, job)
    ensures WithTag(w.releases, job.inputs.releaseTag) == match Made(w0, w) case None => [] case Some(r) => [r]
  {
    var keep := (r: Release) => r.tagName == job.inputs.releaseTag;
    NoneKept(w0.releases, keep);
    if Made(w0, w).Some? {
      assert w.releases == w0.releases + [Made(w0, w).value];
      FilterAppend(w0.releases, [Made(w0, w).value], keep);
      assert [Made(w0, w).value][1..] == [];
    }
  }

  lemma NoneKept(releases: seq<Release>, keep: Release -> bool)
    requires forall r | r in releases :: !keep(r)
    ensures Filter(releases, keep) == []
  {
  }

  // ----- The phases -----

  lemma FourCallsRead(c: Conn, id: int, inputs: Inputs, assets: seq<LocalAsset>, complete: bool, stage: Stage)
    requires Quiet(c.script)
    ensures var run := FourCalls(c, id, inputs, assets, complete, stage);
      && Unwritten(c, run.conn)
      && (run.Went? ==>
        var listing := Perform(c.world, ListAssets(id)).1;
        && c.world.immutablePolicy && c.world.tagCommit == Some(inputs.revision)
        && Position(c.world.releases, id).Some?
        && Owned(c.world.releases[Position(c.world.releases, id).value], inputs, false)
        && listing.AssetsAre? && run.value == Names(listing.assets)
        && if complete then CompleteInventory(listing.assets, assets) else SubInventory(listing.assets, assets))
  {
    hide Issue, SubInventory, CompleteInventory, Names;
    ReadCall(c, ReadPolicy);
    var step1 := AssertImmutablePolicy(c, stage);
    if step1.Went? {
      ReadCall(step1.conn, ReadTag);
      var step2 := ResolveTag(step1.conn, inputs, stage);
      if step2.Went? {
        ReadCall(step2.conn, ReadRelease(id));
        var step3 := GetOwnedRelease(step2.conn, id, inputs, false, stage);
        if step3.Went? {
          ReadCall(step3.conn, ListAssets(id));
        }
      }
    }
  }

  // What the four looks establish about the release made here.
  lemma LooksMeetOurDraft(c: Conn, w0: World, job: Job, id: int, inputs: Inputs, complete: bool, stage: Stage)
    requires Proper(job) && Fresh(w0, job) && Inv(c, w0, job) && Quiet(c.script)
    requires inputs.releaseTag == job.inputs.releaseTag
    requires FourCalls(c, id, inputs, job.assets, complete, stage).Went?
    ensures Made(w0, c.world).Some? && Made(w0, c.world).value.draft && id == w0.nextId
    ensures Position(c.world.releases, id) == Some(|w0.releases|)
    ensures FourCalls(c, id, inputs, job.assets, complete, stage).value == Names(Made(w0, c.world).value.assets)
    ensures complete ==> CompleteInventory(Made(w0, c.world).value.assets, job.assets)
  {
    hide FourCalls, Issue;
    FourCallsRead(c, id, inputs, job.assets, complete, stage);
    var k := Position(c.world.releases, id).value;
    OwnedIsOurs(c.world, w0, job, id, k, inputs, false);
    FourNamesAreAll(c.world.releases[k].assets, job.assets);
  }

  // What an accepted upload makes of the host.
  lemma UploadMeets(w: World, w0: World, job: Job, asset: LocalAsset)
    requires Proper(job) && Fresh(w0, job) && HostInv(w, w0, job)
    requires Made(w0, w).Some? && Made(w0, w).value.draft
    requires asset in job.assets && asset.name !in Names(Made(w0, w).value.assets)
    ensures var (w', reply) := Perform(w, UploadAsset(w0.nextId, asset));
      && reply == Done && HostInv(w', w0, job)
      && Made(w0, w') == Some(Made(w0, w).value.(assets := Made(w0, w).value.assets + [NewAsset(w, asset)]))
  {
  }

  // The release grows by one validated asset.
  lemma UploadKeeps(c: Conn, w0: World, job: Job, asset: LocalAsset)
    requires Proper(job) && Fresh(w0, job) && Inv(c, w0, job) && Quiet(c.script)
    requires Made(w0, c.world).Some? && Made(w0, c.world).value.draft
    requires asset in job.assets && asset.name !in Names(Made(w0, c.world).value.assets)
    ensures var (c', reply) := Issue(c, UploadAsset(w0.nextId, asset));
      && Inv(c', w0, job) && Quiet(c'.script)
      && Made(w0, c'.world).Some? && Made(w0, c'.world).value.draft
      && (reply.Done? ==>
        var r, r' := Made(w0, c.world).value, Made(w0, c'.world).value;
        r'.assets == r.assets + [NewAsset(c.world, asset)])
  {
    hide Issue, Perform, HostInv, WriteLog, Quiet, Names;
    var request := UploadAsset(w0.nextId, asset);
    WriteCall(c, request);
    UploadMeets(c.world, w0, job, asset);
    MadeHasIdentifier(c.world, w0, job);
    var r := Made(w0, c.world).value;
    var added := NewAsset(c.world, asset);
    UploadLogGrows(r.id, r.assets, added, asset);
    assert LogOf(Some(r.(assets := r.assets + [added])), job) == LogOf(Some(r), job) + [request];
  }

  lemma MadeHasIdentifier(w: World, w0: World, job: Job)
    requires HostInv(w, w0, job) && Made(w0, w).Some?
    ensures Made(w0, w).value.id == w0.nextId
  {
  }

  lemma UploadLogGrows(id: int, assets: seq<RemoteAsset>, added: RemoteAsset, asset: LocalAsset)
    requires added.name == asset.name && added.size == asset.size && added.digest == asset.sha256
    ensures UploadLog(id, assets + [added]) == UploadLog(id, assets) + [UploadAsset(id, asset)]
  {
  }

  lemma OneStagedKeeps(c: Conn, w0: World, job: Job, inputs: Inputs, asset: LocalAsset)
    requires Proper(job) && Fresh(w0, job) && Inv(c, w0, job) && Quiet(c.script)
    requires Made(w0, c.world).Some? && Made(w0, c.world).value.draft
    requires asset in job.assets && asset.name !in Names(Made(w0, c.world).value.assets)
    ensures var run := StageOne(c, w0.nextId, inputs, job.assets, asset);
      && Inv(run.conn, w0, job) && Quiet(run.conn.script)
      && Made(w0, run.conn.world).Some?
      && (run.Went? ==>
        && Made(w0, run.conn.world).value.draft
        && exists added ::
             && Made(w0, run.conn.world).value.assets == Made(w0, c.world).value.assets + [added]
             && added.name == asset.name)
  {
    hide Issue, Perform, HostInv, SubInventory, Names, LogOf, WriteLog, Quiet, Owned;
    var id, stage := w0.nextId, DraftAssetStaging;
    ReadCall(c, ReadTag);
    var step1 := ResolveTag(c, inputs, stage);
    if step1.Went? {
      ReadCall(step1.conn, ReadRelease(id));
      var step2 := GetOwnedRelease(step1.conn, id, inputs, false, stage);
      if step2.Went? && step2.value.uploadsTo == id {
        UploadKeeps(step2.conn, w0, job, asset);
        var step3 := Upload(step2.conn, id, step2.value, asset, stage);
        if step3.Went? {
          ReadCall(step3.conn, ListAssets(id));
        }
      }
    }
  }

  /** Among the assets still to come, exactly those already on the release are skipped. */
  ghost predicate SkipsExact(rest: seq<LocalAsset>, present: set<AssetName>, r: Release) {
    && (forall i, j | 0 <= i < j < |rest| :: rest[i].name != rest[j].name)
    && forall a | a in rest :: a.name in present <==> a.name in Names(r.assets)
  }

  lemma {:induction false} StagingKeeps(c: Conn, w0: World, job: Job, inputs: Inputs, present: set<AssetName>,
      rest: seq<LocalAsset>)
    requires Proper(job) && Fresh(w0, job) && Inv(c, w0, job) && Quiet(c.script)
    requires Made(w0, c.world).Some? && Made(w0, c.world).value.draft
    requires (forall a | a in rest :: a in job.assets) && SkipsExact(rest, present, Made(w0, c.world).value)
    ensures var run := StageAssets(c, w0.nextId, inputs, job.assets, present, rest);
      Inv(run.conn, w0, job) && Quiet(run.conn.script)
    decreases rest
  {
    hide Issue, Perform, HostInv, StageOne, SubInventory;
    if rest != [] {
      if rest[0].name in present {
        StagingKeeps(c, w0, job, inputs, present, rest[1..]);
      } else {
        assert rest[0] in rest;
        OneStagedKeeps(c, w0, job, inputs, rest[0]);
        var step := StageOne(c, w0.nextId, inputs, job.assets, rest[0]);
        if step.Went? {
          SkipsStayExact(rest, present, Made(w0, c.world).value, Made(w0, step.conn.world).value);
          StagingKeeps(step.conn, w0, job, inputs, present, rest[1..]);
        }
      }
    }
  }

  lemma SkipsStayExact(rest: seq<LocalAsset>, present: set<AssetName>, r: Release, r': Release)
    requires rest != [] && SkipsExact(rest, present, r)
    requires exists added :: r'.assets == r.assets + [added] && added.name == rest[0].name
    ensures SkipsExact(rest[1..], present, r')
  {
  }

  lemma PublicationKeeps(c: Conn, w0: World, job: Job, inputs: Inputs, imageRef: string)
    requires Proper(job) && Fresh(w0, job) && Inv(c, w0, job) && Quiet(c.script)
    requires inputs == job.inputs.(releaseId := inputs.releaseId)
    requires Made(w0, c.world).Some? && Made(w0, c.world).value.draft
    requires c.world.immutablePolicy && CompleteInventory(Made(w0, c.world).value.assets, job.assets)
    ensures var run := PublishAndVerify(c, w0.nextId, inputs, job.assets, imageRef); Inv(run.conn, w0, job)
  {
    hide Issue, SubInventory, CompleteInventory, Names, VerifyBehind;
    var id := w0.nextId;
    var request := PublishDraft(id, inputs.isPrerelease);
    WriteCall(c, request);
    MadeIsFound(c.world, w0, job);
    var r := Made(w0, c.world).value;
    var w' := Perform(c.world, request).0;
    assert w'.releases[..|w0.releases|] == w0.releases;
    assert [CreateDraft(job.inputs)] + UploadLog(r.id, r.assets) + []
      == [CreateDraft(job.inputs)] + UploadLog(r.id, r.assets);
    var step := Publish(c, id, inputs, PublicationAndVerification);
    assert Inv(step.conn, w0, job);
    if step.Went? {
      VerifyBehindReads(step.conn, id, inputs, job.assets, imageRef);
    }
  }

  lemma VerifyBehindReads(c: Conn, id: int, inputs: Inputs, assets: seq<LocalAsset>, imageRef: string)
    requires Quiet(c.script)
    ensures Unwritten(c, VerifyBehind(c, id, inputs, assets, imageRef).conn)
  {
    hide Issue, Perform, SubInventory, CompleteInventory, Names;
    var stage := PublicationAndVerification;
    ReadCall(c, ReadRelease(id));
    var step1 := GetOwnedRelease(c, id, inputs, true, stage);
    if step1.Went? {
      ReadCall(step1.conn, ReadTag);
      var step2 := ResolveTag(step1.conn, inputs, stage);
      if step2.Went? {
        ReadCall(step2.conn, ListAssets(id));
        var step3 := CheckAssets(step2.conn, id, assets, true, stage);
        if step3.Went? {
          ReadCall(step3.conn, VerifyPublished(inputs.releaseTag));
        }
      }
    }
  }

  lemma FinalizeKeeps(c: Conn, w0: World, job: Job, inputs: Inputs, imageRef: string)
    requires Proper(job) && Fresh(w0, job) && Inv(c, w0, job) && Quiet(c.script)
    requires inputs == job.inputs.(releaseId := inputs.releaseId)
    ensures Inv(Finalize(c, inputs, job.assets, imageRef).conn, w0, job)
  {
    hide Issue, Perform, HostInv, FourCalls, StageAssets, PublishAndVerify;
    hide SubInventory, CompleteInventory, Names, LogOf;
    if inputs.releaseId.Some? {
      var id := inputs.releaseId.value;
      FourCallsRead(c, id, inputs, job.assets, false, PrepublicationChecks);
      var step1 := FourCalls(c, id, inputs, job.assets, false, PrepublicationChecks);
      if step1.Went? {
        LooksMeetOurDraft(c, w0, job, id, inputs, false, PrepublicationChecks);
        SkipsAtStart(job, Made(w0, c.world).value);
        StagingKeeps(step1.conn, w0, job, inputs, step1.value, job.assets);
        var step2 := StageAssets(step1.conn, id, inputs, job.assets, step1.value, job.assets);
        if step2.Went? {
          FourCallsRead(step2.conn, id, inputs, job.assets, true, FinalPublicationChecks);
          var step3 := FourCalls(step2.conn, id, inputs, job.assets, true, FinalPublicationChecks);
          if step3.Went? {
            LooksMeetOurDraft(step2.conn, w0, job, id, inputs, true, FinalPublicationChecks);
            PublicationKeeps(step3.conn, w0, job, inputs, imageRef);
          }
        }
      }
    }
  }

  lemma SkipsAtStart(job: Job, r: Release)
    requires Proper(job)
    ensures SkipsExact(job.assets, Names(r.assets), r)
  {
  }

  lemma PrepareKeeps(c: Conn, w0: World, job: Job)
    requires Proper(job) && Fresh(w0, job) && Inv(c, w0, job) && Quiet(c.script)
    ensures Inv(Prepare(c, job.inputs).conn, w0, job)
  {
    hide Issue, HostInv, AdoptOrCreate, SubInventory, LogOf;
    var stage := PrepublicationChecks;
    ReadCall(c, ReadPolicy);
    var step1 := AssertImmutablePolicy(c, stage);
    if step1.Went? {
      ReadCall(step1.conn, ReadTag);
      var step2 := ResolveTag(step1.conn, job.inputs, stage);
      if step2.Went? {
        ReadCall(step2.conn, FindReleases(job.inputs.releaseTag));
        var step3 := FindByTag(step2.conn, job.inputs, stage);
        if step3.Went? {
          LookupExact(c.world, w0, job);
          AdoptOrCreateKeeps(step3.conn, w0, job, step3.value);
        }
      }
    }
  }

  lemma AdoptOrCreateKeeps(c: Conn, w0: World, job: Job, found: seq<Release>)
    requires Proper(job) && Fresh(w0, job) && Inv(c, w0, job) && Quiet(c.script)
    requires found == match Made(w0, c.world) case None => [] case Some(r) => [r]
    ensures Inv(AdoptOrCreate(c, found, job.inputs).conn, w0, job)
  {
    hide Issue, ConfirmDraft, Names;
    if found != [] {
      ConfirmDraftReads(c, found[0], job.inputs, true);
    } else {
      WriteCall(c, CreateDraft(job.inputs));
      var w' := Perform(c.world, CreateDraft(job.inputs)).0;
      assert w'.releases[..|w0.releases|] == w0.releases;
      assert UploadLog(w0.nextId, []) == [];
      assert LogOf(Made(w0, w'), job) == [CreateDraft(job.inputs)];
      var step := Create(c, job.inputs, PrepublicationChecks);
      assert Inv(step.conn, w0, job);
      if step.Went? {
        ConfirmDraftReads(step.conn, step.value, job.inputs, false);
      }
    }
  }

  lemma ConfirmDraftReads(c: Conn, release: Release, inputs: Inputs, reused: bool)
    requires Quiet(c.script)
    ensures Unwritten(c, ConfirmDraft(c, release, inputs, reused).conn)
  {
    hide Issue, Perform;
    if Owned(release, inputs, false) {
      ReadCall(c, ReadTag);
      var step := ResolveTag(c, inputs, PrepublicationChecks);
      if step.Went? {
        ReadCall(step.conn, ReadRelease(release.id));
      }
    }
  }

  // ----- Campaigns -----

  datatype Run =
    | PrepareRun(script: seq<Weather<World>>)
    | FinalizeRun(script: seq<Weather<World>>, releaseId: int, imageRef: string)

  ghost function PerformRun(c: Conn, job: Job, run: Run): Conn {
    match run
    case PrepareRun(script) => Prepare(c.(script := script), job.inputs).conn
    case FinalizeRun(script, id, imageRef) =>
      Finalize(c.(script := script), job.inputs.(releaseId := Some(id)), job.assets, imageRef).conn
  }

  /** The runs one after the other, keeping the list of all requests that reached the host. */
  ghost function Campaign(c: Conn, job: Job, runs: seq<Run>): Conn {
    if runs == [] then c
    else PerformRun(Campaign(c, job, runs[..|runs| - 1]), job, runs[|runs| - 1])
  }

  ghost predicate QuietRuns(runs: seq<Run>) {
    forall run | run in runs :: Quiet(run.script)
  }

  /** The invariant holds after any runs, however each of them was cut off. */
  lemma {:induction false} CampaignInv(w0: World, job: Job, runs: seq<Run>)
    requires Proper(job) && Fresh(w0, job) && QuietRuns(runs)
    ensures Inv(Campaign(Conn(w0, [], []), job, runs), w0, job)
  {
    hide Issue, Prepare, Finalize;
    if runs != [] {
      var before := Campaign(Conn(w0, [], []), job, runs[..|runs| - 1]);
      CampaignInv(w0, job, runs[..|runs| - 1]);
      var run := runs[|runs| - 1];
      assert run in runs;
      match run {
        case PrepareRun(script) => PrepareKeeps(before.(script := script), w0, job);
        case FinalizeRun(script, id, imageRef) =>
          FinalizeKeeps(before.(script := script), w0, job, job.inputs.(releaseId := Some(id)), imageRef);
      }
    }
  }

  // ----- What the invariant says about the writes -----

  lemma {:induction false} UploadLogAt(id: int, assets: seq<RemoteAsset>)
    ensures |UploadLog(id, assets)| == |assets|
    ensures forall i | 0 <= i < |assets| :: UploadLog(id, assets)[i] == UploadOf(id, assets[i])
  {
    if assets != [] {
      UploadLogAt(id, assets[..|assets| - 1]);
    }
  }

  /**
   The draft is created first and once, each validated asset is uploaded to it at most once, and publication ends
   the writing.
   */
  ghost predicate OrderlyWrites(log: seq<Request>, id: int, job: Job) {
    && (forall i | 0 <= i < |log| :: log[i] == CreateDraft(job.inputs) <==> i == 0)
    && (forall i | 0 <= i < |log| && log[i].CreateDraft? :: i == 0)
    && (forall i | 0 <= i < |log| && log[i].UploadAsset? :: log[i].id == id && log[i].asset in job.assets)
    && (forall i, j | 0 <= i < j < |log| && log[i].UploadAsset? && log[j].UploadAsset? ::
         log[i].asset.name != log[j].asset.name)
    && (forall i | 0 <= i < |log| && log[i].PublishDraft? ::
         i == 5 && |log| == 6 && log[i] == PublishDraft(id, job.inputs.isPrerelease))
  }

  /** The log of a release, position by position. */
  lemma LogAt(r: Release, job: Job)
    ensures var log, n := LogOf(Some(r), job), |r.assets|;
      && |log| == n + (if r.draft then 1 else 2)
      && log[0] == CreateDraft(job.inputs)
      && (forall i | 1 <= i <= n :: log[i] == UploadOf(r.id, r.assets[i - 1]))
      && (!r.draft ==> log[n + 1] == PublishDraft(r.id, job.inputs.isPrerelease))
  {
    UploadLogAt(r.id, r.assets);
    var log := LogOf(Some(r), job);
    forall i | 1 <= i <= |r.assets|
      ensures log[i] == UploadOf(r.id, r.assets[i - 1])
    {
      assert log[i] == UploadLog(r.id, r.assets)[i - 1];
    }
  }

  lemma InventoryFacts(remote: seq<RemoteAsset>, assets: seq<LocalAsset>)
    requires SubInventory(remote, assets)
    ensures forall i | 0 <= i < |remote| :: LocalAsset(remote[i].name, remote[i].size, remote[i].digest) in assets
    ensures forall i, j | 0 <= i < j < |remote| :: remote[i].name != remote[j].name
    ensures CompleteInventory(remote, assets) ==> |remote| == 4
  {
    forall i | 0 <= i < |remote|
      ensures LocalAsset(remote[i].name, remote[i].size, remote[i].digest) in assets
    {
      assert Matches(remote[i], assets);
    }
    NamesCount(remote);
    assert |EXPECTED_NAMES| == 4;
  }

  lemma OursIsOrderly(r: Release, w0: World, job: Job)
    requires Ours(r, w0, job) && Proper(job)
    ensures OrderlyWrites(LogOf(Some(r), job), r.id, job)
  {
    hide LogOf, SubInventory, CompleteInventory;
    LogAt(r, job);
    InventoryFacts(r.assets, job.assets);
  }

  /** Over all runs together the writes are orderly, whatever call each run was cut off at. */
  lemma CampaignWrites(w0: World, job: Job, runs: seq<Run>)
    requires Proper(job) && Fresh(w0, job) && QuietRuns(runs)
    ensures OrderlyWrites(WriteLog(Campaign(Conn(w0, [], []), job, runs).trace), w0.nextId, job)
  {
    hide Campaign, OrderlyWrites;
    CampaignInv(w0, job, runs);
    var made := Made(w0, Campaign(Conn(w0, [], []), job, runs).world);
    if made.Some? {
      OursIsOrderly(made.value, w0, job);
    } else {
      assert OrderlyWrites([], w0.nextId, job) by {
        NoWritesOrderly(w0.nextId, job);
      }
    }
  }

  lemma NoWritesOrderly(id: int, job: Job)
    ensures OrderlyWrites([], id, job)
  {
  }

  /**
   The host afterwards: everybody else's releases as they were, and for the tag at most the one release being made.
   */
  lemma CampaignHost(w0: World, job: Job, runs: seq<Run>)
    requires Proper(job) && Fresh(w0, job) && QuietRuns(runs)
    ensures var w := Campaign(Conn(w0, [], []), job, runs).world;
      && |w0.releases| <= |w.releases| <= |w0.releases| + 1 && w.releases[..|w0.releases|] == w0.releases
      && forall k | 0 <= k < |w.releases| && w.releases[k].tagName == job.inputs.releaseTag ::
           && k == |w0.releases| && w.releases[k].id == w0.nextId
           && SubInventory(w.releases[k].assets, job.assets)
           && (!w.releases[k].draft ==> w.releases[k].immutable && CompleteInventory(w.releases[k].assets, job.assets))
  {
    hide Campaign, SubInventory, CompleteInventory;
    CampaignInv(w0, job, runs);
    var w := Campaign(Conn(w0, [], []), job, runs).world;
    forall k | 0 <= k < |w0.releases|
      ensures w.releases[k].tagName != job.inputs.releaseTag
    {
      assert w.releases[k] == w.releases[..|w0.releases|][k] == w0.releases[k] && w0.releases[k] in w0.releases;
    }
  }
}
