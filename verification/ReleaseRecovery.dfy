/**
 Whatever point earlier runs were cut off at, an undisturbed run finishes the work, uploads exactly what is still
 missing, and leaves a published release alone.
 */
module ReleaseRecovery {
  import opened Common
  import opened ReleasePolicy
  import opened ReleaseRemote
  import opened ReleaseService
  import opened ReleaseCampaign

  /**
   The host can complete the release: the policy is on, the tag is in place, its listing can still be read when one
   longer, and its clock writes readable times.
   */
  predicate Ready(w0: World, job: Job) {
    && Fresh(w0, job) && w0.immutablePolicy && w0.tagCommit == Some(job.inputs.revision)
    && |w0.releases| + 1 < LISTING_BOUND && w0.now.readable
  }

  /** Undisturbed, for at least n calls. */
  predicate Steady(script: seq<Weather<World>>, n: nat) {
    |script| >= n && forall w | w in script :: w.Steady?
  }

  lemma SteadyIsQuiet(script: seq<Weather<World>>, n: nat)
    requires Steady(script, n)
    ensures Quiet(script)
  {
  }

  // One undisturbed call is answered by the host.
  lemma SteadyRead(c: Conn, request: Request, n: nat)
    requires Steady(c.script, n) && n > 0 && !IsWrite(request)
    ensures var (c', reply) := Issue(c, request);
      c'.world == c.world && reply == Perform(c.world, request).1 && Steady(c'.script, n - 1)
        && WriteLog(c'.trace) == WriteLog(c.trace)
  {
    ReadCall(c, request);
    assert c.script[0] in c.script;
  }

  lemma SteadyWrite(c: Conn, request: Request, n: nat)
    requires Steady(c.script, n) && n > 0 && IsWrite(request)
    ensures var (c', reply) := Issue(c, request);
      && c'.world == Perform(c.world, request).0 && reply == Perform(c.world, request).1 && Steady(c'.script, n - 1)
      && WriteLog(c'.trace) == WriteLog(c.trace) + [request]
  {
    assert c.script[0] in c.script;
    var (c', reply) := Issue(c, request);
    assert c'.trace[..|c'.trace| - 1] == c.trace;
  }

  /** The draft of an unfinished release is on the host, and `c` may be used for n more calls. */
  ghost predicate DraftAt(c: Conn, w0: World, job: Job, n: nat) {
    && Inv(c, w0, job) && Steady(c.script, n)
    && Made(w0, c.world).Some? && Made(w0, c.world).value.draft
  }

  function OnRelease(c: Conn, w0: World): seq<RemoteAsset>
    requires Made(w0, c.world).Some?
  {
    Made(w0, c.world).value.assets
  }

  lemma DraftIsOwned(c: Conn, w0: World, job: Job, n: nat, inputs: Inputs)
    requires Proper(job) && Ready(w0, job) && DraftAt(c, w0, job, n)
    requires inputs == job.inputs.(releaseId := inputs.releaseId)
      && (inputs.releaseId.Some? ==> inputs.releaseId.value == w0.nextId)
    ensures Owned(Made(w0, c.world).value, inputs, false)
    ensures Perform(c.world, ReadRelease(w0.nextId)).1 == ReleaseIs(Made(w0, c.world).value)
    ensures Perform(c.world, ListAssets(w0.nextId)).1 == AssetsAre(Made(w0, c.world).value.assets)
  {
    MadeIsFound(c.world, w0, job);
    FourNamesAreAll(Made(w0, c.world).value.assets, job.assets);
  }

  lemma FourCallsGo(c: Conn, w0: World, job: Job, n: nat, inputs: Inputs, complete: bool, stage: Stage)
    requires Proper(job) && Ready(w0, job) && DraftAt(c, w0, job, n) && n >= 4
    requires inputs == job.inputs.(releaseId := Some(w0.nextId))
    requires complete ==> CompleteInventory(Made(w0, c.world).value.assets, job.assets)
    ensures var run := FourCalls(c, w0.nextId, inputs, job.assets, complete, stage);
      && run.Went? && run.value == Names(Made(w0, c.world).value.assets)
      && DraftAt(run.conn, w0, job, n - 4) && Unwritten(c, run.conn)
  {
    hide Issue, Perform, SubInventory, CompleteInventory, Names, Owned, LogOf, Position;
    DraftIsOwned(c, w0, job, n, inputs);
    SteadyRead(c, ReadPolicy, n);
    PolicyAndTag(c.world);
    var step1 := AssertImmutablePolicy(c, stage);
    SteadyRead(step1.conn, ReadTag, n - 1);
    var step2 := ResolveTag(step1.conn, inputs, stage);
    SteadyRead(step2.conn, ReadRelease(w0.nextId), n - 2);
    var step3 := GetOwnedRelease(step2.conn, w0.nextId, inputs, false, stage);
    SteadyRead(step3.conn, ListAssets(w0.nextId), n - 3);
    var step4 := CheckAssets(step3.conn, w0.nextId, job.assets, complete, stage);
    SteadyIsQuiet(step4.conn.script, n - 4);
  }

  lemma PolicyAndTag(w: World)
    ensures Perform(w, ReadPolicy).1 == PolicyIs(w.immutablePolicy)
    ensures Perform(w, ReadTag).1 == TagAt(w.tagCommit)
  {
  }

  // ----- Staging -----

  /** The assets of `rest` that are not on the release yet, in order. */
  function Missing(rest: seq<LocalAsset>, present: set<AssetName>): seq<LocalAsset> {
    if rest == [] then []
    else (if rest[0].name in present then [] else [rest[0]]) + Missing(rest[1..], present)
  }

  function Uploads(id: int, assets: seq<LocalAsset>): seq<Request> {
    seq(|assets|, i requires 0 <= i < |assets| => UploadAsset(id, assets[i]))
  }

  lemma StageOneGoes(c: Conn, w0: World, job: Job, n: nat, inputs: Inputs, asset: LocalAsset)
    requires Proper(job) && Ready(w0, job) && DraftAt(c, w0, job, n) && n >= 4
    requires inputs == job.inputs.(releaseId := Some(w0.nextId))
    requires asset in job.assets && asset.name !in Names(Made(w0, c.world).value.assets)
    ensures var run := StageOne(c, w0.nextId, inputs, job.assets, asset);
      && run.Went? && DraftAt(run.conn, w0, job, n - 4)
      && WriteLog(run.conn.trace) == WriteLog(c.trace) + [UploadAsset(w0.nextId, asset)]
      && (exists added :: OnRelease(run.conn, w0) == OnRelease(c, w0) + [added] && added.name == asset.name)
  {
    hide Issue, Perform, SubInventory, Names, Owned, LogOf, Position, HostInv;
    var id, stage := w0.nextId, DraftAssetStaging;
    SteadyIsQuiet(c.script, n);
    DraftIsOwned(c, w0, job, n, inputs);
    SteadyRead(c, ReadTag, n);
    PolicyAndTag(c.world);
    assert c.world.tagCommit == Some(inputs.revision) && Made(w0, c.world).value.uploadsTo == id by {
      DraftFacts(c, w0, job, n);
    }
    var step1 := ResolveTag(c, inputs, stage);
    SteadyRead(step1.conn, ReadRelease(id), n - 1);
    var step2 := GetOwnedRelease(step1.conn, id, inputs, false, stage);
    SteadyIsQuiet(step2.conn.script, n - 2);
    UploadKeeps(step2.conn, w0, job, asset);
    SteadyWrite(step2.conn, UploadAsset(id, asset), n - 2);
    UploadAccepted(step2.conn.world, w0, job, asset);
    var step3 := Upload(step2.conn, id, step2.value, asset, stage);
    DraftIsOwned(step3.conn, w0, job, n - 3, inputs);
    SteadyRead(step3.conn, ListAssets(id), n - 3);
    DraftFacts(step3.conn, w0, job, n - 3);
  }

  lemma DraftFacts(c: Conn, w0: World, job: Job, n: nat)
    requires Ready(w0, job) && DraftAt(c, w0, job, n)
    ensures c.world.tagCommit == Some(job.inputs.revision)
    ensures Made(w0, c.world).value.uploadsTo == w0.nextId
    ensures SubInventory(Made(w0, c.world).value.assets, job.assets)
  {
  }

  lemma UploadAccepted(w: World, w0: World, job: Job, asset: LocalAsset)
    requires Ready(w0, job) && HostInv(w, w0, job) && Made(w0, w).Some? && Made(w0, w).value.draft
    requires asset.name !in Names(Made(w0, w).value.assets)
    ensures Perform(w, UploadAsset(w0.nextId, asset)).1 == Done
  {
  }

  lemma {:induction false} StagingGoes(c: Conn, w0: World, job: Job, n: nat, inputs: Inputs, present: set<AssetName>,
      rest: seq<LocalAsset>)
    requires Proper(job) && Ready(w0, job) && DraftAt(c, w0, job, n) && n >= 4 * |Missing(rest, present)|
    requires inputs == job.inputs.(releaseId := Some(w0.nextId))
    requires (forall a | a in rest :: a in job.assets) && SkipsExact(rest, present, Made(w0, c.world).value)
    ensures var run := StageAssets(c, w0.nextId, inputs, job.assets, present, rest);
      && run.Went? && DraftAt(run.conn, w0, job, n - 4 * |Missing(rest, present)|)
      && WriteLog(run.conn.trace) == WriteLog(c.trace) + Uploads(w0.nextId, Missing(rest, present))
      && (forall a | a in rest :: a.name in Names(OnRelease(run.conn, w0)))
      && Names(OnRelease(c, w0)) <= Names(OnRelease(run.conn, w0))
    decreases rest
  {
    hide Inv, Steady, SkipsExact, Names, StageOne, Issue, Perform, Ready, Proper, WriteLog;
    if rest == [] {
      assert Uploads(w0.nextId, []) == [];
    } else {
      var r := Made(w0, c.world).value;
      FirstSkipped(rest, present, r);
      if rest[0].name in present {
        StagingGoes(c, w0, job, n, inputs, present, rest[1..]);
      } else {
        StageOneGoes(c, w0, job, n, inputs, rest[0]);
        var step := StageOne(c, w0.nextId, inputs, job.assets, rest[0]);
        assert DraftAt(step.conn, w0, job, n - 4);
        SkipsStayExact(rest, present, r, Made(w0, step.conn.world).value);
        NamesGrow(OnRelease(c, w0), OnRelease(step.conn, w0), rest[0]);
        StagingGoes(step.conn, w0, job, n - 4, inputs, present, rest[1..]);
        assert Uploads(w0.nextId, Missing(rest, present))
          == [UploadAsset(w0.nextId, rest[0])] + Uploads(w0.nextId, Missing(rest[1..], present));
      }
    }
  }

  lemma FirstSkipped(rest: seq<LocalAsset>, present: set<AssetName>, r: Release)
    requires rest != [] && SkipsExact(rest, present, r)
    ensures rest[0].name in present <==> rest[0].name in Names(r.assets)
    ensures rest[0].name in present ==> SkipsExact(rest[1..], present, r)
    ensures rest[0] in rest && forall a | a in rest :: a == rest[0] || a in rest[1..]
    ensures forall a | a in rest[1..] :: a in rest
  {
  }

  lemma NamesGrow(a: seq<RemoteAsset>, b: seq<RemoteAsset>, asset: LocalAsset)
    requires exists added :: b == a + [added] && added.name == asset.name
    ensures Names(b) == Names(a) + {asset.name}
  {
  }

  // ----- Publication -----

  /** The release is out: published, immutable, complete. */
  ghost predicate PublishedAt(c: Conn, w0: World, job: Job) {
    Inv(c, w0, job) && Made(w0, c.world).Some? && !Made(w0, c.world).value.draft
  }

  lemma PublishMeets(w: World, w0: World, job: Job, inputs: Inputs)
    requires Ready(w0, job) && HostInv(w, w0, job) && Made(w0, w).Some? && Made(w0, w).value.draft
    requires CompleteInventory(Made(w0, w).value.assets, job.assets)
    requires inputs == job.inputs.(releaseId := Some(w0.nextId))
    ensures var (w', reply) := Perform(w, PublishDraft(w0.nextId, inputs.isPrerelease));
      && HostInv(w', w0, job) && Made(w0, w').Some? && !Made(w0, w').value.draft
      && reply == ReleaseIs(Made(w0, w').value) && Owned(Made(w0, w').value, inputs, true)
      && Made(w0, w').value.assets == Made(w0, w).value.assets
  {
  }

  lemma PublishedIsServed(w: World, w0: World, job: Job, inputs: Inputs)
    requires Ready(w0, job) && Proper(job) && HostInv(w, w0, job) && Made(w0, w).Some? && !Made(w0, w).value.draft
    requires inputs == job.inputs.(releaseId := Some(w0.nextId))
    ensures Perform(w, ReadRelease(w0.nextId)).1 == ReleaseIs(Made(w0, w).value)
      && Owned(Made(w0, w).value, inputs, true)
    ensures Perform(w, ListAssets(w0.nextId)).1 == AssetsAre(Made(w0, w).value.assets)
    ensures CompleteInventory(Made(w0, w).value.assets, job.assets)
    ensures Perform(w, VerifyPublished(inputs.releaseTag)).1 == Done
  {
    hide Names, SubInventory;
    MadeIsFound(w, w0, job);
    FourNamesAreAll(Made(w0, w).value.assets, job.assets);
    assert Made(w0, w).value in w.releases;
  }

  lemma VerifyGoes(c: Conn, w0: World, job: Job, n: nat, inputs: Inputs, imageRef: string)
    requires Ready(w0, job) && Proper(job) && HostInv(c.world, w0, job) && Made(w0, c.world).Some?
      && !Made(w0, c.world).value.draft
    requires inputs == job.inputs.(releaseId := Some(w0.nextId)) && Steady(c.script, n) && n >= 4
    ensures var run := VerifyBehind(c, w0.nextId, inputs, job.assets, imageRef);
      run.Went? && Unwritten(c, run.conn)
        && run.value == Passed(w0.nextId, inputs, imageRef, Made(w0, c.world).value, job.assets)
  {
    hide Issue, Perform, SubInventory, CompleteInventory, Names, HostInv, Position, WriteLog, Owned, Steady, Quiet;
    SteadyIsQuiet(c.script, n);
    VerifyBehindReads(c, w0.nextId, inputs, job.assets, imageRef);
    PublishedIsServed(c.world, w0, job, inputs);
    PolicyAndTag(c.world);
    HostReady(c.world, w0, job);
    SteadyRead(c, ReadRelease(w0.nextId), n);
    var step1 := GetOwnedRelease(c, w0.nextId, inputs, true, PublicationAndVerification);
    SteadyRead(step1.conn, ReadTag, n - 1);
    var step2 := ResolveTag(step1.conn, inputs, PublicationAndVerification);
    SteadyRead(step2.conn, ListAssets(w0.nextId), n - 2);
    var step3 := CheckAssets(step2.conn, w0.nextId, job.assets, true, PublicationAndVerification);
    SteadyRead(step3.conn, VerifyPublished(inputs.releaseTag), n - 3);
  }

  lemma PublicationGoes(c: Conn, w0: World, job: Job, n: nat, inputs: Inputs, imageRef: string)
    requires Proper(job) && Ready(w0, job) && DraftAt(c, w0, job, n) && n >= 5
    requires inputs == job.inputs.(releaseId := Some(w0.nextId))
    requires CompleteInventory(OnRelease(c, w0), job.assets)
    ensures var run := PublishAndVerify(c, w0.nextId, inputs, job.assets, imageRef);
      && run.Went? && PublishedAt(run.conn, w0, job) && OnRelease(run.conn, w0) == OnRelease(c, w0)
      && run.value.publishedAt == w0.now
      && WriteLog(run.conn.trace) == WriteLog(c.trace) + [PublishDraft(w0.nextId, inputs.isPrerelease)]
  {
    hide Issue, Perform, SubInventory, CompleteInventory, Names, LogOf, Position, VerifyBehind, WriteLog;
    var id := w0.nextId;
    SteadyIsQuiet(c.script, n);
    PublicationKeeps(c, w0, job, inputs, imageRef);
    SteadyWrite(c, PublishDraft(id, inputs.isPrerelease), n);
    PublishMeets(c.world, w0, job, inputs);
    var step := Publish(c, id, inputs, PublicationAndVerification);
    VerifyGoes(step.conn, w0, job, n - 1, inputs, imageRef);
  }

  // ----- Whole runs -----

  lemma {:induction false} MissingAtMost(rest: seq<LocalAsset>, present: set<AssetName>)
    ensures |Missing(rest, present)| <= |rest|
  {
    if rest != [] {
      MissingAtMost(rest[1..], present);
    }
  }

  lemma AllNamesStaged(remote: seq<RemoteAsset>, assets: seq<LocalAsset>)
    requires Validated(assets) && SubInventory(remote, assets) && forall a | a in assets :: a.name in Names(remote)
    ensures CompleteInventory(remote, assets)
  {
  }

  /**
   From any unfinished draft an undisturbed finalization uploads exactly the missing assets, publishes, and
   succeeds.
   */
  lemma FinalizeFinishes(c: Conn, w0: World, job: Job, imageRef: string)
    requires Proper(job) && Ready(w0, job) && DraftAt(c, w0, job, 29)
    ensures var run := Finalize(c, job.inputs.(releaseId := Some(w0.nextId)), job.assets, imageRef);
      && run.Went? && PublishedAt(run.conn, w0, job) && run.value.publishedAt == w0.now
      && WriteLog(run.conn.trace) == WriteLog(c.trace)
           + Uploads(w0.nextId, Missing(job.assets, Names(OnRelease(c, w0))))
           + [PublishDraft(w0.nextId, job.inputs.isPrerelease)]
  {
    hide Issue, Perform, FourCalls, StageAssets, PublishAndVerify, Names;
    hide SubInventory, CompleteInventory, LogOf, HostInv, WriteLog, Missing, SkipsExact;
    var id, inputs := w0.nextId, job.inputs.(releaseId := Some(w0.nextId));
    var present := Names(OnRelease(c, w0));
    FourCallsGo(c, w0, job, 29, inputs, false, PrepublicationChecks);
    var step1 := FourCalls(c, id, inputs, job.assets, false, PrepublicationChecks);
    SkipsAtStart(job, Made(w0, c.world).value);
    MissingAtMost(job.assets, present);
    StagingGoes(step1.conn, w0, job, 25, inputs, present, job.assets);
    var step2 := StageAssets(step1.conn, id, inputs, job.assets, present, job.assets);
    var n := 25 - 4 * |Missing(job.assets, present)|;
    DraftFacts(step2.conn, w0, job, n);
    AllNamesStaged(OnRelease(step2.conn, w0), job.assets);
    FourCallsGo(step2.conn, w0, job, n, inputs, true, FinalPublicationChecks);
    var step3 := FourCalls(step2.conn, id, inputs, job.assets, true, FinalPublicationChecks);
    PublicationGoes(step3.conn, w0, job, n - 4, inputs, imageRef);
  }

  /** Before publication an undisturbed preparation succeeds: it adopts the draft there is, or creates it. */
  lemma PrepareFinishes(c: Conn, w0: World, job: Job)
    requires Proper(job) && Ready(w0, job) && Inv(c, w0, job) && Steady(c.script, 6)
    requires Made(w0, c.world).Some? ==> Made(w0, c.world).value.draft
    ensures var run := Prepare(c, job.inputs);
      && run.Went? && run.value == Preparation(w0.nextId, job.inputs.revision, Made(w0, c.world).Some?)
      && Inv(run.conn, w0, job) && Made(w0, run.conn.world).Some? && Made(w0, run.conn.world).value.draft
      && WriteLog(run.conn.trace)
         == WriteLog(c.trace) + (if Made(w0, c.world).Some? then [] else [CreateDraft(job.inputs)])
      && OnRelease(run.conn, w0) == (if Made(w0, c.world).Some? then OnRelease(c, w0) else [])
  {
    hide Issue, AdoptOrCreate, SubInventory, LogOf, HostInv, WriteLog;
    var stage := PrepublicationChecks;
    SteadyIsQuiet(c.script, 6);
    PrepareKeeps(c, w0, job);
    SteadyRead(c, ReadPolicy, 6);
    HostReady(c.world, w0, job);
    var step1 := AssertImmutablePolicy(c, stage);
    SteadyRead(step1.conn, ReadTag, 5);
    var step2 := ResolveTag(step1.conn, job.inputs, stage);
    SteadyRead(step2.conn, FindReleases(job.inputs.releaseTag), 4);
    LookupExact(c.world, w0, job);
    var step3 := FindByTag(step2.conn, job.inputs, stage);
    AdoptOrCreateGoes(step3.conn, w0, job, step3.value);
  }

  lemma HostReady(w: World, w0: World, job: Job)
    requires Ready(w0, job) && HostInv(w, w0, job)
    ensures w.immutablePolicy && w.tagCommit == Some(job.inputs.revision) && |w.releases| < LISTING_BOUND
  {
  }

  lemma AdoptOrCreateGoes(c: Conn, w0: World, job: Job, found: seq<Release>)
    requires Proper(job) && Ready(w0, job) && Inv(c, w0, job) && Steady(c.script, 3)
    requires Made(w0, c.world).Some? ==> Made(w0, c.world).value.draft
    requires found == match Made(w0, c.world) case None => [] case Some(r) => [r]
    ensures var run := AdoptOrCreate(c, found, job.inputs);
      && run.Went? && run.value == Preparation(w0.nextId, job.inputs.revision, Made(w0, c.world).Some?)
      && Inv(run.conn, w0, job) && Made(w0, run.conn.world).Some? && Made(w0, run.conn.world).value.draft
      && WriteLog(run.conn.trace)
         == WriteLog(c.trace) + (if Made(w0, c.world).Some? then [] else [CreateDraft(job.inputs)])
      && OnRelease(run.conn, w0) == (if Made(w0, c.world).Some? then OnRelease(c, w0) else [])
  {
    hide Issue, Perform, ConfirmDraft, Names, SubInventory, WriteLog, HostInv, LogOf, Steady, Quiet;
    SteadyIsQuiet(c.script, 3);
    AdoptOrCreateKeeps(c, w0, job, found);
    if found != [] {
      ConfirmGoes(c, w0, job, 3, found[0], true);
    } else {
      SteadyWrite(c, CreateDraft(job.inputs), 3);
      CreateMeets(c.world, w0, job);
      var step := Create(c, job.inputs, PrepublicationChecks);
      ConfirmGoes(step.conn, w0, job, 2, step.value, false);
    }
  }

  lemma CreateMeets(w: World, w0: World, job: Job)
    requires Ready(w0, job) && HostInv(w, w0, job) && Made(w0, w).None?
    ensures var (w', reply) := Perform(w, CreateDraft(job.inputs));
      && HostInv(w', w0, job) && Made(w0, w').Some? && Made(w0, w').value.draft && Made(w0, w').value.assets == []
      && reply == ReleaseIs(Made(w0, w').value)
  {
  }

  lemma ConfirmGoes(c: Conn, w0: World, job: Job, n: nat, release: Release, reused: bool)
    requires Proper(job) && Ready(w0, job) && HostInv(c.world, w0, job) && Steady(c.script, n) && n >= 2
    requires Made(w0, c.world) == Some(release) && release.draft
    ensures var run := ConfirmDraft(c, release, job.inputs, reused);
      run.Went? && Unwritten(c, run.conn) && run.value == Preparation(w0.nextId, job.inputs.revision, reused)
  {
    hide Issue, Perform, Position, SubInventory, WriteLog;
    SteadyIsQuiet(c.script, n);
    ConfirmDraftReads(c, release, job.inputs, reused);
    HostReady(c.world, w0, job);
    PolicyAndTag(c.world);
    MadeIsFound(c.world, w0, job);
    SteadyRead(c, ReadTag, n);
    var step1 := ResolveTag(c, job.inputs, PrepublicationChecks);
    FoundIsRead(c.world, w0.nextId, |w0.releases|);
    SteadyRead(step1.conn, ReadRelease(w0.nextId), n - 1);
  }

  lemma FoundIsRead(w: World, id: int, k: nat)
    requires Position(w.releases, id) == Some(k)
    ensures Perform(w, ReadRelease(id)).1 == ReleaseIs(w.releases[k])
  {
  }

  /**
   However many runs were cut off wherever: as long as nothing is published, one undisturbed preparation and one
   undisturbed finalization finish the release, writing exactly what was still missing.
   */
  lemma FinishesFromAnywhere(w0: World, job: Job, runs: seq<Run>, prepare: seq<Weather<World>>,
      finalize: seq<Weather<World>>, imageRef: string)
    requires Proper(job) && Ready(w0, job) && QuietRuns(runs) && Steady(prepare, 6) && Steady(finalize, 29)
    requires var made := Made(w0, Campaign(Conn(w0, [], []), job, runs).world); made.Some? ==> made.value.draft
    ensures var c := Campaign(Conn(w0, [], []), job, runs);
      var made := Made(w0, c.world);
      var preparation := Prepare(c.(script := prepare), job.inputs);
      && preparation.Went? && preparation.value == Preparation(w0.nextId, job.inputs.revision, made.Some?)
      && var inputs := job.inputs.(releaseId := Some(w0.nextId));
         var run := Finalize(preparation.conn.(script := finalize), inputs, job.assets, imageRef);
      && run.Went? && PublishedAt(run.conn, w0, job)
      && WriteLog(run.conn.trace) == WriteLog(c.trace)
           + (if made.Some? then [] else [CreateDraft(job.inputs)])
           + Uploads(w0.nextId, Missing(job.assets, if made.Some? then Names(made.value.assets) else {}))
           + [PublishDraft(w0.nextId, job.inputs.isPrerelease)]
  {
    hide Campaign, Prepare, Finalize, LogOf, HostInv, WriteLog, Missing, Uploads;
    CampaignInv(w0, job, runs);
    var c := Campaign(Conn(w0, [], []), job, runs);
    PrepareFinishes(c.(script := prepare), w0, job);
    var preparation := Prepare(c.(script := prepare), job.inputs);
    FinalizeFinishes(preparation.conn.(script := finalize), w0, job, imageRef);
    assert Names([]) == {};
  }

  /** Once published, no run writes anything, and none reports success again. */
  lemma PublishedIsFinal(c: Conn, w0: World, job: Job, releaseId: int, imageRef: string)
    requires Proper(job) && Fresh(w0, job) && PublishedAt(c, w0, job) && Quiet(c.script)
    ensures Prepare(c, job.inputs).Stopped? && Unwritten(c, Prepare(c, job.inputs).conn)
    ensures var run := Finalize(c, job.inputs.(releaseId := Some(releaseId)), job.assets, imageRef);
      run.Stopped? && Unwritten(c, run.conn)
  {
    PublishedNotPrepared(c, w0, job);
    hide Issue, Perform, FourCalls, Prepare, StageAssets, PublishAndVerify, WriteLog, LogOf, HostInv;
    var inputs := job.inputs.(releaseId := Some(releaseId));
    FourCallsRead(c, releaseId, inputs, job.assets, false, PrepublicationChecks);
    if FourCalls(c, releaseId, inputs, job.assets, false, PrepublicationChecks).Went? {
      LooksMeetOurDraft(c, w0, job, releaseId, inputs, false, PrepublicationChecks);
    }
  }

  lemma PublishedNotPrepared(c: Conn, w0: World, job: Job)
    requires Proper(job) && Fresh(w0, job) && PublishedAt(c, w0, job) && Quiet(c.script)
    ensures Prepare(c, job.inputs).Stopped? && Unwritten(c, Prepare(c, job.inputs).conn)
  {
    hide Issue, WriteLog, LogOf, HostInv;
    var stage := PrepublicationChecks;
    ReadCall(c, ReadPolicy);
    var step1 := AssertImmutablePolicy(c, stage);
    if step1.Went? {
      ReadCall(step1.conn, ReadTag);
      var step2 := ResolveTag(step1.conn, job.inputs, stage);
      if step2.Went? {
        ReadCall(step2.conn, FindReleases(job.inputs.releaseTag));
        LookupExact(c.world, w0, job);
      }
    }
  }
}
