/** On exactly which hosts an undisturbed finalization succeeds, whoever made the draft and whatever else is listed. */
module ReleaseCompletion {
  import opened Common
  import opened ReleasePolicy
  import opened ReleaseRemote
  import opened ReleaseService
  import opened ReleaseCampaign
  import opened ReleaseRecovery
  import opened ReleaseAnyHost

  /** At least n more calls go through with nobody interfering. */
  predicate Undisturbed(c: Conn, n: nat) {
    ReleaseRecovery.Steady(c.script, n)
  }

  /** The release takes uploads under its own identifier, and the host has identifiers to give out. */
  predicate TakesUploads(w: World, id: int, k: nat) {
    k < |w.releases| && w.releases[k].uploadsTo == id && !w.releases[k].immutable && 0 < w.nextId
  }

  /**
   The policy is on, the tag in place, the time readable; the identifier addresses an owned draft that holds validated
   assets only; and if one of them is missing, the draft takes uploads.
   */
  ghost predicate Finishable(w: World, id: int, k: nat, job: Job) {
    && w.immutablePolicy && w.tagCommit == Some(job.inputs.revision) && w.now.readable
    && OwnDraftAt(w, id, k, job) && SubInventory(w.releases[k].assets, job.assets)
    && (Missing(job.assets, Names(w.releases[k].assets)) != [] ==> TakesUploads(w, id, k))
  }

  // A listing shows one page; with more entries than fit it is no sub-inventory, and neither is the whole.
  lemma PageExact(remote: seq<RemoteAsset>, assets: seq<LocalAsset>)
    ensures SubInventory(OnePage(remote), assets) <==> SubInventory(remote, assets)
    ensures SubInventory(remote, assets) ==> OnePage(remote) == remote && |remote| <= 4
  {
    if SubInventory(remote, assets) {
      FourNamesAreAll(remote, assets);
    }
    if SubInventory(OnePage(remote), assets) {
      FourNamesAreAll(OnePage(remote), assets);
    }
  }

  // The four looks succeed exactly on what they look at.
  lemma FourCallsExact(c: Conn, id: int, job: Job, n: nat, inputs: Inputs, complete: bool, stage: Stage)
    requires Undisturbed(c, n) && n >= 4 && job.inputs.releaseId.None? && inputs == job.inputs.(releaseId := Some(id))
    ensures var run := FourCalls(c, id, inputs, job.assets, complete, stage);
      && Unwritten(c, run.conn)
      && (run.Went? <==>
        && c.world.immutablePolicy && c.world.tagCommit == Some(job.inputs.revision)
        && exists k: nat ::
             && OwnDraftAt(c.world, id, k, job) && SubInventory(c.world.releases[k].assets, job.assets)
             && (complete ==> CompleteInventory(c.world.releases[k].assets, job.assets)))
      && (run.Went? ==>
        && Undisturbed(run.conn, n - 4)
        && forall k: nat | OwnDraftAt(c.world, id, k, job) :: run.value == Names(c.world.releases[k].assets))
  {
    hide Issue, SubInventory, CompleteInventory, Names, Owned, Position;
    SteadyIsQuiet(c.script, n);
    FourCallsRead(c, id, inputs, job.assets, complete, stage);
    SteadyRead(c, ReadPolicy, n);
    PolicyAndTag(c.world);
    var step1 := AssertImmutablePolicy(c, stage);
    if step1.Went? {
      SteadyRead(step1.conn, ReadTag, n - 1);
      var step2 := ResolveTag(step1.conn, inputs, stage);
      if step2.Went? {
        SteadyRead(step2.conn, ReadRelease(id), n - 2);
        ReadsDraft(c.world, id, job, inputs);
        var step3 := GetOwnedRelease(step2.conn, id, inputs, false, stage);
        if step3.Went? {
          SteadyRead(step3.conn, ListAssets(id), n - 3);
          var k := Position(c.world.releases, id).value;
          PageExact(c.world.releases[k].assets, job.assets);
          CompleteIsSub(c.world.releases[k].assets, job.assets);
          CompleteIsSub(OnePage(c.world.releases[k].assets), job.assets);
          assert OwnDraftAt(c.world, id, k, job);
        }
      }
    }
  }

  lemma ReadsDraft(w: World, id: int, job: Job, inputs: Inputs)
    requires job.inputs.releaseId.None? && inputs == job.inputs.(releaseId := Some(id))
    ensures var reply := Perform(w, ReadRelease(id)).1;
      reply.ReleaseIs? && Owned(reply.release, inputs, false) <==> exists k: nat :: OwnDraftAt(w, id, k, job)
    ensures forall k: nat | OwnDraftAt(w, id, k, job) ::
      Position(w.releases, id) == Some(k) && Perform(w, ListAssets(id)).1 == AssetsAre(OnePage(w.releases[k].assets))
  {
    var p := Position(w.releases, id);
    if p.Some? && Owned(w.releases[p.value], inputs, false) {
      assert OwnDraftAt(w, id, p.value, job);
    }
  }

  lemma CompleteIsSub(remote: seq<RemoteAsset>, assets: seq<LocalAsset>)
    ensures CompleteInventory(remote, assets) ==> SubInventory(remote, assets)
  {
  }

  /** In the middle of a run that began at the host w0: only releases and identifiers can have changed. */
  ghost predicate Midway(c: Conn, w0: World, id: int, k: nat, job: Job, n: nat) {
    && Undisturbed(c, n) && c.world == w0.(releases := c.world.releases, nextId := c.world.nextId)
    && w0.immutablePolicy && w0.tagCommit == Some(job.inputs.revision)
    && OwnDraftAt(c.world, id, k, job) && SubInventory(c.world.releases[k].assets, job.assets)
  }

  // An upload that was taken: what the listing behind it shows is in order exactly when the new identifier is.
  lemma GrownInventory(w: World, remote: seq<RemoteAsset>, assets: seq<LocalAsset>, asset: LocalAsset)
    requires Validated(assets) && SubInventory(remote, assets) && asset in assets && asset.name !in Names(remote)
    ensures SubInventory(remote + [NewAsset(w, asset)], assets) <==> 0 < w.nextId
  {
    var grown := remote + [NewAsset(w, asset)];
    if 0 < w.nextId {
      assert Matches(NewAsset(w, asset), assets);
    } else {
      assert grown[|remote|] in grown && !Matches(grown[|remote|], assets);
    }
  }

  lemma StageOneExact(c: Conn, w0: World, id: int, k: nat, job: Job, n: nat, inputs: Inputs, asset: LocalAsset)
    requires Proper(job) && Midway(c, w0, id, k, job, n) && n >= 4 && inputs == job.inputs.(releaseId := Some(id))
    requires asset in job.assets && asset.name !in Names(c.world.releases[k].assets)
    ensures var run := StageOne(c, id, inputs, job.assets, asset);
      && (run.Went? <==> TakesUploads(c.world, id, k))
      && (run.Went? ==>
        && Midway(run.conn, w0, id, k, job, n - 4) && TakesUploads(run.conn.world, id, k)
        && run.conn.world.releases[k].assets == c.world.releases[k].assets + [NewAsset(c.world, asset)]
        && WriteLog(run.conn.trace) == WriteLog(c.trace) + [UploadAsset(id, asset)])
  {
    hide Issue, SubInventory, CompleteInventory, Names, Position, WriteLog, Validated;
    var stage := DraftAssetStaging;
    SteadyRead(c, ReadTag, n);
    var step1 := ResolveTag(c, inputs, stage);
    SteadyRead(step1.conn, ReadRelease(id), n - 1);
    var step2 := GetOwnedRelease(step1.conn, id, inputs, false, stage);
    if step2.value.uploadsTo == id {
      SteadyWrite(step2.conn, UploadAsset(id, asset), n - 2);
      var step3 := Upload(step2.conn, id, step2.value, asset, stage);
      UploadTaken(c.world, id, k, asset);
      if step3.Went? {
        UploadMeetsDraft(c.world, id, k, asset, job);
        SteadyRead(step3.conn, ListAssets(id), n - 3);
        GrownInventory(c.world, c.world.releases[k].assets, job.assets, asset);
        PageExact(step3.conn.world.releases[k].assets, job.assets);
      }
    }
  }

  lemma UploadTaken(w: World, id: int, k: nat, asset: LocalAsset)
    requires Position(w.releases, id) == Some(k) && asset.name !in Names(w.releases[k].assets)
    ensures Perform(w, UploadAsset(id, asset)).1.Done? <==> !w.releases[k].immutable
    ensures var w' := Perform(w, UploadAsset(id, asset)).0;
      w' == w.(releases := w'.releases, nextId := w'.nextId) && w'.nextId >= w.nextId && |w'.releases| == |w.releases|
      && w'.releases[k].uploadsTo == w.releases[k].uploadsTo && w'.releases[k].immutable == w.releases[k].immutable
  {
  }

  lemma {:induction false} StagingExact(c: Conn, w0: World, id: int, k: nat, job: Job, n: nat, inputs: Inputs,
      present: set<AssetName>, rest: seq<LocalAsset>)
    requires Proper(job) && Midway(c, w0, id, k, job, n) && inputs == job.inputs.(releaseId := Some(id))
    requires n >= 4 * |Missing(rest, present)| && (forall a | a in rest :: a in job.assets)
    requires SkipsExact(rest, present, c.world.releases[k])
    ensures var run := StageAssets(c, id, inputs, job.assets, present, rest);
      && (run.Went? <==> Missing(rest, present) == [] || TakesUploads(c.world, id, k))
      && (run.Went? ==>
        && Midway(run.conn, w0, id, k, job, n - 4 * |Missing(rest, present)|)
        && WriteLog(run.conn.trace) == WriteLog(c.trace) + Uploads(id, Missing(rest, present))
        && (forall a | a in rest :: a.name in Names(run.conn.world.releases[k].assets))
        && Names(c.world.releases[k].assets) <= Names(run.conn.world.releases[k].assets))
    decreases rest
  {
    hide Undisturbed, Owned, Position, SkipsExact, Names, StageOne, WriteLog, TakesUploads, SubInventory;
    if rest == [] {
      assert Uploads(id, []) == [];
    } else {
      var r := c.world.releases[k];
      FirstSkipped(rest, present, r);
      if rest[0].name in present {
        StagingExact(c, w0, id, k, job, n, inputs, present, rest[1..]);
      } else {
        StageOneExact(c, w0, id, k, job, n, inputs, rest[0]);
        var step := StageOne(c, id, inputs, job.assets, rest[0]);
        if step.Went? {
          var r' := step.conn.world.releases[k];
          SkipsStayExact(rest, present, r, r');
          NamesGrow(r.assets, r'.assets, rest[0]);
          StagingExact(step.conn, w0, id, k, job, n - 4, inputs, present, rest[1..]);
          assert Uploads(id, Missing(rest, present))
            == [UploadAsset(id, rest[0])] + Uploads(id, Missing(rest[1..], present));
        }
      }
    }
  }

  /** The release of the identifier is out: published at the time of the host, immutable, complete. */
  ghost predicate OutAt(w: World, id: int, k: nat, job: Job) {
    && k < |w.releases| && Position(w.releases, id) == Some(k)
    && Owned(w.releases[k], job.inputs, true) && CompleteInventory(w.releases[k].assets, job.assets)
    && w.releases[k].publishedAt == Some(w.now)
  }

  lemma PublishExact(w: World, id: int, k: nat, job: Job, inputs: Inputs)
    requires OwnDraftAt(w, id, k, job) && w.immutablePolicy && CompleteInventory(w.releases[k].assets, job.assets)
    requires inputs == job.inputs.(releaseId := Some(id)) && job.inputs.releaseId.None?
    ensures var (w', reply) := Perform(w, PublishDraft(id, job.inputs.isPrerelease));
      && w' == w.(releases := w'.releases) && k < |w'.releases| && reply == ReleaseIs(w'.releases[k])
      && (Owned(w'.releases[k], inputs, true) <==> w.now.readable)
      && (w.now.readable ==> OutAt(w', id, k, job))
  {
    hide CompleteInventory;
    PositionStays(w.releases, k, Published(w, w.releases[k], job.inputs.isPrerelease), id);
  }

  lemma VerifyOut(c: Conn, id: int, k: nat, job: Job, n: nat, inputs: Inputs, imageRef: string)
    requires Undisturbed(c, n) && n >= 4 && OutAt(c.world, id, k, job)
    requires c.world.tagCommit == Some(job.inputs.revision)
    requires inputs == job.inputs.(releaseId := Some(id)) && job.inputs.releaseId.None?
    ensures var run := VerifyBehind(c, id, inputs, job.assets, imageRef);
      && run.Went? && Unwritten(c, run.conn)
      && run.value == Passed(id, inputs, imageRef, c.world.releases[k], job.assets)
  {
    hide Issue, SubInventory, CompleteInventory, Names;
    SteadyIsQuiet(c.script, n);
    VerifyBehindReads(c, id, inputs, job.assets, imageRef);
    CompleteIsSub(c.world.releases[k].assets, job.assets);
    PageExact(c.world.releases[k].assets, job.assets);
    SteadyRead(c, ReadRelease(id), n);
    var step1 := GetOwnedRelease(c, id, inputs, true, PublicationAndVerification);
    SteadyRead(step1.conn, ReadTag, n - 1);
    var step2 := ResolveTag(step1.conn, inputs, PublicationAndVerification);
    SteadyRead(step2.conn, ListAssets(id), n - 2);
    var step3 := CheckAssets(step2.conn, id, job.assets, true, PublicationAndVerification);
    SteadyRead(step3.conn, VerifyPublished(inputs.releaseTag), n - 3);
    assert c.world.releases[k] in c.world.releases;
  }

  lemma PublicationExact(c: Conn, w0: World, id: int, k: nat, job: Job, n: nat, inputs: Inputs, imageRef: string)
    requires Midway(c, w0, id, k, job, n) && n >= 5 && CompleteInventory(c.world.releases[k].assets, job.assets)
    requires inputs == job.inputs.(releaseId := Some(id)) && job.inputs.releaseId.None?
    ensures var run := PublishAndVerify(c, id, inputs, job.assets, imageRef);
      && (run.Went? <==> w0.now.readable)
      && (run.Went? ==>
        && OutAt(run.conn.world, id, k, job) && run.value.publishedAt == w0.now
        && WriteLog(run.conn.trace) == WriteLog(c.trace) + [PublishDraft(id, inputs.isPrerelease)])
  {
    hide Issue, Perform, SubInventory, CompleteInventory, Names, Position, VerifyBehind, WriteLog, Owned;
    SteadyWrite(c, PublishDraft(id, inputs.isPrerelease), n);
    PublishExact(c.world, id, k, job, inputs);
    var step := Publish(c, id, inputs, PublicationAndVerification);
    if step.Went? {
      VerifyOut(step.conn, id, k, job, n - 1, inputs, imageRef);
    }
  }

  /** What a finalization that finishes adds to the writes: the missing assets in order, and the publication. */
  function Finishing(w: World, id: int, k: nat, job: Job): seq<Request>
    requires k < |w.releases|
  {
    Uploads(id, Missing(job.assets, Names(w.releases[k].assets))) + [PublishDraft(id, job.inputs.isPrerelease)]
  }

  /**
   On any host an undisturbed finalization succeeds if and only if the host is finishable, and then it has written
   exactly the missing assets and the publication, and the release is out.
   */
  lemma FinishesExact(c: Conn, id: int, job: Job, imageRef: string)
    requires Proper(job) && Undisturbed(c, 29)
    ensures var run := Finalize(c, job.inputs.(releaseId := Some(id)), job.assets, imageRef);
      && (run.Went? <==> exists k: nat :: Finishable(c.world, id, k, job))
      && forall k: nat | run.Went? && OwnDraftAt(c.world, id, k, job) ::
           && OutAt(run.conn.world, id, k, job) && run.value.publishedAt == c.world.now
           && WriteLog(run.conn.trace) == WriteLog(c.trace) + Finishing(c.world, id, k, job)
  {
    hide FourCalls, StageAssets, PublishAndVerify, Names, SubInventory, CompleteInventory;
    hide WriteLog, Missing, Owned, OutAt;
    hide Undisturbed, Position;
    var inputs := job.inputs.(releaseId := Some(id));
    FourCallsExact(c, id, job, 29, inputs, false, PrepublicationChecks);
    var step1 := FourCalls(c, id, inputs, job.assets, false, PrepublicationChecks);
    if step1.Went? {
      var k: nat :| OwnDraftAt(c.world, id, k, job) && SubInventory(c.world.releases[k].assets, job.assets);
      OneDraft(c.world, id, k, job);
      FinishFrom(step1.conn, c.world, id, k, job, inputs, imageRef, step1.value);
    }
  }

  lemma OneDraft(w: World, id: int, k: nat, job: Job)
    requires OwnDraftAt(w, id, k, job)
    ensures forall j: nat | OwnDraftAt(w, id, j, job) :: j == k
  {
  }

  // The rest of a finalization, behind the first four looks.
  lemma FinishFrom(c: Conn, w0: World, id: int, k: nat, job: Job, inputs: Inputs, imageRef: string,
      present: set<AssetName>)
    requires Proper(job) && Midway(c, w0, id, k, job, 25) && c.world == w0
      && inputs == job.inputs.(releaseId := Some(id))
    requires present == Names(w0.releases[k].assets)
    ensures var step2 := StageAssets(c, id, inputs, job.assets, present, job.assets);
      var step3 := FourCalls(step2.conn, id, inputs, job.assets, true, FinalPublicationChecks);
      var run := PublishAndVerify(step3.conn, id, inputs, job.assets, imageRef);
      && (step2.Went? && step3.Went? && run.Went? <==> Finishable(w0, id, k, job))
      && (step2.Went? && step3.Went? && run.Went? ==>
        && OutAt(run.conn.world, id, k, job) && run.value.publishedAt == w0.now
        && WriteLog(run.conn.trace) == WriteLog(c.trace) + Finishing(w0, id, k, job))
  {
    hide FourCalls, StageAssets, PublishAndVerify, Names, SubInventory, CompleteInventory;
    hide WriteLog, Missing, Owned, OutAt;
    assert |job.assets| == 4;
    hide SkipsExact, TakesUploads, Validated, Position;
    SkipsAtStart(job, w0.releases[k]);
    MissingAtMost(job.assets, present);
    StagingExact(c, w0, id, k, job, 25, inputs, present, job.assets);
    var step2 := StageAssets(c, id, inputs, job.assets, present, job.assets);
    if step2.Went? {
      var n := 25 - 4 * |Missing(job.assets, present)|;
      AllNamesStaged(step2.conn.world.releases[k].assets, job.assets);
      FourCallsExact(step2.conn, id, job, n, inputs, true, FinalPublicationChecks);
      var step3 := FourCalls(step2.conn, id, inputs, job.assets, true, FinalPublicationChecks);
      PublicationExact(step3.conn, w0, id, k, job, n - 4, inputs, imageRef);
    }
  }
}
