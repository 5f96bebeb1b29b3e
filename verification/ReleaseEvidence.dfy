/** Accepting publication evidence: projectReleasePublication of scripts/release-draft-lifecycle-policy.js. */
module ReleaseEvidence {
  import opened Common
  import opened ReleasePolicy
  import opened ReleaseRemote
  import opened ReleaseService
  import opened ReleaseCampaign
  import opened ReleaseRecovery
  import opened ReleaseCompletion

  function LocalNames(assets: seq<LocalAsset>): set<AssetName> {
    set a | a in assets :: a.name
  }

  predicate AssetGood(a: LocalAsset) {
    a.name in EXPECTED_NAMES && a.size > 0 && Hex(a.sha256, 64)
  }

  /** Evidence that names exactly this release. */
  predicate Bound(e: Evidence, inputs: Inputs, imageRef: string) {
    && e.labels == PASSED && inputs.releaseId == Some(e.releaseId)
    && e.repository == inputs.repository && e.releaseTag == inputs.releaseTag && e.sourceRevision == inputs.revision
    && e.imageRef == imageRef && e.prerelease == inputs.isPrerelease
  }

  /** Evidence for this release, with a time in the expected form and with all four assets. */
  predicate Acceptable(e: Evidence, inputs: Inputs, imageRef: string) {
    && Bound(e, inputs, imageRef) && IsoForm(e.publishedAt.text) && e.publishedAt.readable
    && |e.assets| == 4 && LocalNames(e.assets) == EXPECTED_NAMES && forall a | a in e.assets :: AssetGood(a)
  }

  method ProjectReleasePublication(e: Evidence, inputs: Inputs, imageRef: string) returns (r: Result<Evidence>)
    ensures r.Ok? <==> Acceptable(e, inputs, imageRef)
    ensures r.Ok? ==> r.value == e
  {
    hide IsoForm, Hex;
    var labels := e.labels;
    if labels.schemaVersion != 1 || labels.validationKind != "immutable-release-publication"
      || labels.status != "passed"
    {
      return Rejected;
    }
    if inputs.releaseId.None? || e.releaseId != inputs.releaseId.value || e.repository != inputs.repository {
      return Rejected;
    }
    if e.releaseTag != inputs.releaseTag || e.sourceRevision != inputs.revision || e.imageRef != imageRef {
      return Rejected;
    }
    if labels.draft || !labels.published || !labels.immutable || !labels.releaseAttestationVerified {
      return Rejected;
    }
    if e.prerelease != inputs.isPrerelease || !IsoForm(e.publishedAt.text) || !e.publishedAt.readable
      || |e.assets| != 4
    {
      return Rejected;
    }
    var names: set<AssetName> := {};
    for i := 0 to 4
      invariant names == LocalNames(e.assets[..i]) && |names| == i
      invariant forall a | a in e.assets[..i] :: AssetGood(a)
    {
      var asset := e.assets[i];
      assert asset in e.assets && e.assets[..i + 1] == e.assets[..i] + [asset];
      if asset.name in names {
        RepeatedNameMissesOne(e.assets, i);
        return Rejected;
      }
      if asset.name !in EXPECTED_NAMES || asset.size <= 0 || !Hex(asset.sha256, 64) {
        return Rejected;
      }
      names := names + {asset.name};
    }
    assert e.assets[..4] == e.assets;
    GoodNamesExpected(e.assets);
    assert |EXPECTED_NAMES| == 4;
    SubsetOfEqualSize(names, EXPECTED_NAMES);
    return Ok(e);
  }

  lemma GoodNamesExpected(assets: seq<LocalAsset>)
    requires forall a | a in assets :: AssetGood(a)
    ensures LocalNames(assets) <= EXPECTED_NAMES
  {
  }

  // Four assets of which two share a name cannot carry four names.
  lemma RepeatedNameMissesOne(assets: seq<LocalAsset>, i: nat)
    requires |assets| == 4 && i < 4 && assets[i].name in LocalNames(assets[..i])
    ensures LocalNames(assets) != EXPECTED_NAMES
  {
  }

  /**
   The evidence of a finalization that succeeded is accepted for the same release if and only if the host writes its
   publication time in the expected form: the finalization itself only asked for a readable time.
   */
  lemma FinalizedAcceptedExact(c: Conn, inputs: Inputs, assets: seq<LocalAsset>, imageRef: string)
    requires Validated(assets)
    ensures var run := Finalize(c, inputs, assets, imageRef);
      run.Went? ==> (Acceptable(run.value, inputs, imageRef) <==> IsoForm(run.value.publishedAt.text))
  {
    hide FourCalls, StageAssets, Publish, Issue, Perform, SubInventory, CompleteInventory, IsoForm, Hex;
    assert assets == [assets[0], assets[1], assets[2], assets[3]];
    assert LocalNames(assets) == EXPECTED_NAMES;
    assert forall a | a in assets :: AssetGood(a);
  }

  /**
   An undisturbed finalization on a host where it can finish passes, and its evidence is accepted if and only if the
   clock of the host writes the expected form.
   */
  lemma HostFormDecides(c: Conn, id: int, job: Job, imageRef: string)
    requires Proper(job) && Undisturbed(c, 29) && exists k: nat :: Finishable(c.world, id, k, job)
    ensures var inputs := job.inputs.(releaseId := Some(id));
      var run := Finalize(c, inputs, job.assets, imageRef);
      run.Went? && (Acceptable(run.value, inputs, imageRef) <==> IsoForm(c.world.now.text))
  {
    FinishesExact(c, id, job, imageRef);
    FinalizedAcceptedExact(c, job.inputs.(releaseId := Some(id)), job.assets, imageRef);
    hide Finalize, OutAt, IsoForm, Acceptable, Undisturbed, Finishing, WriteLog;
    var k: nat :| Finishable(c.world, id, k, job);
  }

  function SteadyScript(n: nat): seq<Weather<World>> {
    seq(n, _ => Steady)
  }

  /** One such host: its publication times carry an offset instead of a Z. */
  lemma OffsetTimeRefused(job: Job, imageRef: string)
    requires Proper(job)
    ensures var host := World(true, Some(job.inputs.revision), [], 1, Stamp("2026-09-13T10:00:00+00:00", true));
      var prepared := Prepare(Conn(host, SteadyScript(6), []), job.inputs);
      var inputs := job.inputs.(releaseId := Some(1));
      var run := Finalize(prepared.conn.(script := SteadyScript(29)), inputs, job.assets, imageRef);
      prepared.Went? && run.Went? && !Acceptable(run.value, inputs, imageRef)
  {
    var text := "2026-09-13T10:00:00+00:00";
    assert !IsoForm(text) by {
      assert |text| == 25;
    }
    var host := World(true, Some(job.inputs.revision), [], 1, Stamp(text, true));
    hide Prepare, Finalize, IsoForm, Proper;
    var c := Conn(host, SteadyScript(6), []);
    assert Inv(c, host, job);
    PrepareFinishes(c, host, job);
    var c' := Prepare(c, job.inputs).conn.(script := SteadyScript(29));
    FinalizeFinishes(c', host, job, imageRef);
    FinalizedAcceptedExact(c', job.inputs.(releaseId := Some(1)), job.assets, imageRef);
  }
}
