/** The two release operations: scripts/release-draft-lifecycle-service.js. */
module ReleaseService {
  import opened Common
  import opened ReleasePolicy
  import opened ReleaseRemote

  datatype Preparation = Preparation(releaseId: int, sourceRevision: Revision, reusedDraft: bool)

  /** The fields of publication evidence that do not depend on the release. */
  datatype Labels = Labels(
    schemaVersion: int,
    validationKind: string,
    status: string,
    draft: bool,
    published: bool,
    immutable: bool,
    releaseAttestationVerified: bool)

  const PASSED := Labels(1, "immutable-release-publication", "passed", false, true, true, true)

  /** Publication evidence. */
  datatype Evidence = Evidence(
    labels: Labels,
    releaseId: int,
    repository: string,
    releaseTag: string,
    sourceRevision: Revision,
    imageRef: string,
    prerelease: bool,
    publishedAt: Stamp,
    assets: seq<LocalAsset>)

  function Passed(id: int, inputs: Inputs, imageRef: string, published: Release, assets: seq<LocalAsset>): Evidence
    requires published.publishedAt.Some?
  {
    Evidence(PASSED, id, inputs.repository, inputs.releaseTag, inputs.revision, imageRef, inputs.isPrerelease,
             published.publishedAt.value, assets)
  }

  // ----- The operations as functions of the host, the script and the inputs -----

  ghost function Prepare(c: Conn, inputs: Inputs): Step<Preparation> {
    var stage := PrepublicationChecks;
    var (c, _) :- AssertImmutablePolicy(c, stage);
    var (c, _) :- ResolveTag(c, inputs, stage);
    var (c, found) :- FindByTag(c, inputs, stage);
    if |found| > 1 then Stopped(c, stage) else AdoptOrCreate(c, found, inputs)
  }

  ghost function AdoptOrCreate(c: Conn, found: seq<Release>, inputs: Inputs): Step<Preparation>
    requires |found| <= 1
  {
    var (c, release) :- if |found| == 1 then Went(c, found[0]) else Create(c, inputs, PrepublicationChecks);
    ConfirmDraft(c, release, inputs, |found| == 1)
  }

  ghost function ConfirmDraft(c: Conn, release: Release, inputs: Inputs, reused: bool): Step<Preparation> {
    var stage := PrepublicationChecks;
    if !Owned(release, inputs, false) then Stopped(c, stage)
    else
      var (c, _) :- ResolveTag(c, inputs, stage);
      var (c, _) :- GetOwnedRelease(c, release.id, inputs.(releaseId := Some(release.id)), false, stage);
      Went(c, Preparation(release.id, inputs.revision, reused))
  }

  /**
   Policy, tag, owned draft and inventory: looked at in front of the first upload, and again in front of
   publication.
   */
  ghost function FourCalls(c: Conn, id: int, inputs: Inputs, assets: seq<LocalAsset>, complete: bool,
      stage: Stage): Step<set<AssetName>> {
    var (c, _) :- AssertImmutablePolicy(c, stage);
    var (c, _) :- ResolveTag(c, inputs, stage);
    var (c, _) :- GetOwnedRelease(c, id, inputs, false, stage);
    CheckAssets(c, id, assets, complete, stage)
  }

  /** Uploads the assets of `rest` that are not present, each behind a fresh look at tag and draft. */
  ghost function StageAssets(c: Conn, id: int, inputs: Inputs, assets: seq<LocalAsset>, present: set<AssetName>,
      rest: seq<LocalAsset>): Step<()>
    decreases rest
  {
    if rest == [] then Went(c, ())
    else if rest[0].name in present then StageAssets(c, id, inputs, assets, present, rest[1..])
    else
      var (c, _) :- StageOne(c, id, inputs, assets, rest[0]);
      StageAssets(c, id, inputs, assets, present, rest[1..])
  }

  ghost function StageOne(c: Conn, id: int, inputs: Inputs, assets: seq<LocalAsset>, asset: LocalAsset): Step<()> {
    var stage := DraftAssetStaging;
    var (c, _) :- ResolveTag(c, inputs, stage);
    var (c, release) :- GetOwnedRelease(c, id, inputs, false, stage);
    var (c, _) :- Upload(c, id, release, asset, stage);
    var (c, _) :- CheckAssets(c, id, assets, false, stage);
    Went(c, ())
  }

  ghost function PublishAndVerify(c: Conn, id: int, inputs: Inputs, assets: seq<LocalAsset>,
      imageRef: string): Step<Evidence> {
    var (c, _) :- Publish(c, id, inputs, PublicationAndVerification);
    VerifyBehind(c, id, inputs, assets, imageRef)
  }

  /** The looks behind the publication. */
  ghost function VerifyBehind(c: Conn, id: int, inputs: Inputs, assets: seq<LocalAsset>,
      imageRef: string): Step<Evidence> {
    var stage := PublicationAndVerification;
    var (c, published) :- GetOwnedRelease(c, id, inputs, true, stage);
    var (c, _) :- ResolveTag(c, inputs, stage);
    var (c, _) :- CheckAssets(c, id, assets, true, stage);
    var (c, _) :- VerifyPublishedRelease(c, inputs, stage);
    Went(c, Passed(id, inputs, imageRef, published, assets))
  }

  ghost function Finalize(c: Conn, inputs: Inputs, assets: seq<LocalAsset>, imageRef: string): Step<Evidence> {
    if inputs.releaseId.None? then Stopped(c, PrepublicationChecks)
    else
      var id := inputs.releaseId.value;
      // The names already on the draft.
      var (c, present) :- FourCalls(c, id, inputs, assets, false, PrepublicationChecks);
      var (c, _) :- StageAssets(c, id, inputs, assets, present, assets);
      var (c, _) :- FourCalls(c, id, inputs, assets, true, FinalPublicationChecks);
      PublishAndVerify(c, id, inputs, assets, imageRef)
  }

  // ----- The operations as the script performs them -----

  class ReleaseDraftLifecycleService {
    var conn: Conn
    /** The stage that the error message of a failed finalization names. */
    var stage: Stage

    constructor (conn: Conn)
      ensures this.conn == conn
    {
      this.conn, stage := conn, PrepublicationChecks;
    }

    method Call(request: Request) returns (reply: Reply)
      modifies `conn
      ensures (conn, reply) == Issue(old(conn), request)
    {
      var (next, r) := Issue(conn, request);
      conn, reply := next, r;
    }

    method ReadTagAt(inputs: Inputs) returns (ok: bool)
      modifies `conn
      ensures conn == ResolveTag(old(conn), inputs, stage).conn && ok == ResolveTag(old(conn), inputs, stage).Went?
    {
      var reply := Call(ReadTag);
      ok := reply == TagAt(Some(inputs.revision));
    }

    method ReadOwned(id: int, inputs: Inputs, published: bool) returns (r: Result<Release>)
      modifies `conn
      ensures var step := GetOwnedRelease(old(conn), id, inputs, published, stage);
        conn == step.conn && r == if step.Went? then Ok(step.value) else Rejected
    {
      var reply := Call(ReadRelease(id));
      r := if reply.ReleaseIs? && Owned(reply.release, inputs, published) then Ok(reply.release) else Rejected;
    }

    method ReadInventory(id: int, assets: seq<LocalAsset>, complete: bool) returns (r: Result<set<AssetName>>)
      requires Validated(assets)
      modifies `conn
      ensures var step := CheckAssets(old(conn), id, assets, complete, stage);
        conn == step.conn && r == if step.Went? then Ok(step.value) else Rejected
    {
      var reply := Call(ListAssets(id));
      if !reply.AssetsAre? {
        return Rejected;
      }
      r := AssertReleaseAssetInventory(reply.assets, assets, complete);
    }

    method PrepareRelease(inputs: Inputs) returns (r: Result<Preparation>)
      modifies this
      ensures var run := Prepare(old(conn), inputs);
        conn == run.conn && r == if run.Went? then Ok(run.value) else Rejected
    {
      stage := PrepublicationChecks;
      var policy := Call(ReadPolicy);
      if policy != PolicyIs(true) {
        return Rejected;
      }
      var tagged := ReadTagAt(inputs);
      if !tagged {
        return Rejected;
      }
      var matches := Call(FindReleases(inputs.releaseTag));
      if !matches.ReleasesAre? || |matches.found| > 1 {
        return Rejected;
      }
      var release;
      if |matches.found| == 1 {
        release := matches.found[0];
      } else {
        var created := Call(CreateDraft(inputs));
        if !created.ReleaseIs? {
          return Rejected;
        }
        release := created.release;
      }
      if !Owned(release, inputs, false) {
        return Rejected;
      }
      tagged := ReadTagAt(inputs);
      if !tagged {
        return Rejected;
      }
      var reread := ReadOwned(release.id, inputs.(releaseId := Some(release.id)), false);
      if reread.Rejected? {
        return Rejected;
      }
      return Ok(Preparation(release.id, inputs.revision, |matches.found| == 1));
    }

    method UploadMissing(id: int, inputs: Inputs, assets: seq<LocalAsset>, present: set<AssetName>) returns (ok: bool)
      requires Validated(assets)
      modifies this
      ensures var run := StageAssets(old(conn), id, inputs, assets, present, assets);
        conn == run.conn && ok == run.Went? && stage == DraftAssetStaging
      ensures var run := StageAssets(old(conn), id, inputs, assets, present, assets);
        run.Stopped? ==> run.stage == stage
    {
      stage := DraftAssetStaging;
      assert assets[0..] == assets;
      for i := 0 to |assets|
        invariant stage == DraftAssetStaging
        invariant StageAssets(old(conn), id, inputs, assets, present, assets)
          == StageAssets(conn, id, inputs, assets, present, assets[i..])
      {
        var asset := assets[i];
        assert assets[i..][1..] == assets[i + 1..];
        if asset.name in present {
          continue;
        }
        var tagged := ReadTagAt(inputs);
        if !tagged {
          return false;
        }
        var release := ReadOwned(id, inputs, false);
        if release.Rejected? || release.value.uploadsTo != id {
          return false;
        }
        var uploaded := Call(UploadAsset(id, asset));
        if !uploaded.Done? {
          return false;
        }
        var listed := ReadInventory(id, assets, false);
        if listed.Rejected? {
          return false;
        }
      }
      return true;
    }

    method FinalizeRelease(inputs: Inputs, assets: seq<LocalAsset>, imageRef: string) returns (r: Result<Evidence>)
      requires Validated(assets)
      modifies this
      ensures var run := Finalize(old(conn), inputs, assets, imageRef);
        && conn == run.conn
        && r == (if run.Went? then Ok(run.value) else Rejected)
        && (run.Stopped? ==> run.stage == stage)
    {
      stage := PrepublicationChecks;
      if inputs.releaseId.None? {
        return Rejected;
      }
      var id := inputs.releaseId.value;
      var present := LookAtEverything(id, inputs, assets, false);
      if present.Rejected? {
        return Rejected;
      }
      var staged := UploadMissing(id, inputs, assets, present.value);
      if !staged {
        return Rejected;
      }
      stage := FinalPublicationChecks;
      var complete := LookAtEverything(id, inputs, assets, true);
      if complete.Rejected? {
        return Rejected;
      }
      r := PublishThenVerify(id, inputs, assets, imageRef);
    }

    method LookAtEverything(id: int, inputs: Inputs, assets: seq<LocalAsset>, complete: bool)
      returns (r: Result<set<AssetName>>)
      requires Validated(assets)
      modifies `conn
      ensures var run := FourCalls(old(conn), id, inputs, assets, complete, stage);
        conn == run.conn && r == (if run.Went? then Ok(run.value) else Rejected)
          && (run.Stopped? ==> run.stage == stage)
    {
      var policy := Call(ReadPolicy);
      if policy != PolicyIs(true) {
        return Rejected;
      }
      var tagged := ReadTagAt(inputs);
      if !tagged {
        return Rejected;
      }
      var draft := ReadOwned(id, inputs, false);
      if draft.Rejected? {
        return Rejected;
      }
      r := ReadInventory(id, assets, complete);
    }

    method PublishThenVerify(id: int, inputs: Inputs, assets: seq<LocalAsset>, imageRef: string)
      returns (r: Result<Evidence>)
      requires Validated(assets)
      modifies this
      ensures var run := PublishAndVerify(old(conn), id, inputs, assets, imageRef);
        && conn == run.conn
        && r == (if run.Went? then Ok(run.value) else Rejected)
        && stage == PublicationAndVerification
        && (run.Stopped? ==> run.stage == stage)
    {
      stage := PublicationAndVerification;
      var patched := Call(PublishDraft(id, inputs.isPrerelease));
      if !patched.ReleaseIs? || !Owned(patched.release, inputs, true) {
        return Rejected;
      }
      var published := ReadOwned(id, inputs, true);
      if published.Rejected? {
        return Rejected;
      }
      var tagged := ReadTagAt(inputs);
      if !tagged {
        return Rejected;
      }
      var complete := ReadInventory(id, assets, true);
      if complete.Rejected? {
        return Rejected;
      }
      var verified := Call(VerifyPublished(inputs.releaseTag));
      if !verified.Done? {
        return Rejected;
      }
      return Ok(Passed(id, inputs, imageRef, published.value, assets));
    }
  }
}
