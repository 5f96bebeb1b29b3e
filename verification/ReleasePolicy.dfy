/** Ownership and inventory rules for release drafts: scripts/release-draft-lifecycle-policy.js. */
module ReleasePolicy {
  import opened Common

  type Revision = int

  /** Sixty-four hexadecimal digits; the host writes them behind the name of the algorithm, which is left out here. */
  type Digest = string

  /** The four names of defaultReleaseAssetNames; any other name is foreign. */
  datatype AssetName = ComposeOverride | Metadata | Sbom | Verification | Foreign(name: string)

  const EXPECTED_NAMES: set<AssetName> := {ComposeOverride, Metadata, Sbom, Verification}

  datatype LocalAsset = LocalAsset(name: AssetName, size: int, sha256: Digest)

  datatype RemoteAsset = RemoteAsset(id: int, name: AssetName, uploaded: bool, size: int, digest: Digest)

  /** The ownership comment embedded in a release body. */
  datatype Marker = Marker(repository: string, releaseTag: string, revision: Revision)

  /**
   `markers` lists every ownership comment that starts in the release body, complete or not (None); a publication
   time that is no text is None.
   */
  datatype Release = Release(
    id: int,
    tagName: string,
    target: Revision,
    markers: seq<Option<Marker>>,
    prerelease: bool,
    draft: bool,
    immutable: bool,
    publishedAt: Option<Stamp>,
    uploadsTo: int,
    assets: seq<RemoteAsset>)

  datatype Inputs = Inputs(
    repository: string, releaseTag: string, revision: Revision, isPrerelease: bool, releaseId: Option<int>) {
    function MarkerOf(): Marker {
      Marker(ToLower(repository), releaseTag, revision)
    }
  }

  /** The check of assertOwnedRelease. */
  predicate Owned(release: Release, inputs: Inputs, published: bool) {
    && release.id > 0
    && (inputs.releaseId.Some? ==> release.id == inputs.releaseId.value)
    && release.tagName == inputs.releaseTag
    && release.target == inputs.revision
    && release.markers == [Some(inputs.MarkerOf())]
    && release.prerelease == inputs.isPrerelease
    && release.draft == !published
    && (published ==> release.immutable && release.publishedAt.Some? && release.publishedAt.value.readable)
  }

  /**
   What withValidatedReleaseAssets hands over: the four assets in their fixed order, none of them empty, each with
   its hash.
   */
  predicate Validated(assets: seq<LocalAsset>) {
    && |assets| == 4
    && assets[0].name == ComposeOverride && assets[1].name == Metadata && assets[2].name == Sbom
       && assets[3].name == Verification
    && forall a | a in assets :: a.size > 0 && Hex(a.sha256, 64)
  }

  // ----- Inventory -----

  /** The remote asset carries exactly the bytes of a validated asset. */
  ghost predicate Matches(remote: RemoteAsset, assets: seq<LocalAsset>) {
    && remote.id > 0 && remote.uploaded && remote.name in EXPECTED_NAMES
    && exists a | a in assets :: a.name == remote.name && a.size == remote.size && a.sha256 == remote.digest
  }

  /** A sub-inventory: every remote asset is a validated one, and none is there twice. */
  ghost predicate SubInventory(remote: seq<RemoteAsset>, assets: seq<LocalAsset>) {
    && (forall i, j | 0 <= i < j < |remote| :: remote[i].name != remote[j].name)
    && forall r | r in remote :: Matches(r, assets)
  }

  function Names(remote: seq<RemoteAsset>): set<AssetName> {
    set r | r in remote :: r.name
  }

  ghost predicate CompleteInventory(remote: seq<RemoteAsset>, assets: seq<LocalAsset>) {
    SubInventory(remote, assets) && Names(remote) == EXPECTED_NAMES
  }

  function FindLocal(assets: seq<LocalAsset>, name: AssetName): (r: Option<LocalAsset>)
    ensures r.Some? ==> r.value in assets && r.value.name == name
    ensures r.None? ==> forall a | a in assets :: a.name != name
  {
    if assets == [] then None
    else if assets[0].name == name then Some(assets[0])
    else FindLocal(assets[1..], name)
  }

  lemma NamesCount(remote: seq<RemoteAsset>)
    requires forall i, j | 0 <= i < j < |remote| :: remote[i].name != remote[j].name
    ensures |Names(remote)| == |remote|
  {
    var names := Map(remote, (r: RemoteAsset) => r.name);
    DistinctCardinality(names);
    assert forall i | 0 <= i < |names| :: remote[i] in remote && names[i] in names;
    assert Elements(names) == Names(remote);
  }

  lemma SubsetOfEqualSize<T>(a: set<T>, b: set<T>)
    requires a <= b && |a| == |b|
    ensures a == b
  {
    assert b == a + (b - a);
  }

  /** A sub-inventory never has more than four entries, and four entries are all of them. */
  lemma FourNamesAreAll(remote: seq<RemoteAsset>, assets: seq<LocalAsset>)
    requires SubInventory(remote, assets)
    ensures |remote| <= 4
    ensures |Names(remote)| == 4 <==> Names(remote) == EXPECTED_NAMES
  {
    NamesCount(remote);
    assert Names(remote) <= EXPECTED_NAMES;
    assert EXPECTED_NAMES == Names(remote) + (EXPECTED_NAMES - Names(remote));
    assert |EXPECTED_NAMES| == 4;
    if |Names(remote)| == 4 {
      SubsetOfEqualSize(Names(remote), EXPECTED_NAMES);
    }
  }

  /** assertReleaseAssetInventory: accepts exactly the sub-inventories, or exactly the complete ones. */
  method AssertReleaseAssetInventory(remoteAssets: seq<RemoteAsset>, localAssets: seq<LocalAsset>, complete: bool)
    returns (r: Result<set<AssetName>>)
    requires Validated(localAssets)
    ensures r.Ok? <==>
      if complete then CompleteInventory(remoteAssets, localAssets) else SubInventory(remoteAssets, localAssets)
    ensures r.Ok? ==> r.value == Names(remoteAssets)
  {
    if |remoteAssets| > 4 {
      if SubInventory(remoteAssets, localAssets) {
        FourNamesAreAll(remoteAssets, localAssets);
      }
      return Rejected;
    }
    var seen: set<AssetName> := {};
    for i := 0 to |remoteAssets|
      invariant seen == Names(remoteAssets[..i])
      invariant SubInventory(remoteAssets[..i], localAssets)
    {
      var remote := remoteAssets[i];
      var local := FindLocal(localAssets, remote.name);
      assert remoteAssets[..i + 1] == remoteAssets[..i] + [remote];
      if remote.name !in EXPECTED_NAMES || remote.name in seen || local.None? || remote.id <= 0 || !remote.uploaded
        || remote.size != local.value.size || remote.digest != local.value.sha256
      {
        LocalUnique(localAssets);
        assert remote in remoteAssets;
        return Rejected;
      }
      seen := seen + {remote.name};
    }
    assert remoteAssets[..|remoteAssets|] == remoteAssets;
    FourNamesAreAll(remoteAssets, localAssets);
    if complete && |seen| != 4 {
      return Rejected;
    }
    return Ok(seen);
  }

  lemma LocalUnique(assets: seq<LocalAsset>)
    requires Validated(assets)
    ensures forall a, b | a in assets && b in assets && a.name == b.name :: a == b
  {
  }
}
