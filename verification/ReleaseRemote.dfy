/**
 The release host as explicit state, and the client calls of scripts/release-draft-lifecycle-client.js
 as requests to it. Every call is atomic; what happens around it is given by a script.
 */
module ReleaseRemote {
  import opened Common
  import opened ReleasePolicy

  datatype World = World(
    immutablePolicy: bool,
    tagCommit: Option<Revision>,
    releases: seq<Release>,
    nextId: int,
    now: Stamp)

  datatype Request =
    | ReadPolicy
    | ReadTag
    | FindReleases(tag: string)
    | ReadRelease(id: int)
    | CreateDraft(inputs: Inputs)
    | ListAssets(id: int)
    | UploadAsset(id: int, asset: LocalAsset)
    | PublishDraft(id: int, prerelease: bool)
    | VerifyPublished(tag: string)

  datatype Reply =
    | Failed
    | PolicyIs(enabled: bool)
    | TagAt(commit: Option<Revision>)
    | ReleasesAre(found: seq<Release>)
    | ReleaseIs(release: Release)
    | AssetsAre(assets: seq<RemoteAsset>)
    | Done

  predicate IsWrite(r: Request) {
    r.CreateDraft? || r.UploadAsset? || r.PublishDraft?
  }

  /** A request that reached the host, and the host's reply, whether or not the client heard it. */
  datatype Event = Event(request: Request, reply: Reply, heard: bool)

  const LISTING_BOUND := 500

  function WithTag(releases: seq<Release>, tag: string): seq<Release> {
    Filter(releases, (r: Release) => r.tagName == tag)
  }

  function Position(releases: seq<Release>, id: int): (p: Option<nat>)
    ensures p.Some? ==> p.value < |releases| && releases[p.value].id == id
    ensures p.None? ==> forall r | r in releases :: r.id != id
  {
    if releases == [] then None
    else if releases[0].id == id then Some(0)
    else match Position(releases[1..], id) case None => None case Some(k) => Some(k + 1)
  }

  function NewDraft(w: World, inputs: Inputs): Release {
    Release(w.nextId, inputs.releaseTag, inputs.revision, [Some(inputs.MarkerOf())], inputs.isPrerelease,
            true, false, None, w.nextId, [])
  }

  function NewAsset(w: World, asset: LocalAsset): RemoteAsset {
    RemoteAsset(w.nextId, asset.name, true, asset.size, asset.sha256)
  }

  /** One page of five entries. */
  function OnePage(assets: seq<RemoteAsset>): seq<RemoteAsset> {
    if |assets| <= 5 then assets else assets[..5]
  }

  function Published(w: World, r: Release, prerelease: bool): Release {
    r.(draft := false, prerelease := prerelease, immutable := w.immutablePolicy, publishedAt := Some(w.now))
  }

  /** What the host does with a request. */
  function Perform(w: World, request: Request): (World, Reply) {
    match request
    case ReadPolicy => (w, PolicyIs(w.immutablePolicy))
    case ReadTag => (w, TagAt(w.tagCommit))
    case FindReleases(tag) =>
      (w, if |w.releases| < LISTING_BOUND then ReleasesAre(WithTag(w.releases, tag)) else Failed)
    case ReadRelease(id) =>
      (match Position(w.releases, id)
       case None => (w, Failed)
       case Some(k) => (w, ReleaseIs(w.releases[k])))
    case CreateDraft(inputs) =>
      (w.(releases := w.releases + [NewDraft(w, inputs)], nextId := w.nextId + 1), ReleaseIs(NewDraft(w, inputs)))
    case ListAssets(id) =>
      (match Position(w.releases, id)
       case None => (w, Failed)
       case Some(k) => (w, AssetsAre(OnePage(w.releases[k].assets))))
    case UploadAsset(id, asset) =>
      (match Position(w.releases, id)
       case None => (w, Failed)
       case Some(k) =>
         var r := w.releases[k];
         if r.immutable || asset.name in Names(r.assets) then (w, Failed)
         else
           var grown := r.(assets := r.assets + [NewAsset(w, asset)]);
           (w.(releases := w.releases[k := grown], nextId := w.nextId + 1), Done))
    case PublishDraft(id, prerelease) =>
      (match Position(w.releases, id)
       case None => (w, Failed)
       case Some(k) =>
         var r := Published(w, w.releases[k], prerelease);
         (w.(releases := w.releases[k := r]), ReleaseIs(r)))
    case VerifyPublished(tag) =>
      (w, if exists r | r in w.releases :: r.tagName == tag && !r.draft && r.immutable then Done else Failed)
  }

  /** The client's side: the host it talks to, what will happen around its calls, and what reached the host so far. */
  datatype Conn = Conn(world: World, script: seq<Weather<World>>, trace: seq<Event>)

  /** One client call. An exhausted script is a client that was stopped. */
  function Issue(c: Conn, request: Request): (Conn, Reply) {
    if c.script == [] then (c, Failed)
    else if c.script[0].Down? then (c.(script := c.script[1..]), Failed)
    else
      var before := if c.script[0].Changed? then c.script[0].world else c.world;
      var (after, reply) := Perform(before, request);
      var heard := !c.script[0].Lost?;
      (Conn(after, c.script[1..], c.trace + [Event(request, reply, heard)]), if heard then reply else Failed)
  }

  // ----- Checked calls -----

  datatype Stage = PrepublicationChecks | DraftAssetStaging | FinalPublicationChecks | PublicationAndVerification

  /** A call or a run that yields a value, or throws while the client was in a stage. */
  datatype Step<+T> = Went(conn: Conn, value: T) | Stopped(conn: Conn, stage: Stage) {
    predicate IsFailure() {
      Stopped?
    }

    function PropagateFailure<U>(): Step<U>
      requires Stopped?
    {
      Stopped(conn, stage)
    }

    function Extract(): (Conn, T)
      requires Went?
    {
      (conn, value)
    }
  }

  function AssertImmutablePolicy(c: Conn, stage: Stage): Step<()> {
    var (c', reply) := Issue(c, ReadPolicy);
    if reply == PolicyIs(true) then Went(c', ()) else Stopped(c', stage)
  }

  function ResolveTag(c: Conn, inputs: Inputs, stage: Stage): Step<()> {
    var (c', reply) := Issue(c, ReadTag);
    if reply == TagAt(Some(inputs.revision)) then Went(c', ()) else Stopped(c', stage)
  }

  function FindByTag(c: Conn, inputs: Inputs, stage: Stage): Step<seq<Release>> {
    var (c', reply) := Issue(c, FindReleases(inputs.releaseTag));
    if reply.ReleasesAre? then Went(c', reply.found) else Stopped(c', stage)
  }

  /** assertOwnedRelease on the response of a read. */
  function GetOwnedRelease(c: Conn, id: int, inputs: Inputs, published: bool, stage: Stage): Step<Release> {
    var (c', reply) := Issue(c, ReadRelease(id));
    if reply.ReleaseIs? && Owned(reply.release, inputs, published) then Went(c', reply.release) else Stopped(c', stage)
  }

  function Create(c: Conn, inputs: Inputs, stage: Stage): Step<Release> {
    var (c', reply) := Issue(c, CreateDraft(inputs));
    if reply.ReleaseIs? then Went(c', reply.release) else Stopped(c', stage)
  }

  /** assertReleaseAssetInventory on the response of a listing. */
  ghost function CheckAssets(c: Conn, id: int, assets: seq<LocalAsset>, complete: bool,
      stage: Stage): Step<set<AssetName>> {
    var (c', reply) := Issue(c, ListAssets(id));
    if reply.AssetsAre?
      && (if complete then CompleteInventory(reply.assets, assets) else SubInventory(reply.assets, assets))
    then Went(c', Names(reply.assets)) else Stopped(c', stage)
  }

  /** The upload URL of the release that was read has to address the release the run is for. */
  function Upload(c: Conn, id: int, release: Release, asset: LocalAsset, stage: Stage): Step<()> {
    if release.uploadsTo != id then Stopped(c, stage)
    else
      var (c', reply) := Issue(c, UploadAsset(id, asset));
      if reply.Done? then Went(c', ()) else Stopped(c', stage)
  }

  function Publish(c: Conn, id: int, inputs: Inputs, stage: Stage): Step<Release> {
    var (c', reply) := Issue(c, PublishDraft(id, inputs.isPrerelease));
    if reply.ReleaseIs? && Owned(reply.release, inputs, true) then Went(c', reply.release) else Stopped(c', stage)
  }

  function VerifyPublishedRelease(c: Conn, inputs: Inputs, stage: Stage): Step<()> {
    var (c', reply) := Issue(c, VerifyPublished(inputs.releaseTag));
    if reply.Done? then Went(c', ()) else Stopped(c', stage)
  }
}
