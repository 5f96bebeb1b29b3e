/**
 What one run guarantees while anybody may change policy, tag, releases and assets between any two of
 its calls: every statement is about the requests that reached the host and what the client was told.
 */
module ReleaseSafety {
  import opened Common
  import opened ReleasePolicy
  import opened ReleaseRemote
  import opened ReleaseService

  predicate SawPolicy(e: Event) {
    e == Event(ReadPolicy, PolicyIs(true), true)
  }

  predicate SawTag(e: Event, inputs: Inputs) {
    e == Event(ReadTag, TagAt(Some(inputs.revision)), true)
  }

  predicate SawOwned(e: Event, id: int, inputs: Inputs, published: bool) {
    e.request == ReadRelease(id) && e.heard && e.reply.ReleaseIs? && Owned(e.reply.release, inputs, published)
  }

  ghost predicate SawInventory(e: Event, id: int, assets: seq<LocalAsset>, complete: bool) {
    && e.request == ListAssets(id) && e.heard && e.reply.AssetsAre?
    && if complete then CompleteInventory(e.reply.assets, assets) else SubInventory(e.reply.assets, assets)
  }

  predicate SawNoRelease(e: Event, inputs: Inputs) {
    e == Event(FindReleases(inputs.releaseTag), ReleasesAre([]), true)
  }

  predicate ReadsOnly(s: seq<Event>) {
    forall e | e in s :: !IsWrite(e.request)
  }

  // ----- One call -----

  // A call adds at most its own request to what reached the host; a reply that counts was heard.
  lemma IssueGrows(c: Conn, request: Request) returns (s: seq<Event>)
    ensures Issue(c, request).0.trace == c.trace + s
    ensures |s| <= 1 && forall e | e in s :: e.request == request
    ensures Issue(c, request).1 != Failed ==> s == [Event(request, Issue(c, request).1, true)]
  {
    var (c', reply) := Issue(c, request);
    s := c'.trace[|c.trace|..];
    assert c.trace + [] == c.trace;
  }

  /** Since the trace t0, exactly the events s have been added. */
  predicate Grown(t0: seq<Event>, s: seq<Event>, c: Conn) {
    c.trace == t0 + s
  }

  lemma CallGrows(t0: seq<Event>, s: seq<Event>, c: Conn, request: Request) returns (s': seq<Event>)
    requires Grown(t0, s, c)
    ensures Grown(t0, s', Issue(c, request).0)
    ensures s' == s || (|s'| == |s| + 1 && s' == s + [s'[|s|]] && s'[|s|].request == request)
    ensures Issue(c, request).1 != Failed ==> s' == s + [Event(request, Issue(c, request).1, true)]
  {
    var more := IssueGrows(c, request);
    s' := s + more;
    assert t0 + s + more == t0 + (s + more);
  }

  lemma ReadGrows(t0: seq<Event>, s: seq<Event>, c: Conn, request: Request) returns (s': seq<Event>)
    requires Grown(t0, s, c) && ReadsOnly(s) && !IsWrite(request)
    ensures Grown(t0, s', Issue(c, request).0) && ReadsOnly(s')
    ensures Issue(c, request).1 != Failed ==> s' == s + [Event(request, Issue(c, request).1, true)]
  {
    s' := CallGrows(t0, s, c, request);
  }

  // ----- The phases of a finalization -----

  /** The four looks in front of staging and of publication, in order. */
  ghost predicate FourLooks(s: seq<Event>, id: int, inputs: Inputs, assets: seq<LocalAsset>, complete: bool) {
    |s| == 4 && SawPolicy(s[0]) && SawTag(s[1], inputs) && SawOwned(s[2], id, inputs, false)
      && SawInventory(s[3], id, assets, complete)
  }

  lemma FourCallsGrow(c: Conn, id: int, inputs: Inputs, assets: seq<LocalAsset>, complete: bool, stage: Stage)
    returns (s: seq<Event>)
    ensures var run := FourCalls(c, id, inputs, assets, complete, stage);
      && Grown(c.trace, s, run.conn) && ReadsOnly(s)
      && (run.Went? ==> FourLooks(s, id, inputs, assets, complete) && run.value == Names(s[3].reply.assets))
      && (run.Stopped? ==> run.stage == stage)
  {
    hide Perform, Issue, SubInventory, CompleteInventory, Names;
    s := ReadGrows(c.trace, [], c, ReadPolicy);
    var step1 := AssertImmutablePolicy(c, stage);
    if step1.Went? {
      assert SawPolicy(s[0]);
      s := ReadGrows(c.trace, s, step1.conn, ReadTag);
      var step2 := ResolveTag(step1.conn, inputs, stage);
      if step2.Went? {
        assert SawTag(s[1], inputs);
        s := ReadGrows(c.trace, s, step2.conn, ReadRelease(id));
        var step3 := GetOwnedRelease(step2.conn, id, inputs, false, stage);
        if step3.Went? {
          assert SawOwned(s[2], id, inputs, false);
          s := ReadGrows(c.trace, s, step3.conn, ListAssets(id));
        }
      }
    }
  }

  /** Tag and owned draft were read just before this upload. */
  predicate UploadGuarded(s: seq<Event>, i: nat, id: int, inputs: Inputs)
    requires i < |s|
  {
    && i >= 2
    && SawTag(s[i - 2], inputs)
    && SawOwned(s[i - 1], id, inputs, false)
    && s[i - 1].reply.release.uploadsTo == id
    && s[i].request.UploadAsset? && s[i].request.id == id
  }

  /** The listing behind an upload is read before anything else happens, and shows validated assets only. */
  ghost predicate Rechecked(s: seq<Event>, i: nat, id: int, assets: seq<LocalAsset>, done: bool)
    requires i < |s|
  {
    && (i + 1 < |s| ==> s[i + 1].request == ListAssets(id))
    && (done || i + 2 < |s| ==> i + 1 < |s| && SawInventory(s[i + 1], id, assets, false))
  }

  /** The uploads of staging; `done` says that it ran to its end. */
  ghost predicate StagingEvents(s: seq<Event>, id: int, inputs: Inputs, assets: seq<LocalAsset>,
      present: set<AssetName>, rest: seq<LocalAsset>, done: bool) {
    forall i | 0 <= i < |s| && IsWrite(s[i].request) ::
      && UploadGuarded(s, i, id, inputs) && Rechecked(s, i, id, assets, done)
      && s[i].request.asset in rest && s[i].request.asset.name !in present
  }

  /** What one asset adds to the trace: two reads that went well, the upload, and the listing. */
  ghost predicate StageShape(s: seq<Event>, id: int, inputs: Inputs, assets: seq<LocalAsset>, asset: LocalAsset,
      done: bool) {
    && |s| <= 4
    && (|s| >= 1 ==> s[0].request == ReadTag)
    && (|s| >= 2 ==> SawTag(s[0], inputs) && s[1].request == ReadRelease(id))
    && (|s| >= 3 ==>
      && SawOwned(s[1], id, inputs, false) && s[1].reply.release.uploadsTo == id
      && s[2].request == UploadAsset(id, asset))
    && (|s| >= 4 ==> s[3].request == ListAssets(id))
    && (done ==> |s| == 4 && SawInventory(s[3], id, assets, false))
  }

  lemma OneStaged(c: Conn, id: int, inputs: Inputs, assets: seq<LocalAsset>, asset: LocalAsset) returns (s: seq<Event>)
    ensures var run := StageOne(c, id, inputs, assets, asset);
      && run.conn.trace == c.trace + s && StageShape(s, id, inputs, assets, asset, run.Went?)
      && (run.Stopped? ==> run.stage == DraftAssetStaging)
  {
    hide Perform, Issue, SubInventory, CompleteInventory, Names;
    var stage := DraftAssetStaging;
    s := CallGrows(c.trace, [], c, ReadTag);
    var step1 := ResolveTag(c, inputs, stage);
    if step1.Went? {
      s := CallGrows(c.trace, s, step1.conn, ReadRelease(id));
      var step2 := GetOwnedRelease(step1.conn, id, inputs, false, stage);
      if step2.Went? && step2.value.uploadsTo == id {
        s := CallGrows(c.trace, s, step2.conn, UploadAsset(id, asset));
        var step3 := Upload(step2.conn, id, step2.value, asset, stage);
        if step3.Went? {
          s := CallGrows(c.trace, s, step3.conn, ListAssets(id));
        }
      }
    }
  }

  lemma {:induction false} Staging(c: Conn, id: int, inputs: Inputs, assets: seq<LocalAsset>, present: set<AssetName>,
      rest: seq<LocalAsset>)
    returns (s: seq<Event>)
    ensures var run := StageAssets(c, id, inputs, assets, present, rest);
      && run.conn.trace == c.trace + s && StagingEvents(s, id, inputs, assets, present, rest, run.Went?)
      && (run.Stopped? ==> run.stage == DraftAssetStaging)
    decreases rest
  {
    hide StageOne, UploadGuarded, StagingEvents, StageShape;
    NoStaging(id, inputs, assets, present, rest);
    if rest == [] {
      s := [];
    } else if rest[0].name in present {
      s := Staging(c, id, inputs, assets, present, rest[1..]);
      var done := StageAssets(c, id, inputs, assets, present, rest[1..]).Went?;
      StagingConcat([], s, id, inputs, assets, present, rest, done);
      assert [] + s == s;
    } else {
      s := OneStaged(c, id, inputs, assets, rest[0]);
      var step := StageOne(c, id, inputs, assets, rest[0]);
      FirstStaged(s, id, inputs, assets, present, rest, step.Went?);
      if step.Went? {
        var more := Staging(step.conn, id, inputs, assets, present, rest[1..]);
        var done := StageAssets(step.conn, id, inputs, assets, present, rest[1..]).Went?;
        StagingConcat(s, more, id, inputs, assets, present, rest, done);
        assert c.trace + s + more == c.trace + (s + more);
        s := s + more;
      }
    }
  }

  lemma NoStaging(id: int, inputs: Inputs, assets: seq<LocalAsset>, present: set<AssetName>, rest: seq<LocalAsset>)
    ensures StagingEvents([], id, inputs, assets, present, rest, true)
      && StagingEvents([], id, inputs, assets, present, rest, false)
  {
  }

  lemma FirstStaged(s: seq<Event>, id: int, inputs: Inputs, assets: seq<LocalAsset>, present: set<AssetName>,
      rest: seq<LocalAsset>, done: bool)
    requires rest != [] && rest[0].name !in present && StageShape(s, id, inputs, assets, rest[0], done)
    ensures StagingEvents(s, id, inputs, assets, present, rest, done)
  {
  }

  lemma StagingConcat(a: seq<Event>, b: seq<Event>, id: int, inputs: Inputs, assets: seq<LocalAsset>,
      present: set<AssetName>, rest: seq<LocalAsset>, done: bool)
    requires rest != [] && StagingEvents(a, id, inputs, assets, present, rest, true)
    requires StagingEvents(b, id, inputs, assets, present, rest[1..], done)
    ensures StagingEvents(a + b, id, inputs, assets, present, rest, done)
  {
    hide SawInventory, SawTag, SawOwned;
    var s := a + b;
    forall i | 0 <= i < |s| && IsWrite(s[i].request)
      ensures UploadGuarded(s, i, id, inputs) && Rechecked(s, i, id, assets, done)
      ensures s[i].request.asset in rest && s[i].request.asset.name !in present
    {
      if i < |a| {
        assert UploadGuarded(a, i, id, inputs) && Rechecked(a, i, id, assets, true);
        assert s[i - 1] == a[i - 1] && s[i - 2] == a[i - 2] && s[i + 1] == a[i + 1];
      } else {
        var k := i - |a|;
        assert UploadGuarded(b, k, id, inputs) && Rechecked(b, k, id, assets, done);
        assert s[i - 1] == b[k - 1] && s[i - 2] == b[k - 2];
        assert k + 1 < |b| ==> s[i + 1] == b[k + 1];
      }
    }
  }

  lemma NotQuiteDone(s: seq<Event>, id: int, inputs: Inputs, assets: seq<LocalAsset>, present: set<AssetName>,
      rest: seq<LocalAsset>)
    requires StagingEvents(s, id, inputs, assets, present, rest, true)
    ensures StagingEvents(s, id, inputs, assets, present, rest, false)
  {
  }

  /** The publication, and four looks behind it that show what the evidence says. */
  ghost predicate PublishedAndSeen(s: seq<Event>, id: int, inputs: Inputs, assets: seq<LocalAsset>,
      evidence: Evidence) {
    && |s| == 5
    && s[0].request == PublishDraft(id, inputs.isPrerelease)
    && SeenPublished(s[1..], id, inputs, assets, evidence)
  }

  lemma Publication(c: Conn, id: int, inputs: Inputs, assets: seq<LocalAsset>, imageRef: string) returns (s: seq<Event>)
    requires inputs.releaseId == Some(id)
    ensures var run := PublishAndVerify(c, id, inputs, assets, imageRef);
      && run.conn.trace == c.trace + s
      && (s != [] ==> s[0].request == PublishDraft(id, inputs.isPrerelease) && ReadsOnly(s[1..]))
      && (run.Went? ==> PublishedAndSeen(s, id, inputs, assets, run.value))
      && (run.Stopped? ==> run.stage == PublicationAndVerification)
  {
    hide Perform, Issue, SubInventory, CompleteInventory, Names, VerifyBehind;
    var stage := PublicationAndVerification;
    s := CallGrows(c.trace, [], c, PublishDraft(id, inputs.isPrerelease));
    var step1 := Publish(c, id, inputs, stage);
    if step1.Went? {
      var looks := LooksBehind(step1.conn, id, inputs, assets, imageRef);
      assert c.trace + s + looks == c.trace + (s + looks);
      s := s + looks;
      assert s[1..] == looks;
    }
  }

  ghost predicate SeenPublished(s: seq<Event>, id: int, inputs: Inputs, assets: seq<LocalAsset>, evidence: Evidence) {
    && |s| == 4
    && SawOwned(s[0], id, inputs, true)
    && SawTag(s[1], inputs)
    && SawInventory(s[2], id, assets, true)
    && s[3] == Event(VerifyPublished(inputs.releaseTag), Done, true)
    && evidence.releaseId == s[0].reply.release.id
    && Some(evidence.publishedAt) == s[0].reply.release.publishedAt && evidence.labels == PASSED
    && evidence.repository == inputs.repository && evidence.releaseTag == inputs.releaseTag
       && evidence.sourceRevision == inputs.revision
    && evidence.prerelease == s[0].reply.release.prerelease
    && evidence.assets == assets
  }

  lemma LooksBehind(c: Conn, id: int, inputs: Inputs, assets: seq<LocalAsset>, imageRef: string) returns (s: seq<Event>)
    requires inputs.releaseId == Some(id)
    ensures var run := VerifyBehind(c, id, inputs, assets, imageRef);
      && Grown(c.trace, s, run.conn) && ReadsOnly(s)
      && (run.Went? ==> SeenPublished(s, id, inputs, assets, run.value))
      && (run.Stopped? ==> run.stage == PublicationAndVerification)
  {
    hide Perform, Issue, SubInventory, CompleteInventory, Names;
    var stage := PublicationAndVerification;
    s := ReadGrows(c.trace, [], c, ReadRelease(id));
    var step2 := GetOwnedRelease(c, id, inputs, true, stage);
    if step2.Went? {
      assert SawOwned(s[0], id, inputs, true);
      s := ReadGrows(c.trace, s, step2.conn, ReadTag);
      var step3 := ResolveTag(step2.conn, inputs, stage);
      if step3.Went? {
        assert SawTag(s[1], inputs);
        s := ReadGrows(c.trace, s, step3.conn, ListAssets(id));
        var step4 := CheckAssets(step3.conn, id, assets, true, stage);
        if step4.Went? {
          assert SawInventory(s[2], id, assets, true);
          s := ReadGrows(c.trace, s, step4.conn, VerifyPublished(inputs.releaseTag));
        }
      }
    }
  }

  // ----- A whole finalization -----

  /** The four phases of a run; phases that were not reached are empty. */
  datatype Phases = Phases(before: seq<Event>, staging: seq<Event>, checks: seq<Event>, publication: seq<Event>) {
    function All(): seq<Event> {
      before + staging + checks + publication
    }
  }

  ghost predicate PhasesOf(p: Phases, run: Step<Evidence>, id: int, inputs: Inputs, assets: seq<LocalAsset>) {
    && ReadsOnly(p.before) && StagingOf(p, id, inputs, assets) && ReadsOnly(p.checks)
    && (p.publication != [] ==>
      && FourLooks(p.checks, id, inputs, assets, true)
      && p.publication[0].request == PublishDraft(id, inputs.isPrerelease)
      && ReadsOnly(p.publication[1..]))
    && (run.Went? ==>
      FourLooks(p.checks, id, inputs, assets, true) && PublishedAndSeen(p.publication, id, inputs, assets, run.value))
    && (run.Stopped? && run.stage == PrepublicationChecks ==> p.staging == [])
    && (run.Stopped? && run.stage != PublicationAndVerification ==> p.publication == [])
  }

  /** Staging follows four looks, leaves alone what they showed, and has run to its end if anything follows it. */
  ghost predicate StagingOf(p: Phases, id: int, inputs: Inputs, assets: seq<LocalAsset>) {
    p.staging != [] ==>
      && FourLooks(p.before, id, inputs, assets, false)
      && var done := p.checks + p.publication != [];
         StagingEvents(p.staging, id, inputs, assets, Names(p.before[3].reply.assets), assets, done)
  }

  lemma NoIdentifier(c: Conn, inputs: Inputs, assets: seq<LocalAsset>, imageRef: string)
    requires inputs.releaseId.None?
    ensures Finalize(c, inputs, assets, imageRef) == Stopped(c, PrepublicationChecks)
  {
  }

  lemma FinalizationPhases(c: Conn, inputs: Inputs, assets: seq<LocalAsset>, imageRef: string) returns (p: Phases)
    requires inputs.releaseId.Some?
    ensures Finalize(c, inputs, assets, imageRef).conn.trace == c.trace + p.All()
    ensures PhasesOf(p, Finalize(c, inputs, assets, imageRef), inputs.releaseId.value, inputs, assets)
  {
    hide FourCalls, StageAssets, PublishAndVerify, FourLooks, PublishedAndSeen, StagingEvents, Names;
    var id := inputs.releaseId.value;
    var before := FourCallsGrow(c, id, inputs, assets, false, PrepublicationChecks);
    p := Phases(before, [], [], []);
    assert ReadsOnly([]);
    var step1 := FourCalls(c, id, inputs, assets, false, PrepublicationChecks);
    if step1.Went? {
      var staging := Staging(step1.conn, id, inputs, assets, step1.value, assets);
      p := p.(staging := staging);
      var step2 := StageAssets(step1.conn, id, inputs, assets, step1.value, assets);
      if step2.Went? {
        NotQuiteDone(staging, id, inputs, assets, step1.value, assets);
        var checks := FourCallsGrow(step2.conn, id, inputs, assets, true, FinalPublicationChecks);
        p := p.(checks := checks);
        var step3 := FourCalls(step2.conn, id, inputs, assets, true, FinalPublicationChecks);
        if step3.Went? {
          var publication := Publication(step3.conn, id, inputs, assets, imageRef);
          p := p.(publication := publication);
        }
      }
    }
  }

  /**
   Publication is requested at most once, immediately behind four looks that showed the policy enabled, the tag
   at the source commit, the owned draft and the complete validated inventory; every upload lies further back.
   */
  lemma PublicationGuarded(c: Conn, inputs: Inputs, assets: seq<LocalAsset>, imageRef: string)
    requires c.trace == []
    ensures var trace := Finalize(c, inputs, assets, imageRef).conn.trace;
      forall i | 0 <= i < |trace| && trace[i].request.PublishDraft? :: BehindFourLooks(trace, i, inputs, assets)
  {
    hide Finalize, PhasesOf, FourLooks, WriteAt;
    if inputs.releaseId.None? {
      NoIdentifier(c, inputs, assets, imageRef);
    } else {
      var run := Finalize(c, inputs, assets, imageRef);
      var p := FinalizationPhases(c, inputs, assets, imageRef);
      assert run.conn.trace == p.All();
      forall i | 0 <= i < |p.All()| && p.All()[i].request.PublishDraft?
        ensures BehindFourLooks(p.All(), i, inputs, assets)
      {
        PublicationPlaced(p, run, inputs.releaseId.value, inputs, assets, i);
        assert p.All()[i - 4..i] == p.checks;
      }
    }
  }

  /** This publication is the only one, comes right behind the four looks, and every upload lies before them. */
  ghost predicate BehindFourLooks(trace: seq<Event>, i: int, inputs: Inputs, assets: seq<LocalAsset>)
    requires 0 <= i < |trace|
  {
    && i >= 4 && inputs.releaseId.Some?
    && FourLooks(trace[i - 4..i], inputs.releaseId.value, inputs, assets, true)
    && trace[i].request == PublishDraft(inputs.releaseId.value, inputs.isPrerelease)
    && forall j | 0 <= j < |trace| && j != i && IsWrite(trace[j].request) :: trace[j].request.UploadAsset? && j < i - 4
  }

  lemma PublicationPlaced(p: Phases, run: Step<Evidence>, id: int, inputs: Inputs, assets: seq<LocalAsset>, i: nat)
    requires PhasesOf(p, run, id, inputs, assets) && i < |p.All()| && p.All()[i].request.PublishDraft?
    ensures i == |p.before| + |p.staging| + |p.checks| && p.publication != []
    ensures |p.checks| == 4 && FourLooks(p.checks, id, inputs, assets, true)
    ensures p.All()[i].request == PublishDraft(id, inputs.isPrerelease)
    ensures forall j | 0 <= j < |p.All()| && j != i && IsWrite(p.All()[j].request) ::
      p.All()[j].request.UploadAsset? && j < |p.before| + |p.staging|
  {
  }

  /** A write of the run is a guarded upload in the staging phase, or the publication. */
  predicate WriteAt(p: Phases, id: int, inputs: Inputs, j: nat)
    requires j < |p.All()|
  {
    var a, b, d := |p.before|, |p.before| + |p.staging|, |p.before| + |p.staging| + |p.checks|;
    IsWrite(p.All()[j].request) ==>
      || (a <= j < b && p.All()[j].request.UploadAsset? && p.All()[j] == p.staging[j - a]
           && UploadGuarded(p.staging, j - a, id, inputs))
      || (j == d && p.publication != [] && p.All()[j].request.PublishDraft?)
  }

  lemma WritesPlaced(p: Phases, run: Step<Evidence>, id: int, inputs: Inputs, assets: seq<LocalAsset>, j: nat)
    requires PhasesOf(p, run, id, inputs, assets) && j < |p.All()|
    ensures WriteAt(p, id, inputs, j)
  {
    var a, b, d := |p.before|, |p.before| + |p.staging|, |p.before| + |p.staging| + |p.checks|;
    var e := p.All()[j];
    assert j < a ==> e == p.before[j] && e in p.before;
    assert a <= j < b ==> e == p.staging[j - a];
    assert b <= j < d ==> e == p.checks[j - b] && e in p.checks;
    assert j == d ==> e == p.publication[0];
    assert j > d ==> e == p.publication[1..][j - d - 1] && e in p.publication[1..];
  }

  /**
   Every upload is of a validated asset that the looks at the start did not show; it comes right behind fresh reads of
   the tag and of the owned draft, and nothing happens after it before the listing has been read and found in order.
   */
  ghost predicate UploadInPlace(trace: seq<Event>, i: nat, id: int, inputs: Inputs, assets: seq<LocalAsset>)
    requires i < |trace|
  {
    && UploadGuarded(trace, i, id, inputs) && Rechecked(trace, i, id, assets, false)
    && |trace| >= 4 && FourLooks(trace[..4], id, inputs, assets, false)
    && trace[i].request.asset in assets && trace[i].request.asset.name !in Names(trace[3].reply.assets)
  }

  lemma UploadsGuarded(c: Conn, inputs: Inputs, assets: seq<LocalAsset>, imageRef: string)
    requires c.trace == []
    ensures var trace := Finalize(c, inputs, assets, imageRef).conn.trace;
      forall i | 0 <= i < |trace| && trace[i].request.UploadAsset? ::
        inputs.releaseId.Some? && UploadInPlace(trace, i, inputs.releaseId.value, inputs, assets)
  {
    hide Finalize, PhasesOf, UploadInPlace;
    if inputs.releaseId.None? {
      NoIdentifier(c, inputs, assets, imageRef);
    } else {
      var run := Finalize(c, inputs, assets, imageRef);
      var p := FinalizationPhases(c, inputs, assets, imageRef);
      assert run.conn.trace == p.All();
      forall i | 0 <= i < |p.All()| && p.All()[i].request.UploadAsset?
        ensures UploadInPlace(p.All(), i, inputs.releaseId.value, inputs, assets)
      {
        UploadPlaced(p, run, inputs.releaseId.value, inputs, assets, i);
      }
    }
  }

  lemma UploadPlaced(p: Phases, run: Step<Evidence>, id: int, inputs: Inputs, assets: seq<LocalAsset>, i: nat)
    requires PhasesOf(p, run, id, inputs, assets) && i < |p.All()| && p.All()[i].request.UploadAsset?
    ensures UploadInPlace(p.All(), i, id, inputs, assets)
  {
    hide UploadGuarded, FourLooks, PublishedAndSeen, Rechecked;
    WritesPlaced(p, run, id, inputs, assets, i);
    var k := i - |p.before|;
    assert |p.before| == 4 by {
      FourOfThem(p.before, id, inputs, assets);
    }
    GuardedAfter(p.before, p.staging, p.checks + p.publication, k, id, inputs);
    RecheckedAfter(p.before, p.staging, p.checks + p.publication, k, id, assets);
    assert p.before + p.staging + (p.checks + p.publication) == p.All();
    assert p.All()[..4] == p.before && p.All()[3] == p.before[3] && p.All()[i] == p.staging[k];
  }

  lemma FourOfThem(s: seq<Event>, id: int, inputs: Inputs, assets: seq<LocalAsset>)
    requires FourLooks(s, id, inputs, assets, false)
    ensures |s| == 4
  {
  }

  lemma GuardedAfter(a: seq<Event>, s: seq<Event>, b: seq<Event>, i: nat, id: int, inputs: Inputs)
    requires i < |s| && UploadGuarded(s, i, id, inputs)
    ensures UploadGuarded(a + s + b, |a| + i, id, inputs)
  {
    assert (a + s + b)[|a| + i] == s[i] && (a + s + b)[|a| + i - 1] == s[i - 1] && (a + s + b)[|a| + i - 2] == s[i - 2];
  }

  lemma RecheckedAfter(a: seq<Event>, s: seq<Event>, b: seq<Event>, i: nat, id: int, assets: seq<LocalAsset>)
    requires i < |s| && Rechecked(s, i, id, assets, b != [])
    ensures Rechecked(a + s + b, |a| + i, id, assets, false)
  {
    assert i + 1 < |s| ==> (a + s + b)[|a| + i + 1] == s[i + 1];
  }

  /**
   Success evidence exists only when the publication was followed by reads that showed the same release published
   and immutable, the tag unchanged, all assets equal to the validated ones, and the attestation verified.
   */
  lemma PassedIsVerified(c: Conn, inputs: Inputs, assets: seq<LocalAsset>, imageRef: string)
    requires c.trace == []
    ensures var run := Finalize(c, inputs, assets, imageRef);
      var n := |run.conn.trace|;
      run.Went? ==>
        && n >= 9 && inputs.releaseId.Some?
        && FourLooks(run.conn.trace[n - 9..n - 5], inputs.releaseId.value, inputs, assets, true)
        && PublishedAndSeen(run.conn.trace[n - 5..], inputs.releaseId.value, inputs, assets, run.value)
  {
    hide Finalize, StagingEvents, ReadsOnly;
    if inputs.releaseId.None? {
      NoIdentifier(c, inputs, assets, imageRef);
    } else {
      var run := Finalize(c, inputs, assets, imageRef);
      var p := FinalizationPhases(c, inputs, assets, imageRef);
      var n := |run.conn.trace|;
      assert run.conn.trace == p.All();
      if run.Went? {
        assert run.conn.trace[n - 5..] == p.publication;
        assert run.conn.trace[n - 9..n - 5] == p.checks;
      }
    }
  }

  /** The stage in the error message tells what cannot have happened yet. */
  lemma FailureStageHonest(c: Conn, inputs: Inputs, assets: seq<LocalAsset>, imageRef: string)
    requires c.trace == []
    ensures var run := Finalize(c, inputs, assets, imageRef);
      run.Stopped? ==>
        && (run.stage == PrepublicationChecks ==> ReadsOnly(run.conn.trace))
        && (run.stage != PublicationAndVerification ==>
          forall e | e in run.conn.trace :: !e.request.PublishDraft? && !e.request.CreateDraft?)
  {
    hide Finalize, FourLooks, PublishedAndSeen;
    if inputs.releaseId.None? {
      NoIdentifier(c, inputs, assets, imageRef);
    }
    var run := Finalize(c, inputs, assets, imageRef);
    if inputs.releaseId.Some? {
      var p := FinalizationPhases(c, inputs, assets, imageRef);
      assert run.conn.trace == p.All();
      if run.Stopped? && run.stage != PublicationAndVerification {
        assert p.All() == p.before + p.staging + p.checks;
        forall e | e in p.All()
          ensures !e.request.PublishDraft? && !e.request.CreateDraft?
        {
          if e in p.staging {
            var k :| 0 <= k < |p.staging| && p.staging[k] == e;
          }
        }
      }
    }
  }

  /**
   Preparation creates at most one draft, and only behind looks at an enabled policy, the tag, and no release for
   it.
   */
  lemma CreationGuarded(c: Conn, inputs: Inputs)
    requires c.trace == []
    ensures var trace := Prepare(c, inputs).conn.trace;
      forall i | 0 <= i < |trace| && IsWrite(trace[i].request) :: BehindThreeLooks(trace, i, inputs)
  {
    hide Perform, Issue, AdoptOrCreate;
    var stage := PrepublicationChecks;
    var s := ReadGrows([], [], c, ReadPolicy);
    var step1 := AssertImmutablePolicy(c, stage);
    if step1.Went? {
      assert SawPolicy(s[0]);
      s := ReadGrows([], s, step1.conn, ReadTag);
      var step2 := ResolveTag(step1.conn, inputs, stage);
      if step2.Went? {
        assert SawTag(s[1], inputs);
        s := ReadGrows([], s, step2.conn, FindReleases(inputs.releaseTag));
        var step3 := FindByTag(step2.conn, inputs, stage);
        if step3.Went? && |step3.value| <= 1 {
          assert |step3.value| == 0 ==> SawNoRelease(s[2], inputs);
          PreparationTail(step3.conn, step3.value, inputs, s);
        }
      }
    }
  }

  predicate BehindThreeLooks(trace: seq<Event>, i: int, inputs: Inputs)
    requires 0 <= i < |trace|
  {
    && i == 3 && trace[3].request == CreateDraft(inputs)
    && SawPolicy(trace[0]) && SawTag(trace[1], inputs) && SawNoRelease(trace[2], inputs)
  }

  /** The only write is a creation right behind the events so far, and only when no release was found. */
  predicate CreatesAtMost(trace: seq<Event>, s: seq<Event>, found: seq<Release>, inputs: Inputs) {
    && s <= trace
    && forall i | 0 <= i < |trace| && IsWrite(trace[i].request) ::
       found == [] && i == |s| && trace[i].request == CreateDraft(inputs)
  }

  lemma PreparationTail(c: Conn, found: seq<Release>, inputs: Inputs, s: seq<Event>)
    requires c.trace == s && |found| <= 1 && ReadsOnly(s)
    ensures var run := AdoptOrCreate(c, found, inputs);
      CreatesAtMost(run.conn.trace, s, found, inputs) && (run.Went? ==> Confirmed(run.conn.trace, run.value, inputs))
  {
    hide Perform, ConfirmDraft, SawTag, SawOwned;
    var run := AdoptOrCreate(c, found, inputs);
    if |found| == 1 {
      var looks := DraftConfirmed(c, found[0], inputs, true);
      assert run.conn.trace == s + looks;
    } else {
      var s' := CallGrows(s, [], c, CreateDraft(inputs));
      var step := Create(c, inputs, PrepublicationChecks);
      if step.Went? {
        var looks := DraftConfirmed(step.conn, step.value, inputs, false);
        assert run.conn.trace == s + s' + looks && |s'| == 1;
        assert forall k | |s| < k < |run.conn.trace| :: run.conn.trace[k] in looks;
        assert IsWrite(run.conn.trace[|s|].request);
      }
    }
  }

  /**
   The run ended with reads of the tag and of the owned draft it reports, and wrote nothing exactly when it adopted
   that draft.
   */
  predicate Confirmed(trace: seq<Event>, value: Preparation, inputs: Inputs) {
    && |trace| >= 2
    && SawTag(trace[|trace| - 2], inputs)
    && SawOwned(trace[|trace| - 1], value.releaseId, inputs.(releaseId := Some(value.releaseId)), false)
    && value.sourceRevision == inputs.revision
    && (value.reusedDraft <==> ReadsOnly(trace))
  }

  /** A preparation that succeeds has read, after anything it wrote, the tag in place and the owned draft it reports. */
  lemma PreparedIsConfirmed(c: Conn, inputs: Inputs)
    requires c.trace == []
    ensures var run := Prepare(c, inputs); run.Went? ==> Confirmed(run.conn.trace, run.value, inputs)
  {
    hide Perform, Issue, AdoptOrCreate, Confirmed;
    var stage := PrepublicationChecks;
    var s := ReadGrows([], [], c, ReadPolicy);
    var step1 := AssertImmutablePolicy(c, stage);
    if step1.Went? {
      s := ReadGrows([], s, step1.conn, ReadTag);
      var step2 := ResolveTag(step1.conn, inputs, stage);
      if step2.Went? {
        s := ReadGrows([], s, step2.conn, FindReleases(inputs.releaseTag));
        var step3 := FindByTag(step2.conn, inputs, stage);
        if step3.Went? && |step3.value| <= 1 {
          PreparationTail(step3.conn, step3.value, inputs, s);
        }
      }
    }
  }

  lemma DraftConfirmed(c: Conn, release: Release, inputs: Inputs, reused: bool) returns (looks: seq<Event>)
    ensures var run := ConfirmDraft(c, release, inputs, reused);
      && Grown(c.trace, looks, run.conn) && ReadsOnly(looks)
      && (run.Went? ==>
        && run.value == Preparation(release.id, inputs.revision, reused)
        && |looks| == 2 && SawTag(looks[0], inputs)
           && SawOwned(looks[1], release.id, inputs.(releaseId := Some(release.id)), false))
  {
    hide Perform, Issue;
    var stage := PrepublicationChecks;
    looks := [];
    if Owned(release, inputs, false) {
      looks := ReadGrows(c.trace, [], c, ReadTag);
      var step := ResolveTag(c, inputs, stage);
      if step.Went? {
        looks := ReadGrows(c.trace, looks, step.conn, ReadRelease(release.id));
      }
    }
  }
}
