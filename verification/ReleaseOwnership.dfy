/**
 Whose release it is, said of its fields: what the runs read in front of every write, what they leave alone, and which
 drafts a preparation adopts.
 */
module ReleaseOwnership {
  import opened Common
  import opened ReleasePolicy
  import opened ReleaseRemote
  import opened ReleaseService
  import opened ReleaseSafety
  import opened ReleaseCampaign
  import opened ReleaseRecovery
  import opened ReleaseAnyHost
  import opened ReleaseCompletion

  /**
   The release has the tag, the commit and the prerelease flag of the inputs, and exactly one ownership comment: for the
   repository in lower case, the tag and the commit.
   */
  ghost predicate Ascribed(r: Release, inputs: Inputs) {
    && r.id > 0 && r.tagName == inputs.releaseTag && r.target == inputs.revision && r.prerelease == inputs.isPrerelease
    && |r.markers| == 1 && r.markers[0].Some?
    && LowerCased(inputs.repository, r.markers[0].value.repository)
    && r.markers[0].value.releaseTag == inputs.releaseTag && r.markers[0].value.revision == inputs.revision
  }

  lemma AscribedExact(r: Release, inputs: Inputs, published: bool)
    ensures Owned(r, inputs, published) <==>
      && Ascribed(r, inputs) && r.draft == !published && (inputs.releaseId.Some? ==> r.id == inputs.releaseId.value)
      && (published ==> r.immutable && r.publishedAt.Some? && r.publishedAt.value.readable)
  {
    if Ascribed(r, inputs) {
      LowerCaseExact(inputs.repository, r.markers[0].value.repository);
      assert r.markers == [r.markers[0]];
    }
  }

  // ----- In front of every write -----

  /** The client was told of this release, as it stood on the host, just before. */
  ghost predicate ReadAscribed(e: Event, id: int, inputs: Inputs, draft: bool) {
    && e.request == ReadRelease(id) && e.heard && e.reply.ReleaseIs?
    && e.reply.release.id == id && e.reply.release.draft == draft && Ascribed(e.reply.release, inputs)
  }

  /** This upload or publication is for the release of the inputs, read right before it or right before its listing. */
  ghost predicate WriteFollows(trace: seq<Event>, i: nat, inputs: Inputs)
    requires i < |trace|
  {
    && inputs.releaseId.Some? && (trace[i].request.UploadAsset? || trace[i].request.PublishDraft?)
    && trace[i].request.id == inputs.releaseId.value
    && var k := if trace[i].request.UploadAsset? then i - 1 else i - 2;
       0 <= k < |trace| && ReadAscribed(trace[k], inputs.releaseId.value, inputs, true)
  }

  /**
   Whatever others do between calls: the release read directly in front of every upload, and two calls in front of the
   publication, is an unpublished one ascribed to the inputs.
   */
  lemma WritesFollowAscribed(c: Conn, inputs: Inputs, assets: seq<LocalAsset>, imageRef: string)
    requires c.trace == []
    ensures var trace := Finalize(c, inputs, assets, imageRef).conn.trace;
      forall i | 0 <= i < |trace| && IsWrite(trace[i].request) :: WriteFollows(trace, i, inputs)
  {
    UploadsGuarded(c, inputs, assets, imageRef);
    PublicationGuarded(c, inputs, assets, imageRef);
    NoCreation(c, inputs, assets, imageRef);
    hide Finalize, Ascribed, Owned, Rechecked, UploadInPlace, BehindFourLooks, WriteFollows;
    var trace := Finalize(c, inputs, assets, imageRef).conn.trace;
    forall i | 0 <= i < |trace| && IsWrite(trace[i].request)
      ensures WriteFollows(trace, i, inputs)
    {
      assert trace[i] in trace;
      if trace[i].request.UploadAsset? {
        UploadFollows(trace, i, inputs, assets);
      } else {
        PublicationFollows(trace, i, inputs, assets);
      }
    }
  }

  lemma UploadFollows(trace: seq<Event>, i: nat, inputs: Inputs, assets: seq<LocalAsset>)
    requires i < |trace| && inputs.releaseId.Some? && trace[i].request.UploadAsset?
    requires UploadInPlace(trace, i, inputs.releaseId.value, inputs, assets)
    ensures WriteFollows(trace, i, inputs)
  {
    hide Ascribed, Owned, Rechecked, FourLooks;
    AscribedExact(trace[i - 1].reply.release, inputs, false);
  }

  lemma PublicationFollows(trace: seq<Event>, i: nat, inputs: Inputs, assets: seq<LocalAsset>)
    requires i < |trace| && trace[i].request.PublishDraft? && BehindFourLooks(trace, i, inputs, assets)
    ensures WriteFollows(trace, i, inputs)
  {
    hide Ascribed, Owned;
    assert trace[i - 2] == trace[i - 4..i][2];
    AscribedExact(trace[i - 2].reply.release, inputs, false);
  }

  lemma NoCreation(c: Conn, inputs: Inputs, assets: seq<LocalAsset>, imageRef: string)
    requires c.trace == []
    ensures forall e | e in Finalize(c, inputs, assets, imageRef).conn.trace :: !e.request.CreateDraft?
  {
    hide Finalize, PhasesOf, FourLooks, PublishedAndSeen;
    if inputs.releaseId.None? {
      NoIdentifier(c, inputs, assets, imageRef);
    } else {
      var run := Finalize(c, inputs, assets, imageRef);
      var p := FinalizationPhases(c, inputs, assets, imageRef);
      assert run.conn.trace == p.All();
      forall i | 0 <= i < |p.All()|
        ensures !p.All()[i].request.CreateDraft?
      {
        WritesPlaced(p, run, inputs.releaseId.value, inputs, assets, i);
      }
    }
  }

  /** A preparation that succeeds has last read the release that it reports: a draft ascribed to the inputs. */
  lemma PreparedIsAscribed(c: Conn, inputs: Inputs)
    requires c.trace == []
    ensures var run := Prepare(c, inputs);
      run.Went? ==>
        && run.conn.trace != []
        && ReadAscribed(run.conn.trace[|run.conn.trace| - 1], run.value.releaseId, inputs, true)
  {
    hide Prepare, Owned, Ascribed;
    PreparedIsConfirmed(c, inputs);
    var run := Prepare(c, inputs);
    if run.Went? {
      var r := run.conn.trace[|run.conn.trace| - 1].reply.release;
      AscribedExact(r, inputs.(releaseId := Some(run.value.releaseId)), false);
      SameAscription(r, inputs, Some(run.value.releaseId));
    }
  }

  lemma SameAscription(r: Release, inputs: Inputs, id: Option<int>)
    ensures Ascribed(r, inputs.(releaseId := id)) <==> Ascribed(r, inputs)
  {
  }

  /** Success evidence is about a release read published and immutable, at the time in the evidence, and ascribed. */
  lemma PassedIsAscribed(c: Conn, inputs: Inputs, assets: seq<LocalAsset>, imageRef: string)
    requires c.trace == []
    ensures var run := Finalize(c, inputs, assets, imageRef);
      run.Went? ==>
        && |run.conn.trace| >= 4 && inputs.releaseId.Some?
        && var e := run.conn.trace[|run.conn.trace| - 4];
        && ReadAscribed(e, inputs.releaseId.value, inputs, false) && e.reply.release.immutable
        && e.reply.release.publishedAt == Some(run.value.publishedAt) && run.value.publishedAt.readable
  {
    hide Finalize, Ascribed, Owned, FourLooks;
    PassedIsVerified(c, inputs, assets, imageRef);
    var run := Finalize(c, inputs, assets, imageRef);
    var n := |run.conn.trace|;
    if run.Went? {
      assert run.conn.trace[n - 4] == run.conn.trace[n - 5..][1..][0];
      AscribedExact(run.conn.trace[n - 4].reply.release, inputs, true);
    }
  }

  // ----- What stays as it is -----

  /** Over any cut-off runs on any host, a release that is published or not ascribed to the job is left as it was. */
  lemma OthersUntouched(w0: World, job: Job, runs: seq<Run>, k: nat)
    requires Proper(job) && QuietRuns(runs) && k < |w0.releases|
    requires !w0.releases[k].draft || !Ascribed(w0.releases[k], job.inputs)
    ensures var w := Campaign(Conn(w0, [], []), job, runs).world;
      k < |w.releases| && w.releases[k] == w0.releases[k]
  {
    hide Campaign, Ascribed, Owned;
    AscribedExact(w0.releases[k], job.inputs, false);
    AnyHostKept(w0, job, runs);
  }

  // ----- Preparing on any host -----

  /** Exactly one release has the tag, it is an unpublished one ascribed to the job, and its identifier addresses it. */
  ghost predicate Adoptable(w: World, job: Job, r: Release) {
    && WithTag(w.releases, job.inputs.releaseTag) == [r] && r.draft && Ascribed(r, job.inputs)
    && exists k: nat :: k < |w.releases| && Position(w.releases, r.id) == Some(k) && w.releases[k] == r
  }

  /** No release has the tag, and the next identifier is positive and not in use. */
  predicate Creatable(w: World, job: Job) {
    WithTag(w.releases, job.inputs.releaseTag) == [] && 0 < w.nextId && forall r | r in w.releases :: r.id != w.nextId
  }

  lemma OneOfTag(w: World, tag: string, r: Release)
    requires WithTag(w.releases, tag) == [r]
    ensures r in w.releases && r.tagName == tag
    ensures forall d | d in w.releases && d.tagName == tag :: d == r
  {
    assert r in WithTag(w.releases, tag);
    forall d | d in w.releases && d.tagName == tag
      ensures d == r
    {
      assert d in WithTag(w.releases, tag);
    }
  }

  lemma {:induction false} PositionBehind(releases: seq<Release>, r: Release)
    requires forall d | d in releases :: d.id != r.id
    ensures Position(releases + [r], r.id) == Some(|releases|)
  {
    if releases != [] {
      assert (releases + [r])[1..] == releases[1..] + [r];
      PositionBehind(releases[1..], r);
    }
  }

  // What confirms a release: the tag in place, and the identifier addressing an unpublished release of the job.
  lemma ConfirmExact(c: Conn, r: Release, job: Job, reused: bool)
    requires Undisturbed(c, 2) && job.inputs.releaseId.None?
    ensures var run := ConfirmDraft(c, r, job.inputs, reused);
      && (run.Went? <==>
        && r.draft && Ascribed(r, job.inputs) && c.world.tagCommit == Some(job.inputs.revision)
        && Position(c.world.releases, r.id).Some?
        && var d := c.world.releases[Position(c.world.releases, r.id).value];
           d.draft && Ascribed(d, job.inputs))
      && Unwritten(c, run.conn)
      && (run.Went? ==> run.value == Preparation(r.id, job.inputs.revision, reused))
  {
    hide Issue, Ascribed, Owned;
    var inputs := job.inputs.(releaseId := Some(r.id));
    AscribedExact(r, job.inputs, false);
    SteadyIsQuiet(c.script, 2);
    ConfirmDraftReads(c, r, job.inputs, reused);
    if r.draft && Ascribed(r, job.inputs) {
      SteadyRead(c, ReadTag, 2);
      var step := ResolveTag(c, job.inputs, PrepublicationChecks);
      if step.Went? {
        SteadyRead(step.conn, ReadRelease(r.id), 1);
        var p := Position(c.world.releases, r.id);
        if p.Some? {
          AscribedExact(c.world.releases[p.value], inputs, false);
          SameAscription(c.world.releases[p.value], job.inputs, Some(r.id));
        }
      }
    }
  }

  lemma NewDraftAscribed(w: World, inputs: Inputs)
    ensures var d := NewDraft(w, inputs);
      d.draft && d.tagName == inputs.releaseTag && (Ascribed(d, inputs) <==> 0 < w.nextId)
  {
    hide Ascribed;
    AscribedExact(NewDraft(w, inputs), inputs.(releaseId := None), false);
    SameAscription(NewDraft(w, inputs), inputs, None);
  }

  lemma AdoptExact(c: Conn, job: Job, r: Release)
    requires Undisturbed(c, 3) && job.inputs.releaseId.None? && c.world.tagCommit == Some(job.inputs.revision)
    requires WithTag(c.world.releases, job.inputs.releaseTag) == [r]
    ensures var run := AdoptOrCreate(c, [r], job.inputs);
      && (run.Went? <==> Adoptable(c.world, job, r)) && Unwritten(c, run.conn)
      && (run.Went? ==> run.value == Preparation(r.id, job.inputs.revision, true))
  {
    hide Ascribed, Issue, WithTag, ConfirmDraft;
    OneOfTag(c.world, job.inputs.releaseTag, r);
    ConfirmExact(c, r, job, true);
    var p := Position(c.world.releases, r.id);
    if p.Some? {
      var d := c.world.releases[p.value];
      AscribedTag(d, job.inputs);
    }
  }

  lemma AscribedTag(r: Release, inputs: Inputs)
    ensures Ascribed(r, inputs) ==> r.tagName == inputs.releaseTag
  {
  }

  lemma CreateExact(c: Conn, job: Job)
    requires Undisturbed(c, 3) && job.inputs.releaseId.None? && c.world.tagCommit == Some(job.inputs.revision)
    requires WithTag(c.world.releases, job.inputs.releaseTag) == []
    ensures var run := AdoptOrCreate(c, [], job.inputs);
      && (run.Went? <==> Creatable(c.world, job))
      && (run.Went? ==> run.value == Preparation(c.world.nextId, job.inputs.revision, false))
      && WriteLog(run.conn.trace) == WriteLog(c.trace) + [CreateDraft(job.inputs)]
  {
    hide Ascribed, Issue, WithTag, ConfirmDraft, WriteLog, NewDraft;
    var w, d := c.world, NewDraft(c.world, job.inputs);
    SteadyWrite(c, CreateDraft(job.inputs), 3);
    var step := Create(c, job.inputs, PrepublicationChecks);
    ConfirmExact(step.conn, d, job, false);
    NewDraftAscribed(w, job.inputs);
    NewDraftNumber(w, job.inputs);
    if forall r | r in w.releases :: r.id != w.nextId {
      PositionBehind(w.releases, d);
    } else {
      var r :| r in w.releases && r.id == w.nextId;
      TakenNumber(w.releases, d, r);
      var earlier := w.releases[Position(w.releases + [d], d.id).value];
      AscribedTag(earlier, job.inputs);
      NoneOfTag(w, job.inputs.releaseTag);
    }
  }

  lemma NoneOfTag(w: World, tag: string)
    requires WithTag(w.releases, tag) == []
    ensures forall d | d in w.releases :: d.tagName != tag
  {
    forall d | d in w.releases
      ensures d.tagName != tag
    {
      assert d.tagName == tag ==> d in WithTag(w.releases, tag);
    }
  }

  lemma NewDraftNumber(w: World, inputs: Inputs)
    ensures NewDraft(w, inputs).id == w.nextId
  {
  }

  lemma {:induction false} TakenNumber(releases: seq<Release>, d: Release, r: Release)
    requires r in releases && r.id == d.id
    ensures var p := Position(releases + [d], d.id); p.Some? && p.value < |releases|
  {
    assert (releases + [d])[0] == releases[0];
    if releases[0].id != d.id {
      assert (releases + [d])[1..] == releases[1..] + [d];
      TakenNumber(releases[1..], d, r);
    }
  }

  /**
   On any host an undisturbed preparation succeeds if and only if the policy is on, the tag in place, the listing short
   enough, and the release of the tag can be adopted or, where there is none, created; it adopts without writing.
   */
  lemma PrepareExact(c: Conn, job: Job)
    requires Undisturbed(c, 6) && job.inputs.releaseId.None?
    ensures var run := Prepare(c, job.inputs);
      && (run.Went? <==>
        && c.world.immutablePolicy && c.world.tagCommit == Some(job.inputs.revision) && |c.world.releases| < 500
        && (Creatable(c.world, job) || exists r :: Adoptable(c.world, job, r)))
      && (forall r | run.Went? && Adoptable(c.world, job, r) ::
            run.value == Preparation(r.id, job.inputs.revision, true))
      && (WithTag(c.world.releases, job.inputs.releaseTag) != [] ==> Unwritten(c, run.conn))
      && (run.Went? && Creatable(c.world, job) ==>
        && run.value == Preparation(c.world.nextId, job.inputs.revision, false)
        && WriteLog(run.conn.trace) == WriteLog(c.trace) + [CreateDraft(job.inputs)])
  {
    hide Issue, AdoptOrCreate, Ascribed, WithTag, WriteLog, Position;
    var stage, w := PrepublicationChecks, c.world;
    SteadyIsQuiet(c.script, 6);
    SteadyRead(c, ReadPolicy, 6);
    var step1 := AssertImmutablePolicy(c, stage);
    if step1.Went? {
      SteadyRead(step1.conn, ReadTag, 5);
      var step2 := ResolveTag(step1.conn, job.inputs, stage);
      if step2.Went? {
        SteadyRead(step2.conn, FindReleases(job.inputs.releaseTag), 4);
        var step3 := FindByTag(step2.conn, job.inputs, stage);
        if step3.Went? {
          var found := WithTag(w.releases, job.inputs.releaseTag);
          if found == [] {
            CreateExact(step3.conn, job);
          } else if |found| == 1 {
            assert found == [found[0]];
            AdoptExact(step3.conn, job, found[0]);
          }
        }
      }
    }
  }

  /** A draft that somebody else made for the tag is not adopted: preparation stops, and has written nothing. */
  lemma ForeignDraftStops(c: Conn, job: Job, r: Release)
    requires Undisturbed(c, 6) && job.inputs.releaseId.None?
    requires WithTag(c.world.releases, job.inputs.releaseTag) == [r]
    requires r.markers != [Some(Marker(ToLower(job.inputs.repository), job.inputs.releaseTag, job.inputs.revision))]
    ensures var run := Prepare(c, job.inputs); run.Stopped? && Unwritten(c, run.conn)
  {
    PrepareExact(c, job);
    NotAscribed(r, job.inputs);
    hide Prepare, Position, Ascribed;
  }

  lemma NotAscribed(r: Release, inputs: Inputs)
    requires r.markers != [Some(Marker(ToLower(inputs.repository), inputs.releaseTag, inputs.revision))]
    ensures !Ascribed(r, inputs)
  {
    AscribedMarker(r, inputs);
  }

  lemma AscribedMarker(r: Release, inputs: Inputs)
    ensures Ascribed(r, inputs) ==>
      r.markers == [Some(Marker(ToLower(inputs.repository), inputs.releaseTag, inputs.revision))]
  {
    if Ascribed(r, inputs) {
      LowerCaseExact(inputs.repository, r.markers[0].value.repository);
    }
  }
}
