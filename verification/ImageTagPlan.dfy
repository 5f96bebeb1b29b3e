/** Which image tags a release may move: scripts/release-image-tag-plan.js. */
module ImageTagPlan {
  import opened Common

  datatype Registry = Ghcr | DockerHub

  /** One registry of the plan: the digest reference to copy from, and the tags to move. */
  datatype Source = Source(registry: Registry, imageName: string, source: string, targets: seq<string>)

  /** A digest reference `name@digest`. */
  datatype ImageRef = ImageRef(imageName: string, digest: string)

  datatype Plan = Plan(
    repository: string,
    releaseTag: string,
    revision: string,
    imageRef: ImageRef,
    digest: string,
    isPrerelease: bool,
    sources: seq<Source>)

  datatype Options = Options(
    owner: string,
    name: string,
    releaseTag: string,
    revision: string,
    dockerHub: Option<DockerHubName>,
    imageRef: ImageRef)

  /** An image name `namespace/repository`. */
  datatype DockerHubName = DockerHubName(ns: string, repository: string) {
    function Text(): string {
      ns + "/" + repository
    }
  }

  // ----- Character classes of the validating patterns -----

  predicate Lower(c: char) {
    'a' <= c <= 'z' || '0' <= c <= '9'
  }

  predicate Alphanumeric(c: char) {
    Lower(c) || 'A' <= c <= 'Z'
  }

  predicate Separator(c: char) {
    c == '.' || c == '_' || c == '-'
  }

  predicate Segment(s: string, limit: nat) {
    1 <= |s| <= limit && Alphanumeric(s[0]) && forall c | c in s :: Alphanumeric(c) || Separator(c)
  }

  predicate Contains(s: string, part: string) {
    exists i | 0 <= i <= |s| :: part <= s[i..]
  }

  predicate ReleaseTag(s: string) {
    Segment(s, 128) && !Contains(s, "..")
  }

  predicate NamespaceName(s: string) {
    1 <= |s| <= 100 && Lower(s[0]) && (forall c | c in s :: Lower(c) || c == '_' || c == '-') && s != "localhost"
  }

  /** Groups of lower-case letters and digits with single separators between them. */
  predicate RepositoryName(s: string) {
    && s != [] && Lower(s[0]) && Lower(s[|s| - 1])
    && forall i | 0 <= i < |s| - 1 :: (Lower(s[i]) || Separator(s[i])) && (Separator(s[i]) ==> Lower(s[i + 1]))
  }

  predicate DockerHubNameValid(n: DockerHubName) {
    NamespaceName(n.ns) && RepositoryName(n.repository) && |n.Text()| <= 201
  }

  predicate ImageTag(s: string) {
    1 <= |s| <= 128 && (Alphanumeric(s[0]) || s[0] == '_') && forall c | c in s :: Alphanumeric(c) || Separator(c)
  }

  predicate Digest(s: string) {
    |s| == 71 && s[..7] == "sha256:" && Hex(s[7..], 64)
  }

  // ----- The plan -----

  function Version(releaseTag: string): string {
    if releaseTag != "" && releaseTag[0] == 'v' then releaseTag[1..] else releaseTag
  }

  function GhcrName(owner: string, name: string): string {
    "ghcr.io/" + ToLower(owner) + "/" + ToLower(name)
  }

  function Aliases(releaseTag: string): seq<string> {
    var version := Version(releaseTag);
    Dedup([version, releaseTag] + if '-' in version then [] else ["latest"])
  }

  function TargetsOf(imageName: string, aliases: seq<string>): (targets: seq<string>)
    ensures |targets| == |aliases|
    ensures forall i | 0 <= i < |aliases| :: targets[i] == imageName + ":" + aliases[i]
  {
    seq(|aliases|, i requires 0 <= i < |aliases| => imageName + ":" + aliases[i])
  }

  function SourceFor(registry: Registry, imageName: string, digest: string, aliases: seq<string>): Source {
    Source(registry, imageName, imageName + "@" + digest, TargetsOf(imageName, aliases))
  }

  predicate Accepted(o: Options) {
    && Segment(o.owner, 100) && Segment(o.name, 100) && ReleaseTag(o.releaseTag) && Hex(o.revision, 40)
    && (o.dockerHub.Some? ==> DockerHubNameValid(o.dockerHub.value))
    && (forall alias | alias in Aliases(o.releaseTag) :: ImageTag(alias))
    && o.imageRef.imageName == GhcrName(o.owner, o.name) && Digest(o.imageRef.digest)
  }

  function CreateReleaseImagePromotionPlan(o: Options): Result<Plan> {
    if !Accepted(o) then Rejected
    else
      var aliases, digest := Aliases(o.releaseTag), o.imageRef.digest;
      var sources := [SourceFor(Ghcr, GhcrName(o.owner, o.name), digest, aliases)]
        + (if o.dockerHub.Some? then [SourceFor(DockerHub, o.dockerHub.value.Text(), digest, aliases)] else []);
      var isPrerelease := '-' in Version(o.releaseTag);
      Ok(Plan(o.owner + "/" + o.name, o.releaseTag, o.revision, o.imageRef, digest, isPrerelease, sources))
  }

  // ----- What a plan may touch -----

  function AllTargets(sources: seq<Source>): seq<string> {
    if sources == [] then [] else AllTargets(sources[..|sources| - 1]) + sources[|sources| - 1].targets
  }

  /** Every target is named once, and writing it cannot change anything that is copied from. */
  ghost predicate Sound(plan: Plan) {
    && Distinct(AllTargets(plan.sources))
    && forall s | s in plan.sources :: s.source !in AllTargets(plan.sources)
  }

  lemma TargetsDistinct(imageName: string, aliases: seq<string>)
    requires Distinct(aliases)
    ensures Distinct(TargetsOf(imageName, aliases))
  {
    var targets := TargetsOf(imageName, aliases);
    forall i, j | 0 <= i < j < |targets|
      ensures targets[i] != targets[j]
    {
      var n := |imageName + ":"|;
      assert targets[i][n..] == aliases[i] && targets[j][n..] == aliases[j];
    }
  }

  // A GHCR name has a dot in front of its first slash, a Docker Hub name has none.
  lemma RegistriesApart(owner: string, name: string, hub: DockerHubName, a: string, b: string)
    requires DockerHubNameValid(hub)
    ensures GhcrName(owner, name) + a != hub.Text() + b
  {
    var left, right := GhcrName(owner, name) + a, hub.Text() + b;
    assert left[..5] == "ghcr.";
    assert right == hub.ns + ("/" + hub.repository + b);
    if |hub.ns| <= 4 {
      assert right[|hub.ns|] == '/';
      assert left[|hub.ns|] == left[..5][|hub.ns|];
    } else {
      assert right[4] == hub.ns[4];
      assert left[4] == left[..5][4] == '.';
      assert hub.ns[4] in hub.ns;
    }
  }

  // A colon follows the image name in a tag, an at sign in a digest reference.
  lemma SourceIsNoTarget(imageName: string, digest: string, aliases: seq<string>)
    ensures imageName + "@" + digest !in TargetsOf(imageName, aliases)
  {
    forall i | 0 <= i < |aliases|
      ensures imageName + "@" + digest != TargetsOf(imageName, aliases)[i]
    {
      assert (imageName + "@" + digest)[|imageName|] == '@';
      assert TargetsOf(imageName, aliases)[i][|imageName|] == ':';
    }
  }

  lemma OneSourceTargets(s: Source)
    ensures AllTargets([s]) == s.targets
  {
  }

  lemma TwoSourcesTargets(s: Source, t: Source)
    ensures AllTargets([s, t]) == s.targets + t.targets
  {
    OneSourceTargets(s);
    assert [s, t][..1] == [s];
  }

  lemma JoinDistinct<T>(a: seq<T>, b: seq<T>)
    requires Distinct(a) && Distinct(b) && forall x | x in a :: x !in b
    ensures Distinct(a + b)
  {
    forall i, j | 0 <= i < j < |a + b|
      ensures (a + b)[i] != (a + b)[j]
    {
      if i < |a| <= j {
        assert a[i] in a && b[j - |a|] in b;
      }
    }
  }

  // No reference into the one registry is a reference into the other.
  lemma NothingShared(owner: string, name: string, hub: DockerHubName, digest: string, aliases: seq<string>)
    requires DockerHubNameValid(hub)
    ensures var first := SourceFor(Ghcr, GhcrName(owner, name), digest, aliases);
      var second := SourceFor(DockerHub, hub.Text(), digest, aliases);
      && (forall x | x in first.targets :: x !in second.targets)
      && first.source !in second.targets && second.source !in first.targets
  {
    hide GhcrName, DockerHubName.Text, DockerHubNameValid;
    var ghcr := GhcrName(owner, name);
    forall i, j | 0 <= i < |aliases| && 0 <= j < |aliases|
      ensures TargetsOf(ghcr, aliases)[i] != TargetsOf(hub.Text(), aliases)[j]
    {
      RegistriesApart(owner, name, hub, ":" + aliases[i], ":" + aliases[j]);
      Grouped(ghcr, ":", aliases[i]);
      Grouped(hub.Text(), ":", aliases[j]);
    }
    forall i | 0 <= i < |aliases|
      ensures TargetsOf(ghcr, aliases)[i] != hub.Text() + "@" + digest
        && TargetsOf(hub.Text(), aliases)[i] != ghcr + "@" + digest
    {
      RegistriesApart(owner, name, hub, ":" + aliases[i], "@" + digest);
      RegistriesApart(owner, name, hub, "@" + digest, ":" + aliases[i]);
      Grouped(ghcr, ":", aliases[i]);
      Grouped(hub.Text(), ":", aliases[i]);
      Grouped(ghcr, "@", digest);
      Grouped(hub.Text(), "@", digest);
    }
  }

  lemma Grouped(a: string, b: string, c: string)
    ensures a + b + c == a + (b + c)
  {
  }

  /** Planned targets are pairwise distinct, in one registry and across both, and none is a source. */
  lemma PlansAreSound(o: Options)
    requires CreateReleaseImagePromotionPlan(o).Ok?
    ensures Sound(CreateReleaseImagePromotionPlan(o).value)
  {
    hide GhcrName, DockerHubName.Text, Aliases, TargetsOf, ImageTag;
    hide Segment, ReleaseTag, DockerHubNameValid, Hex, Digest, Version;
    var plan := CreateReleaseImagePromotionPlan(o).value;
    var aliases, digest, ghcr := Aliases(o.releaseTag), o.imageRef.digest, GhcrName(o.owner, o.name);
    assert Distinct(aliases) by {
      AliasesDistinct(o.releaseTag);
    }
    var first := SourceFor(Ghcr, ghcr, digest, aliases);
    TargetsDistinct(ghcr, aliases);
    SourceIsNoTarget(ghcr, digest, aliases);
    if o.dockerHub.Some? {
      var hub := o.dockerHub.value;
      var second := SourceFor(DockerHub, hub.Text(), digest, aliases);
      TargetsDistinct(hub.Text(), aliases);
      SourceIsNoTarget(hub.Text(), digest, aliases);
      NothingShared(o.owner, o.name, hub, digest, aliases);
      assert plan.sources == [first, second];
      TwoSourcesTargets(first, second);
      JoinDistinct(first.targets, second.targets);
    } else {
      assert plan.sources == [first];
      OneSourceTargets(first);
    }
  }

  lemma AliasesDistinct(releaseTag: string)
    ensures Distinct(Aliases(releaseTag))
  {
  }

  /** A stable release moves `latest`, a prerelease never does. */
  lemma LatestExact(o: Options, s: Source)
    requires CreateReleaseImagePromotionPlan(o).Ok? && s in CreateReleaseImagePromotionPlan(o).value.sources
    ensures s.imageName + ":" + "latest" in s.targets <==> !CreateReleaseImagePromotionPlan(o).value.isPrerelease
  {
    hide GhcrName, DockerHubName.Text, Accepted;
    var aliases := Aliases(o.releaseTag);
    assert s.targets == TargetsOf(s.imageName, aliases);
    var prefix := s.imageName + ":";
    forall i | 0 <= i < |aliases|
      ensures s.targets[i] == prefix + "latest" <==> aliases[i] == "latest"
    {
      assert s.targets[i][|prefix|..] == aliases[i];
      assert (prefix + "latest")[|prefix|..] == "latest";
    }
    assert '-' in Version(o.releaseTag) ==> '-' in o.releaseTag;
    assert forall c | c in "latest" :: c != '-';
    assert "latest" in aliases <==> '-' !in Version(o.releaseTag);
  }

  // ----- Exactly which tags -----

  /** The tags of an image that an accepted release moves: its own, that without a leading v, and `latest` if stable. */
  predicate Planned(imageName: string, releaseTag: string, target: string) {
    || target == imageName + ":" + releaseTag
    || (releaseTag != "" && releaseTag[0] == 'v' && target == imageName + ":" + releaseTag[1..])
    || ('-' !in releaseTag && target == imageName + ":" + "latest")
  }

  lemma AliasExact(releaseTag: string, alias: string)
    ensures alias in Aliases(releaseTag) <==>
      || alias == releaseTag
      || (releaseTag != "" && releaseTag[0] == 'v' && alias == releaseTag[1..])
      || ('-' !in releaseTag && alias == "latest")
  {
    StableExact(releaseTag);
  }

  lemma StableExact(releaseTag: string)
    ensures '-' in Version(releaseTag) <==> '-' in releaseTag
  {
    if releaseTag != "" {
      assert releaseTag == [releaseTag[0]] + releaseTag[1..];
    }
  }

  /** Exactly these tags are planned, for every image of an accepted plan. */
  lemma TargetsExact(o: Options, s: Source, target: string)
    requires CreateReleaseImagePromotionPlan(o).Ok? && s in CreateReleaseImagePromotionPlan(o).value.sources
    ensures target in s.targets <==> Planned(s.imageName, o.releaseTag, target)
    ensures CreateReleaseImagePromotionPlan(o).value.isPrerelease <==> '-' in o.releaseTag
  {
    StableExact(o.releaseTag);
    assert s.targets == TargetsOf(s.imageName, Aliases(o.releaseTag)) by {
      hide GhcrName, DockerHubName.Text, Accepted, Aliases, TargetsOf;
    }
    hide *;
    AliasTargets(s.imageName, o.releaseTag, target);
  }

  lemma AliasTargets(imageName: string, releaseTag: string, target: string)
    ensures target in TargetsOf(imageName, Aliases(releaseTag)) <==> Planned(imageName, releaseTag, target)
  {
    hide Aliases;
    var aliases := Aliases(releaseTag);
    var targets := TargetsOf(imageName, aliases);
    if target in targets {
      var i :| 0 <= i < |targets| && targets[i] == target;
      AliasExact(releaseTag, aliases[i]);
    }
    if Planned(imageName, releaseTag, target) {
      var alias := if target == imageName + ":" + releaseTag then releaseTag
        else if target == imageName + ":" + "latest" && '-' !in releaseTag then "latest" else releaseTag[1..];
      AliasExact(releaseTag, alias);
      var i :| 0 <= i < |aliases| && aliases[i] == alias;
      assert targets[i] == target;
    }
  }

  /** In this order: without a leading v, as it is, and `latest` last; a release that is itself called latest aside. */
  lemma TargetsInOrder(o: Options, s: Source)
    requires CreateReleaseImagePromotionPlan(o).Ok? && s in CreateReleaseImagePromotionPlan(o).value.sources
    requires o.releaseTag != "latest" && o.releaseTag != "vlatest"
    ensures var prefix, tag := s.imageName + ":", o.releaseTag;
      s.targets == (if tag[0] == 'v' then [prefix + tag[1..]] else []) + [prefix + tag]
        + if '-' in tag then [] else [prefix + "latest"]
  {
    var tag := o.releaseTag;
    StableExact(tag);
    VersionLatest(tag);
    assert s.targets == TargetsOf(s.imageName, Aliases(tag)) by {
      hide GhcrName, DockerHubName.Text, Accepted, Aliases, TargetsOf;
    }
    assert tag != "";
    hide GhcrName, DockerHubName.Text, Accepted;
    DedupThree(Version(tag), tag, '-' in Version(tag));
  }

  lemma VersionLatest(tag: string)
    requires tag != "latest" && tag != "vlatest"
    ensures Version(tag) != "latest" && (Version(tag) == tag <==> tag == "" || tag[0] != 'v')
  {
    if tag != "" && tag[0] == 'v' {
      assert tag == ['v'] + tag[1..];
      assert ['v'] + "latest" == "vlatest";
    }
  }

  lemma DedupThree(a: string, b: string, prerelease: bool)
    requires a != "latest" && b != "latest"
    ensures Dedup([a, b] + if prerelease then [] else ["latest"]) ==
      (if a == b then [] else [a]) + [b] + if prerelease then [] else ["latest"]
  {
    assert [a, b][..1] == [a] && [a][..0] == [];
    assert Dedup<string>([]) == [];
    assert Dedup([a]) == [a];
    assert Dedup([a, b]) == (if a == b then [] else [a]) + [b];
    assert [a, b] + [] == [a, b];
    assert ([a, b] + ["latest"])[..2] == [a, b];
  }

  /** The images are the GHCR one in lower case and the configured Docker Hub one, each at the given digest. */
  lemma SourcesExact(o: Options, owner: string, name: string)
    requires CreateReleaseImagePromotionPlan(o).Ok? && LowerCased(o.owner, owner) && LowerCased(o.name, name)
    ensures var plan := CreateReleaseImagePromotionPlan(o).value;
      && |plan.sources| == (if o.dockerHub.Some? then 2 else 1)
      && plan.sources[0].registry == Ghcr && plan.sources[0].imageName == "ghcr.io/" + owner + "/" + name
      && (o.dockerHub.Some? ==>
        && plan.sources[1].registry == DockerHub
        && plan.sources[1].imageName == o.dockerHub.value.ns + "/" + o.dockerHub.value.repository)
      && (forall s | s in plan.sources :: s.source == s.imageName + "@" + o.imageRef.digest)
      && o.imageRef.imageName == plan.sources[0].imageName
      && plan.digest == o.imageRef.digest && plan.imageRef == o.imageRef && plan.revision == o.revision
      && plan.releaseTag == o.releaseTag && plan.repository == o.owner + "/" + o.name
  {
    LowerCaseExact(o.owner, owner);
    LowerCaseExact(o.name, name);
    hide Aliases, TargetsOf;
  }

  // ----- Promotion evidence -----

  datatype RegistryEvidence = RegistryEvidence(registry: Registry, source: string, digest: string, targets: seq<string>)

  /** Promotion evidence as it is handed in. */
  datatype Promotion = Promotion(
    schemaVersion: int,
    validationKind: string,
    status: string,
    repository: string,
    releaseTag: string,
    sourceRevision: string,
    imageRef: ImageRef,
    digest: string,
    sourceDigestsVerified: bool,
    aliasesVerified: bool,
    registries: seq<RegistryEvidence>,
    verifiedAt: Stamp)

  const PROMOTION_KIND := "release-image-tag-promotion"

  /** What a promotion of the plan that is completed at this time reports. */
  function PromotionOf(plan: Plan, verifiedAt: Stamp): Promotion {
    var registries := Map(plan.sources, (s: Source) => RegistryEvidence(s.registry, s.source, plan.digest, s.targets));
    Promotion(1, PROMOTION_KIND, "passed", plan.repository, plan.releaseTag, plan.revision, plan.imageRef, plan.digest,
              true, true, registries, verifiedAt)
  }

  predicate RegistryMatches(actual: RegistryEvidence, planned: Source, digest: string) {
    && actual.registry == planned.registry && actual.source == planned.source && actual.digest == digest
    && |actual.targets| == |planned.targets|
    && forall i | 0 <= i < |actual.targets| :: actual.targets[i] == planned.targets[i]
  }

  function ProjectReleaseImagePromotion(result: Promotion, plan: Plan): Result<Promotion> {
    if result.schemaVersion != 1 || result.validationKind != PROMOTION_KIND || result.status != "passed"
      || result.repository != plan.repository || result.releaseTag != plan.releaseTag
      || result.sourceRevision != plan.revision || result.imageRef != plan.imageRef || result.digest != plan.digest
      || !result.sourceDigestsVerified || !result.aliasesVerified
      || !Shaped(result.verifiedAt.text, ISO_MILLISECONDS) || !result.verifiedAt.readable
      || |result.registries| != |plan.sources|
    then Rejected
    else if exists i | 0 <= i < |plan.sources| :: !RegistryMatches(result.registries[i], plan.sources[i], plan.digest)
    then Rejected
    else Ok(PromotionOf(plan, result.verifiedAt))
  }

  /**
   Evidence is accepted, and handed on as it is, exactly when it is what a promotion of the plan reports that was
   completed at a time in the one accepted form.
   */
  lemma ProjectionExact(result: Promotion, plan: Plan)
    ensures ProjectReleaseImagePromotion(result, plan) ==
      if result == PromotionOf(plan, result.verifiedAt) && Shaped(result.verifiedAt.text, ISO_MILLISECONDS)
        && result.verifiedAt.readable
      then Ok(result) else Rejected
  {
    hide Shaped;
    var expected := PromotionOf(plan, result.verifiedAt);
    if ProjectReleaseImagePromotion(result, plan).Ok? {
      forall i | 0 <= i < |plan.sources|
        ensures result.registries[i] == expected.registries[i]
      {
        assert RegistryMatches(result.registries[i], plan.sources[i], plan.digest);
      }
      assert result.registries == expected.registries;
    }
  }
}
