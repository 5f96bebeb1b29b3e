# Harmoniarr release and validation tooling: verified models

This project models the release and validation scripts of Harmoniarr in Dafny 4.11 and proves what they promise. The
scripts publish releases and image tags through calls that can fail, be lost or race with other people, and they turn
measurements into verdicts. `dafny verify dfyconfig.toml` checks everything.

## What is modelled

**Release publication** (`ReleasePolicy`, `ReleaseRemote`, `ReleaseService`, `ReleaseSafety`, `ReleaseCampaign`,
`ReleaseRecovery`, `ReleaseAnyHost`, `ReleaseCompletion`, `ReleaseOwnership`, `ReleaseEvidence`, `ReleaseClient`). The
release host is explicit state and every client call an atomic request to it. A script of `Weather` says what happens
around each call: it goes through, it takes effect but the response is lost, it never arrives, or somebody else first
replaces the whole state of the host. `Prepare` and `Finalize` are the two operations as functions of host and script;
a class with the calls in program order is proved equal to them. `ReleaseSafety` holds what one run guarantees under
interference, `ReleaseCampaign` what any sequence of cut-off runs does to a host that had no release for the tag and
that nobody else writes to, `ReleaseRecovery` that an undisturbed run always finishes the work, `ReleaseAnyHost` what
the runs do to a host that lists anything at all for the tag, `ReleaseCompletion` on exactly which hosts a
finalization can finish, and `ReleaseOwnership` says on the fields of a release whose it is.

**Image tags** (`ImageTagPlan`, `Patterns`, `ImageTagPromotion`, `ImageTagSafety`). The plan works on real strings
with the validating patterns spelled out; `Patterns` gives regular expressions their meaning and proves these and the
other patterns equal to it. A promotion is a straight list of commands executed up to the first failure; the nested
loops are proved to run exactly that list.

**Sample collection and review** (`SampleCollection`, `EvidenceReview`, `DurationStatistics`). The collector consumes
a script of replies from the service, the clock and the file system. Its assumptions about the service are the
predicate `Credible`: time does not run backwards, a run keeps its commit and its times, a run that one listing does
not show and a later one of the same session does starts no earlier than the first, and a reported completion lies in
the past. Which scripts make a sample and which a session is stated exactly, in both directions. The review is proved
exact finding by finding, and the two are composed.

**Schema checks** (`SchemaManifest`, `SchemaNotifications`, `SchemaPhases`). The counting checks are proved against
their meaning. The phase checker is a state machine whose calls may interleave at every await; its invariant holds for
every list of events.

**Text** (`Redaction`, `RedactionBound`, `DiagnosticCollector`, `OutputStreams`, `Utf8`).
`String.prototype.replaceAll` follows section 22.1.3.20 of ECMA-262 (2024 edition), decoding of buffers section 8.1.1
of the WHATWG Encoding standard. The line collector is a class whose ghost field holds all lines consumed.

**Timing** (`TimingEvidence`, `TimingBatch`, `TimingAssessment`), **tag retention** (`TagRetention`) and the **request
observer** (`RequestObserver`) follow the same pattern: the stateful parts are classes or loops proved equal to
functions, and the promises are lemmas about the functions over all inputs, runs or event orders. `Common` and
`StableSort` hold what the models share.

## Where the code does not keep a promise

- A finalization accepts any publication time that can be read, the check of its evidence one form only: on a host
  that writes another form the release is published and its evidence refused (`ReleaseEvidence.OffsetTimeRefused`,
  exact condition in `ReleaseEvidence.HostFormDecides`).
- Output of a child process is decoded buffer by buffer, so a buffer that ends inside a character changes the text and
  can cost a record (`DiagnosticCollector.CutInSpaceLosesRecord`). `DiagnosticCollector.BuffersReadExact` says exactly
  when the text is read as it was written; the report is then that of the text (`DiagnosticCollector.Collect`).
- One collector reads both output streams of a child process, so a stream that writes while the other has an
  unfinished line can cost a record (`OutputStreams.OtherStreamSpoilsRecord`); when they switch at line ends only,
  none is lost (`OutputStreams.BothStreamsReported`).
- Order of the samples matters to the overlap report when a run of no duration starts together with a lasting one
  (`EvidenceReview.InstantOrderMatters`, exact condition in `EvidenceReview.OrderIndependenceExact`).
- A secret that contains a bracket can survive redaction (`Redaction.BracketSecretSurvives`).
  `Redaction.SingleSecretExact` says exactly which single secrets can; among secrets without brackets exactly the
  parts of the marker can (`Redaction.RedactionCompleteExact`); for any list, short texts decide
  (`RedactionBound.ShortTextsDecide`).
- An index nobody expects passes the index check when its report lacks table and definition
  (`SchemaManifest.UndefinedIndexAccepted`, `SchemaManifest.UnexpectedIndexAccepted`, exact condition in
  `SchemaManifest.IndexesExact`).
- Deletion is by name, so a name that is listed twice and straddles the cut takes a kept tag with it
  (`TagRetention.RepeatedNameLost`, exact condition on the listing in `TagRetention.KeptSurviveExact`).
- A second wait for the same endpoint orphans the first (`RequestObserver.OverlappingWaitsLose`, exact condition in
  `RequestObserver.NoWakeupLostExact`).

## Model

| member | source | states |
|---|---|---|
| `ReleaseService.ReleaseDraftLifecycleService.PrepareRelease` | scripts/release-draft-lifecycle-service.js:13-28 | the method, call by call, ends with the connection and result that `Prepare` assigns to the same host and script |
| `ReleaseService.ReleaseDraftLifecycleService.UploadMissing` | scripts/release-draft-lifecycle-service.js:43-50 | the staging loop skips present assets and guards each upload: it ends as `StageAssets` says, at the first failing call |
| `ReleaseService.ReleaseDraftLifecycleService.FinalizeRelease` | scripts/release-draft-lifecycle-service.js:29-66 | the method ends as `Finalize` says, and the stage it reports on failure is the one that was reached |
| `ReleaseSafety.PublicationGuarded` | scripts/release-draft-lifecycle-service.js:51-56 | with anybody changing anything between calls: publication is requested at most once, directly behind four reads later than the last upload that showed policy on, tag at the commit, owned draft, complete matching inventory |
| `ReleaseSafety.UploadsGuarded` | scripts/release-draft-lifecycle-service.js:38-50 | every upload is of a validated asset that four looks at the start did not show, comes directly behind fresh reads of the tag and of the owned draft, and is followed by nothing before the listing was read and found in order |
| `ReleaseSafety.PassedIsVerified` | scripts/release-draft-lifecycle-service.js:56-65 | success evidence exists only when reads after publication showed the same release published and immutable, the tag unchanged, all assets equal to the validated ones, and the attestation verified; its fields are those that were read |
| `ReleaseSafety.FailureStageHonest` | scripts/release-draft-lifecycle-service.js:30-66 | a failure in the prepublication stage has written nothing; a failure in any stage but the last has not requested publication |
| `ReleaseSafety.CreationGuarded` | scripts/release-draft-lifecycle-service.js:15-23 | preparation writes at most one request, a creation, and only as its fourth, behind reads showing policy on, tag in place and no release for the tag |
| `ReleaseSafety.PreparedIsConfirmed` | scripts/release-draft-lifecycle-service.js:19-24 | a preparation that succeeds has read, after anything it wrote, the tag in place and the owned draft it reports, and says it reused a draft exactly when it wrote nothing |
| `ReleaseOwnership.WritesFollowAscribed` | scripts/release-draft-lifecycle-service.js:36-56 | whatever others do: the release read in front of every upload and of the publication is a draft with the tag, commit and prerelease flag of the inputs and one ownership comment, that of the lower-cased repository, tag and commit |
| `ReleaseOwnership.PreparedIsAscribed` | scripts/release-draft-lifecycle-service.js:19-24 | a preparation that succeeds has last read the draft it reports, and that draft is ascribed to the inputs in the same fields |
| `ReleaseOwnership.PassedIsAscribed` | scripts/release-draft-lifecycle-service.js:57-65 | success evidence is about a release that was read published, immutable and ascribed to the inputs, at the time in the evidence |
| `ReleaseOwnership.OthersUntouched` | scripts/release-draft-lifecycle-policy.js:30-40 | any cut-off runs on any host leave every release as it was that is published, or differs from the job in tag, commit, prerelease flag or ownership comment |
| `ReleaseOwnership.PrepareExact` | scripts/release-draft-lifecycle-service.js:13-28 | on any host an undisturbed preparation succeeds if and only if the policy is on, the tag in place, fewer than 500 releases listed, and either the only release of the tag is a draft ascribed to the job, which is adopted without a write, or there is none and a fresh identifier to create one |
| `ReleaseOwnership.ForeignDraftStops` | scripts/release-draft-lifecycle-service.js:15-24 | a draft of the tag whose comments are anything but the one ownership comment stops the preparation, with nothing written |
| `ReleaseCampaign.StagingKeeps` | scripts/release-draft-lifecycle-service.js:44-50 | staging keeps the campaign invariant wherever it is cut off |
| `ReleaseCampaign.FinalizeKeeps` | scripts/release-draft-lifecycle-service.js:29-66 | a finalization keeps the campaign invariant wherever it is cut off |
| `ReleaseCampaign.PrepareKeeps` | scripts/release-draft-lifecycle-service.js:13-28 | a preparation keeps the campaign invariant wherever it is cut off |
| `ReleaseCampaign.CampaignInv` | scripts/release-draft-lifecycle-service.js:13-66 | after any sequence of runs, each cut off at any call, the write log is exactly what the one release on the host accounts for |
| `ReleaseCampaign.CampaignWrites` | scripts/release-draft-lifecycle-service.js:13-66 | over all runs together: one draft is created, first; each asset name is uploaded at most once, always a validated asset to that draft; publication is the sixth and last write |
| `ReleaseCampaign.CampaignHost` | scripts/release-draft-lifecycle-service.js:13-66 | everybody else's releases stay as they were; for the tag there is at most one release, a sub-inventory, and complete and immutable once published |
| `ReleaseRecovery.FinalizeFinishes` | scripts/release-draft-lifecycle-service.js:29-66 | from any unfinished draft an undisturbed finalization succeeds, and writes exactly the missing assets in order and the publication |
| `ReleaseRecovery.PrepareFinishes` | scripts/release-draft-lifecycle-service.js:13-28 | before publication an undisturbed preparation succeeds, adopting the draft there is or creating it, and says which |
| `ReleaseRecovery.FinishesFromAnywhere` | scripts/release-draft-lifecycle-service.js:13-66 | after any cut-off runs, one undisturbed preparation and finalization finish the release, writing exactly what was missing |
| `ReleaseRecovery.PublishedIsFinal` | scripts/release-draft-lifecycle-service.js:13-66 | once published, every further run fails and writes nothing, however long the listing of the host is |
| `ReleaseAnyHost.FinalizeLawful` | scripts/release-draft-lifecycle-service.js:29-66 | on any host: what a finalization, cut off anywhere, writes is in order write by write, and the host is what these writes made of it |
| `ReleaseAnyHost.PrepareLawful` | scripts/release-draft-lifecycle-service.js:13-28 | the same for a preparation |
| `ReleaseAnyHost.AnyHostWrites` | scripts/release-draft-lifecycle-service.js:13-66 | any cut-off runs on any host: no creation when a release for the tag is listed and at most one otherwise, before everything else; uploads and the publication go to owned drafts alone, a validated asset to a draft without one of its name; an upload that was taken is not repeated, and nothing is written to a release behind its publication |
| `ReleaseAnyHost.AnyHostKept` | scripts/release-draft-lifecycle-service.js:13-66 | any cut-off runs on any host leave every release alone that is no owned draft of the job; those keep identity, marker and assets |
| `ReleaseCompletion.StagingExact` | scripts/release-draft-lifecycle-service.js:43-50 | undisturbed staging succeeds if and only if nothing is missing or the draft takes uploads under its own identifier, and uploads exactly the missing assets in order |
| `ReleaseCompletion.FinishesExact` | scripts/release-draft-lifecycle-service.js:29-66 | on any host an undisturbed finalization succeeds if and only if the policy is on, the tag in place, the time readable, and the identifier addresses an owned draft with validated assets only that takes the missing ones; it then has written exactly these and the publication |
| `ReleasePolicy.AssertReleaseAssetInventory` | scripts/release-draft-lifecycle-policy.js:42-57 | accepts exactly the sub-inventories (or exactly the complete ones) of the validated assets and returns the names present |
| `ReleasePolicy.FourNamesAreAll` | scripts/release-draft-lifecycle-policy.js:43-56 | a sub-inventory has at most four entries, and four names are all the expected ones |
| `ReleaseEvidence.ProjectReleasePublication` | scripts/release-draft-lifecycle-policy.js:59-82 | accepts exactly evidence bound to this release, with the fixed fields, a publication time in the expected form and four assets under the four expected names, and returns it unchanged |
| `ReleaseEvidence.FinalizedAcceptedExact` | scripts/release-draft-lifecycle-policy.js:38-66 | the evidence of a finalization that succeeded is accepted for the same release if and only if the publication time in it has the form that the evidence demands |
| `ReleaseEvidence.HostFormDecides` | scripts/release-draft-lifecycle-policy.js:38-66 | on any host where it can finish, an undisturbed finalization publishes and passes, and its evidence is accepted if and only if the host writes its publication time in the form that the evidence demands |
| `ReleaseEvidence.OffsetTimeRefused` | scripts/release-draft-lifecycle-policy.js:38-66 | one such host: publication times that end in an offset instead of a Z |
| `ReleaseClient.FindReleases` | scripts/release-draft-lifecycle-client.js:51-60 | the paging loop yields what `Lookup` makes of the pages: matches up to the first short page, an error for an unusable page or no short page among five |
| `ReleaseClient.StableListingExact` | scripts/release-draft-lifecycle-client.js:51-60 | over a stable listing the pages yield the whole listing filtered by tag when it has fewer than 500 entries, and an error otherwise |
| `ReleaseClient.ResolveTag` | scripts/release-draft-lifecycle-client.js:37-50 | succeeds if and only if the reference has the tag's name and leads to the expected commit through at most five annotated tags |
| `ReleaseClient.CommitExact` | scripts/release-draft-lifecycle-client.js:40-50 | the walk reaches a commit if and only if a chain of so many annotated tags, each well-formed and answered under its own identifier, leads to it |
| `ReleaseClient.WalksToCommitsDontRepeat` | scripts/release-draft-lifecycle-client.js:42-48 | a chain that reaches a commit never meets a tag object twice, so refusing repeats refuses no good tag |
| `ReleaseClient.CycleNeverEnds` | scripts/release-draft-lifecycle-client.js:42-48 | a chain that meets an object again reaches no commit through any number of further tags |
| `ImageTagPlan.PlansAreSound` | scripts/release-image-tag-plan.js:18-51 | planned targets are pairwise distinct, in one registry and across both, and none of them is a source |
| `ImageTagPlan.RegistriesApart` | scripts/release-image-tag-plan.js:20-23 | no reference under a GHCR name equals one under an accepted Docker Hub name |
| `ImageTagPlan.LatestExact` | scripts/release-image-tag-plan.js:24-25 | `latest` is among the targets if and only if the release is no prerelease |
| `ImageTagPlan.TargetsExact` | scripts/release-image-tag-plan.js:24-51 | a reference is a target if and only if it is the image name with the release tag, with the release tag without a leading v, or, when what is left of the tag holds no hyphen, with latest |
| `ImageTagPlan.TargetsInOrder` | scripts/release-image-tag-plan.js:24-48 | the targets of a source in order: version, release tag, and latest for a stable release, each once |
| `ImageTagPlan.SourcesExact` | scripts/release-image-tag-plan.js:44-51 | the sources are the lower-cased GHCR name and, if configured, the Docker Hub name, in this order and at the given digest |
| `Patterns.PlanAcceptedExact` | scripts/release-image-tag-plan.js:18-51 | options make a plan if and only if every part of them follows the pattern that the source writes for it |
| `Patterns.ReleaseTagExact` | scripts/release-draft-lifecycle-policy.js:16 | the model of a release tag accepts exactly what the regular expression and the look for two dots accept |
| `Patterns.ImageTagExact` | scripts/release-image-tag-plan.js:25 | the same for an image tag |
| `Patterns.NamespaceExact` | scripts/release-image-tag-plan.js:21 | the same for a Docker Hub namespace |
| `Patterns.RepositoryExact` | scripts/release-image-tag-plan.js:21 | the same for a Docker Hub repository, with its groups behind single separators |
| `Patterns.IsoExact` | scripts/release-draft-lifecycle-policy.js:65 | the same for the form of a publication time |
| `Patterns.MigrationExact` | scripts/docker-candidate-schema-checks.js:28 | the same for a migration filename |
| `Patterns.UuidExact` | scripts/docker-candidate-schema-checks.js:26 | the same for an identifier |
| `ImageTagPlan.ProjectionExact` | scripts/release-image-tag-plan.js:65-86 | promotion evidence is accepted, and handed on as it is, exactly when it is what a completed promotion of the plan reports, field by field, at a time in the one accepted form |
| `ImageTagPromotion.PromoteReleaseImageTags` | scripts/release-image-tag-service.js:12-44 | the nested loops issue exactly the commands of the plan in order up to the first failure, and report the stage of that failure |
| `ImageTagSafety.ExecuteTrace` | scripts/release-image-tag-service.js:22-36 | the commands that reached the registries are a prefix of the plan's, and all but the last went well and were heard |
| `ImageTagSafety.PreflightBeforeWrites` | scripts/release-image-tag-service.js:22-33 | whatever others do: no alias is written before every source was inspected and held the planned digest |
| `ImageTagSafety.AliasesRechecked` | scripts/release-image-tag-service.js:27-34 | whatever others do: behind each written alias comes the look at it, and nothing more unless that found the planned digest |
| `ImageTagSafety.PassedLookedAtAll` | scripts/release-image-tag-service.js:35-36 | whatever others do: a run that passed ended with a look at every target that found the planned digest |
| `ImageTagSafety.ApplyExact` | scripts/release-image-tag-service.js:27-34 | afterwards the written references hold the planned image and every other reference is as it was |
| `ImageTagSafety.WritesExact` | scripts/release-image-tag-service.js:27-34 | all targets are written, each from a source of the plan, and a target is looked at only once written |
| `ImageTagSafety.RunKeepsBetween` | scripts/release-image-tag-service.js:22-36 | one run, cut off anywhere, changes only planned targets, and changes them only to the planned image |
| `ImageTagSafety.OnlyTargetsChange` | scripts/release-image-tag-service.js:22-36 | the same for any number of runs, each cut off anywhere |
| `ImageTagSafety.RerunConverges` | scripts/release-image-tag-service.js:22-36 | after any partial runs a run that passes leaves exactly the registries an uninterrupted first run leaves, every target at the planned image |
| `ImageTagSafety.UndisturbedPassesExact` | scripts/release-image-tag-service.js:22-36 | after any partial runs an undisturbed run passes if and only if the sources held the planned image at the start |
| `SampleCollection.GetNewWorkflowRunCandidate` | scripts/browser-validation-sample-collection.js:69-86 | none exactly when all runs were known; a candidate exactly when there is one entry not known before and it is on the expected commit; otherwise it throws |
| `SampleCollection.WaitForNewWorkflowRun` | scripts/browser-validation-sample-collection.js:119-151 | polling ends as `DiscoverNew` says; a run it returns was not known, is shown by a listing of this session and is on the expected commit |
| `SampleCollection.WaitForWorkflowCompletion` | scripts/browser-validation-sample-collection.js:153-184 | polling ends as `AwaitCompletion` says; a run it returns is the true one and has completed by now |
| `SampleCollection.SourceCommitIs` | scripts/browser-validation-sample-collection.js:213-219 | holds exactly when every retained sample is on the expected commit |
| `SampleCollection.LatestCompletionIsLatest` | scripts/browser-validation-sample-collection.js:226-232 | the latest completion is not after a time exactly when every retained run completed by then |
| `SampleCollection.Retain` | scripts/browser-validation-sample-collection.js:95-101 | downloading, validating and writing one sample goes as `Keep` says, and keeps the collection serial and its log good |
| `SampleCollection.RecoverInitialRun` | scripts/browser-validation-sample-collection.js:305-370 | taking over a run goes as `Recover` says and keeps the collection serial: it follows all retained runs and is none of them |
| `SampleCollection.CollectOneSample` | scripts/browser-validation-sample-collection.js:382-467 | one round goes as `OneMore` says and keeps the collection serial; it dispatches only behind a listing without active runs |
| `SampleCollection.Collect` | scripts/browser-validation-sample-collection.js:251-476 | a whole session ends as `SessionOf` says; whatever became of it, every manifest it wrote is serial, within the count, and the one before it with one more sample, and the file is the last one written |
| `SampleCollection.SessionsDispatchIdle` | scripts/browser-validation-sample-collection.js:383-402 | in the log of any session every dispatch is directly behind a look at a listing of completed runs alone |
| `SampleCollection.ActiveRunStops` | scripts/browser-validation-sample-collection.js:390-394 | a round that meets an active run anywhere in the listing fails, dispatching and writing nothing |
| `SampleCollection.IdleListingDispatches` | scripts/browser-validation-sample-collection.js:382-400 | a round that meets completed runs alone dispatches the workflow |
| `SampleCollection.RoundExact` | scripts/browser-validation-sample-collection.js:382-467 | a round adds a sample if and only if its replies are, in order: an idle listing, the taken dispatch, polls of the listing within two minutes up to one where exactly one run is new and on the commit, polls of that run within twenty-five minutes up to one that tells how it ended, the evidence or its failure, and the write |
| `SampleCollection.CollectsGives` | scripts/browser-validation-sample-collection.js:382-467 | such a round adds just the run that was listed, as it ended, with the evidence that came, and logs the look, the dispatch and the write |
| `SampleCollection.RecoverExact` | scripts/browser-validation-sample-collection.js:305-370 | a run is taken over if and only if it is reported ended, on the commit, behind all retained runs and none of them, and can be written; the sample is that run with the evidence that came |
| `SampleCollection.SessionExact` | scripts/browser-validation-sample-collection.js:251-476 | a session ends completed, or early, if and only if it may begin and its replies are those of rounds that add samples up to the count, or up to the first without evidence; it leaves exactly these |
| `SampleCollection.TakeoverExact` | scripts/browser-validation-sample-collection.js:251-476 | the same for a session that first takes over a run |
| `SampleCollection.OutcomeTruthful` | scripts/browser-validation-sample-collection.js:353-476 | completed means the selected count; stopped early means the last sample has no evidence; every other sample added has it |
| `SampleCollection.CollectSessions` | scripts/browser-validation-sample-collection.js:251-476 | over any number of sessions on one file every manifest ever written is serial, has one commit, unique run IDs and at most ten samples |
| `SampleCollection.SerialHasNoOverlap` | scripts/browser-test-evidence-review.js:160-183 | a serial manifest is its own chronological order and has no overlapping pair |
| `SampleCollection.CollectedNeverTripsReview` | scripts/browser-test-evidence-review.js:147-183 | no review of a written manifest finds too many samples, a changed commit or overlapping runs |
| `SampleCollection.CollectThenReview` | scripts/browser-test-evidence-review.js:220-228 | collection then review: confirmed exactly for ten good samples, incomplete exactly for fewer good ones |
| `SchemaManifest.IndexManifest` | scripts/docker-candidate-schema-checks.js:40-45 | the first loop accepts exactly well-formed rows without repeated filenames, and indexes them all |
| `SchemaManifest.VerifyLedger` | scripts/docker-candidate-schema-checks.js:46-52 | the second loop accepts exactly ledgers of applied rows that each agree with a migration, without repeats |
| `SchemaManifest.VerifyManifest` | scripts/docker-candidate-schema-checks.js:37-53 | the check as a whole accepts exactly what `ManifestGood` describes |
| `SchemaManifest.LedgerIsManifest` | scripts/docker-candidate-schema-checks.js:37-53 | a passed check makes ledger and manifest a bijection on filename, key and checksum |
| `SchemaManifest.VerifyRowsPreserved` | scripts/docker-candidate-schema-checks.js:63-65 | the map lookup accepts exactly when every earlier row is still there unchanged |
| `SchemaManifest.AddedCountsNewNames` | scripts/docker-candidate-schema-checks.js:128-132 | with preserved rows the length difference is exactly the number of new filenames, never negative, and the later migrations extend the earlier ones |
| `SchemaManifest.NothingAddedIsSame` | scripts/docker-candidate-schema-checks.js:131-132 | with preserved rows and nothing added, both ledgers hold the same migrations |
| `SchemaManifest.VerifyIndexes` | scripts/docker-candidate-schema-checks.js:136-140 | the index loop accepts exactly what `IndexesAccepted` describes |
| `SchemaManifest.TableExact` | scripts/docker-candidate-schema-checks.js:139 | the table that a definition is on: the longest name behind the first occurrence of the keyword and schema that a name follows, and none without one |
| `Patterns.TablePatternExact` | scripts/docker-candidate-schema-checks.js:139 | the table of a definition is the first longest match of the regular expression of the source, and there is none without a match |
| `SchemaManifest.IndexesExact` | scripts/docker-candidate-schema-checks.js:136-140 | accepted indexes are exactly the expected ones if and only if every reported index carries a definition |
| `SchemaManifest.UndefinedIndexAccepted` | scripts/docker-candidate-schema-checks.js:138-140 | in any accepted report any index may give way to one that nobody expects, if that one is reported without table and definition |
| `SchemaManifest.UnexpectedIndexAccepted` | scripts/docker-candidate-schema-checks.js:136-140 | the smallest such report, for any configuration of one index |
| `SchemaPhases.CandidateSchemaChecks.CheckPhase` | scripts/docker-candidate-schema-checks.js:93-109 | the synchronous part of a call, up to its first await, takes the shared state where `Begin` says |
| `SchemaPhases.CandidateSchemaChecks.Continue` | scripts/docker-candidate-schema-checks.js:110-160 | each stretch between awaits takes the shared state where `Resume` says, giving back the lock at every end |
| `SchemaPhases.CandidateSchemaChecks.VerifyProbe` | scripts/docker-candidate-schema-checks.js:55-70 | accepts exactly the probes that `ProbeGood` describes: manifest, the user and request of the fixture field by field, notification continuity, versions, and preservation of rows, user, request columns and identity |
| `SchemaPhases.CandidateSchemaChecks.VerifyFixture` | scripts/docker-candidate-schema-checks.js:55-61 | one check after the other accepts exactly user and request rows as the fixture has them |
| `SchemaPhases.CandidateSchemaChecks.VerifyPreservation` | scripts/docker-candidate-schema-checks.js:63-73 | accepts exactly when ledger rows, user, captured request columns and identity are kept |
| `SchemaPhases.CandidateSchemaChecks.VerifyVersions` | scripts/docker-candidate-schema-checks.js:123-127 | accepts exactly Node 24 and PostgreSQL 18, and behind the baseline the minimum version |
| `SchemaPhases.CandidateSchemaChecks.VerifyCandidate` | scripts/docker-candidate-schema-checks.js:134-141 | skips the baseline; otherwise the expected migration and the indexes are asked for |
| `SchemaPhases.CandidateSchemaChecks.VerifyTools` | scripts/docker-candidate-schema-checks.js:142-146 | accepts exactly equal dump and restore versions of PostgreSQL 18 that are recent enough |
| `SchemaPhases.RunInv` | scripts/docker-candidate-schema-checks.js:90-160 | the invariant holds under every interleaving of calls at their awaits |
| `SchemaPhases.LockExact` | scripts/docker-candidate-schema-checks.js:91-100 | exactly one call is past acquisition while the lock is held, and none otherwise |
| `SchemaPhases.RefusalHarmless` | scripts/docker-candidate-schema-checks.js:96-99 | a call that arrives while the lock is held is refused and changes nothing for the holder |
| `SchemaPhases.SnapshotsGrow` | scripts/docker-candidate-schema-checks.js:148 | snapshots only grow, one at a time, and only when a seed passes whose phase had none |
| `SchemaPhases.SeedsPassOnce` | scripts/docker-candidate-schema-checks.js:104 | each initial phase passes at most once |
| `SchemaPhases.PassedIsChecked` | scripts/docker-candidate-schema-checks.js:119-147 | everything that passed was told a verified manifest, good server and tool versions, and preserved data |
| `SchemaPhases.PassedShown` | scripts/docker-candidate-schema-checks.js:119-147 | under every interleaving, as numbers and fields: what passed was told Node 24, PostgreSQL 18, tools of one version, none below the minimum but in the baseline, and the user and request of the fixture; a fresh install, restart or upgrade also a ledger row of the expected migration and as many distinctly named, valid and ready indexes as expected |
| `SchemaPhases.ConfiguredShown` | scripts/docker-candidate-schema-checks.js:136-140 | and when the reported indexes carry definitions, each expected name is reported with its configured one |
| `SchemaPhases.BaselineJudgedAlike` | scripts/docker-candidate-schema-checks.js:134-141 | a baseline probe is judged alike whatever indexes it reports and whatever migration and indexes are configured |
| `SchemaPhases.WholeCallExact` | scripts/docker-candidate-schema-checks.js:93-160 | behind any run that left no call in flight, a call that is answered in full passes if and only if it is admitted by what has passed before and its answers are good, and the lock is free behind it either way |
| `SchemaPhases.PassedInPhase` | scripts/docker-candidate-schema-checks.js:100-133 | seeds pass without an earlier probe, a restart goes back to a fresh install that passed and an upgrade to a baseline; ledger rows, user, request columns and database identity are kept since |
| `SchemaPhases.PassBuildsOnSeed` | scripts/docker-candidate-schema-checks.js:101-133 | a passed restart or upgrade comes behind a passed seed of its kind with identical compose arguments, and shows its fixture, with the user as it was and every request column it had; a restart has its migrations, an upgrade extends them by exactly the added ones |
| `SchemaPhases.PassKeepsNotifications` | scripts/docker-candidate-schema-checks.js:119-133 | under every interleaving a passed restart or upgrade still has every field of the subscription and the four notifications of its seed, in a schema that lost no column; what the schema of the seed could not end has ended at one moment in between |
| `SchemaNotifications.VerifyNotificationContinuity` | scripts/docker-candidate-notification-continuity.js:35-100 | the checks in front of, in and behind the loop over the statuses accept exactly what `ContinuityGood` describes |
| `SchemaNotifications.VerifyEntries` | scripts/docker-candidate-notification-continuity.js:45-52 | accepts exactly at most 100 reported rows in which every expected entry is shown |
| `SchemaNotifications.EntryShownExact` | scripts/docker-candidate-notification-continuity.js:48-50 | an entry is shown if and only if one row agrees with it throughout and no other row has its table and name |
| `SchemaNotifications.VerifySubscription` | scripts/docker-candidate-notification-continuity.js:54-59 | one check after the other accepts exactly a good subscription row |
| `SchemaNotifications.VerifyNotification` | scripts/docker-candidate-notification-continuity.js:62-78 | one check after the other accepts exactly a good notification of a status, later columns included |
| `SchemaNotifications.VerifyAgainst` | scripts/docker-candidate-notification-continuity.js:79-88 | accepts exactly a row that continues the one of the seed |
| `SchemaNotifications.VerifyState` | scripts/docker-candidate-notification-continuity.js:90-98 | accepts exactly a state that continues the one of the seed |
| `SchemaNotifications.ColumnsNeverDropped` | scripts/docker-candidate-notification-continuity.js:92 | kept fields keep their columns, so the check that no column was lost cannot fail |
| `SchemaNotifications.ContinuityExact` | scripts/docker-candidate-notification-continuity.js:35-100 | against a verified seed the checks come to four things: the state is good by itself, fields are kept, time has not run back, and failed and expired notifications that had no end get one common end in between |
| `SchemaPhases.UpgradeNeverShrinks` | scripts/docker-candidate-schema-checks.js:130-132 | once rows are preserved, the check that nothing was removed cannot fail |
| `EvidenceReview.CreateReviewInput` | scripts/browser-test-evidence-review.js:230-279 | accepts exactly supported versions with unique positive run IDs and runs that do not end before they start, and returns the samples unchanged |
| `EvidenceReview.SweepOverlaps` | scripts/browser-test-evidence-review.js:164-176 | the one-pass sweep collects, once repeats are dropped, exactly the run IDs that take part in some overlapping pair, in chronological order of their runs |
| `EvidenceReview.ActivePairSuffices` | scripts/browser-test-evidence-review.js:166-176 | comparing each run only with the one finishing last so far misses no overlapping pair |
| `EvidenceReview.OrderIndependenceExact` | scripts/browser-test-evidence-review.js:160-183 | the overlapping runs are the same for every order of the input if and only if each run of no duration that starts with a lasting one does so under a third run covering that instant |
| `EvidenceReview.InstantOrderMatters` | scripts/browser-test-evidence-review.js:160-183 | a run of no duration and a lasting one that start together overlap in one order of the input and not in the other |
| `EvidenceReview.LastingRunsOrderIndependent` | scripts/browser-test-evidence-review.js:160-183 | when every run lasts some time, the overlapping runs are the same for every order of the input |
| `EvidenceReview.ReportCommits` | scripts/browser-test-evidence-review.js:155-158 | the commit finding is added exactly when there are several commits, and lists them without repeats |
| `EvidenceReview.ReportOverlaps` | scripts/browser-test-evidence-review.js:160-183 | the overlap finding is added exactly when some pair overlaps, and lists exactly the runs taking part |
| `EvidenceReview.ReportSamples` | scripts/browser-test-evidence-review.js:185-215 | a per-sample finding is added exactly when some sample shows the discrepancy, and lists exactly those samples in order |
| `EvidenceReview.CreateFindings` | scripts/browser-test-evidence-review.js:136-218 | each of the nine discrepancies is reported exactly when it is there, every report says what is so, and reports stand in the order of the source |
| `EvidenceReview.FindingsShown` | scripts/browser-test-evidence-review.js:136-218 | what each finding says, on the fields of the samples: both counts, the commits, and for each of five discrepancies the runs that show it, in order and without others |
| `EvidenceReview.NothingUnreported` | scripts/browser-test-evidence-review.js:136-218 | whatever the fields of any samples show is reported |
| `EvidenceReview.VerdictExact` | scripts/browser-test-evidence-review.js:220-228 | confirmed exactly for ten flawless samples on one commit without overlap; incomplete exactly when only the count falls short |
| `DurationStatistics.NearestRankExact` | scripts/browser-test-evidence-review.js:99-104 | the p95 is a measured value with at least ceil(0.95 n) durations at or below it and fewer strictly below |
| `DurationStatistics.MedianExact` | scripts/browser-test-evidence-review.js:106-113 | half the durations lie at or below the median and half at or above it |
| `DurationStatistics.StatisticsOrdered` | scripts/browser-test-evidence-review.js:99-130 | minimum, median, p95 and maximum are in that order for every non-empty list |
| `DurationStatistics.SummaryOrdered` | scripts/browser-test-evidence-review.js:115-130 | the summary is missing exactly when no sample has evidence, and otherwise in order |
| `DurationStatistics.SummaryExact` | scripts/browser-test-evidence-review.js:99-130 | the summary on the durations in the samples, in ascending order: its first and last, its middle or the mean of its two middles, and the first with nineteen twentieths of the list up to it |
| `DurationStatistics.StatisticsPermute` | scripts/browser-test-evidence-review.js:99-113 | median and p95 do not depend on the order of the durations |
| `DurationStatistics.CreateReview` | scripts/browser-test-evidence-review.js:302-322 | the whole review refuses exactly unusable samples and a generation time that is unreadable or in another form; otherwise findings, verdict and statistics are exact |
| `Redaction.RedactionValuesWellFormed` | scripts/docker-validation-redaction.js:17-21 | the secrets are the distinct non-empty texts, longest first |
| `Redaction.ReplaceAllJoins` | scripts/docker-validation-redaction.js:28 | replacing is splitting at the secret and joining with the marker; joining with the secret restores the text |
| `Redaction.PiecesAreClean` | scripts/docker-validation-redaction.js:28 | no piece between replacements holds the secret or anything the text did not hold |
| `Redaction.ReplaceAllCleans` | scripts/docker-validation-redaction.js:28 | one replacement removes its secret and brings back no other clear word |
| `Redaction.NoSecretSurvives` | scripts/docker-validation-redaction.js:23-31 | no listed secret occurs in the output for any text, if none can share a character with a marker |
| `Redaction.RedactionIdempotent` | scripts/docker-validation-redaction.js:23-31 | redacting twice is redacting once |
| `Redaction.CleanTextUntouched` | scripts/docker-validation-redaction.js:23-31 | text without secrets is unchanged |
| `Redaction.SecretAloneBecomesMarker` | scripts/docker-validation-redaction.js:17-31 | a secret alone becomes exactly the marker, even when others are substrings of it |
| `Redaction.RedactionCompleteExact` | scripts/docker-validation-redaction.js:23-31 | for secrets without brackets no secret ever survives if and only if none is part of the marker |
| `Redaction.SingleSecretExact` | scripts/docker-validation-redaction.js:23-31 | for a single secret of any characters: no text lets it survive if and only if it cannot be laid over the marker so that both agree, with no earlier match where it begins in front |
| `RedactionBound.ShortTextsDecide` | scripts/docker-validation-redaction.js:23-31 | for any list of secrets of any characters: no text lets one survive if and only if none does that is no longer than the product of the lengths of all secrets and of the one looked for |
| `RedactionBound.FoldOnwards` | scripts/docker-validation-redaction.js:23-31 | how the redaction of a text goes on depends on what was read only through one number for each secret: how much of it is held |
| `Redaction.TwoBracketsNeverSurvive` | scripts/docker-validation-redaction.js:23-31 | a secret that can share a character with the marker, and that still no text lets survive |
| `Redaction.BracketSecretSurvives` | scripts/docker-validation-redaction.js:23-31 | a secret with a bracket that is no part of the marker can survive |
| `DiagnosticCollector.SplitLinesInverts` | scripts/browser-runtime-diagnostic-evidence.js:202 | splitting cuts at line ends only: putting the terminators back restores the text |
| `DiagnosticCollector.SplitLinesContinues` | scripts/browser-runtime-diagnostic-evidence.js:200-204 | text in two parts splits as a whole does, also when cut between carriage return and line feed |
| `DiagnosticCollector.MarkedLinesConserved` | scripts/browser-runtime-diagnostic-evidence.js:180-197 | kept, discarded and invalid records together are the lines that carry the marker |
| `DiagnosticCollector.EncodedExact` | scripts/browser-runtime-diagnostic-evidence.js:152-159 | what is read of a line: all text behind the first marker, wherever that stands |
| `DiagnosticCollector.TrimExact` | scripts/browser-runtime-diagnostic-evidence.js:159 | trimming removes white space at both ends and nothing else |
| `DiagnosticCollector.LineReported` | scripts/browser-runtime-diagnostic-evidence.js:152-197 | a marked line comes to one record, or to one invalid record when its trimmed text is empty or refused |
| `DiagnosticCollector.RecordCollector.ConsumeLine` | scripts/browser-runtime-diagnostic-evidence.js:180-197 | one more line is accounted for; the report stays that of all lines so far |
| `DiagnosticCollector.RecordCollector.AddChunk` | scripts/browser-runtime-diagnostic-evidence.js:200-205 | a chunk, a buffer being decoded by itself, consumes the lines it completes and keeps the unfinished one pending |
| `DiagnosticCollector.RecordCollector.Finish` | scripts/browser-runtime-diagnostic-evidence.js:206-217 | the pending line is consumed unless empty, and the report is that of all lines |
| `DiagnosticCollector.Collect` | scripts/browser-runtime-diagnostic-evidence.js:174-219 | the report is that of the joined text of the chunks, however that text is cut: the first valid records up to the limit, and the counts of the rest |
| `Utf8.DecodeEncode` | scripts/browser-runtime-diagnostic-evidence.js:201 | text that was written as UTF-8 is read back unchanged when it arrives in one buffer |
| `Utf8.StepExact` | scripts/browser-runtime-diagnostic-evidence.js:201 | one step in terms of the codes of characters: a code in front is read as its character, and otherwise one replacement stands for the longest stretch that begins a code, or for a single byte |
| `Utf8.CutExact` | scripts/browser-runtime-diagnostic-evidence.js:201 | two buffers decoded one by one give the text of both together if and only if no decoding step takes bytes from both |
| `Utf8.BuffersExact` | scripts/browser-runtime-diagnostic-evidence.js:201 | any number of buffers decoded one by one give the text of all the bytes if and only if none ends inside a character |
| `DiagnosticCollector.BuffersReadExact` | scripts/browser-test-runner.js:103-108 | the collector reads the text that the child wrote if and only if no cut between two buffers is followed by a continuation byte |
| `DiagnosticCollector.CutInSpaceLosesRecord` | scripts/browser-test-runner.js:103-108 | any valid record is counted as invalid when a buffer ends inside the no-break space behind it |
| `OutputStreams.LinesInterleave` | scripts/browser-test-runner.js:102-109 | when the two output streams switch at line ends only, the lines that the collector reads are those of both streams, each in its order |
| `OutputStreams.BothStreamsReported` | scripts/browser-test-runner.js:102-109 | one collector over both then reports the valid and invalid records of both |
| `OutputStreams.OtherStreamSpoilsRecord` | scripts/browser-test-runner.js:102-109 | any valid record is counted as invalid when the other stream writes before its line is finished |
| `TimingEvidence.EvidenceExact` | scripts/artist-detail-local-timing-evidence.js:60-217 | created evidence is valid, and exactly the valid evidence is accepted unchanged: normalising is idempotent |
| `TimingEvidence.RoundExact` | scripts/artist-detail-local-timing-evidence.js:60-66 | rounding a measurement yields n if and only if it lies less than half below n, or at most half but not exactly half above |
| `TimingBatch.InterpolationMonotone` | scripts/artist-detail-local-timing-batch-evidence.js:186-193 | interpolated values do not decrease along a sorted list |
| `TimingBatch.MetricOrdered` | scripts/artist-detail-local-timing-batch-evidence.js:186-203 | minimum, p50, p95 and maximum are in that order for any values, the ends being values themselves |
| `TimingBatch.MetricExact` | scripts/artist-detail-local-timing-batch-evidence.js:186-203 | on the values in ascending order: p50 stands halfway and p95 at nineteen twentieths of the way from the first to the last, in proportion between two values, each rounded to the nearest integer |
| `TimingBatch.MetricPermutes` | scripts/artist-detail-local-timing-batch-evidence.js:195-203 | a metric summary does not depend on the order of the values |
| `TimingBatch.CreateOutcomeCounts` | scripts/artist-detail-local-timing-batch-evidence.js:224-230 | the counting loop yields the number of samples of each outcome |
| `TimingBatch.CreateStateCounts` | scripts/artist-detail-local-timing-batch-evidence.js:232-236 | the counting loop yields the number of samples of each presentation state |
| `TimingBatch.EndpointCountsConserved` | scripts/artist-detail-local-timing-batch-evidence.js:205-230 | local metadata is counted once a sample, the other endpoints as often as the outcomes whose order contains them |
| `TimingBatch.EndpointTimingSpans` | scripts/artist-detail-local-timing-batch-evidence.js:205-221 | each summary of an endpoint spans the measurements of its own kind over all requests to that endpoint |
| `TimingBatch.EndpointsInOrder` | scripts/artist-detail-local-timing-batch-evidence.js:205-222 | there is one summary for each endpoint that some sample asked, and they stand in the fixed order |
| `TimingBatch.BatchExact` | scripts/artist-detail-local-timing-batch-evidence.js:246-287 | a batch is made exactly of two to five captures that are each accepted alone, and holds what each of them comes to |
| `TimingBatch.SummaryWithinBounds` | scripts/artist-detail-local-timing-batch-evidence.js:67-184 | a recomputed summary passes every check made of the summary fields on their own |
| `TimingBatch.ContractExact` | scripts/artist-detail-local-timing-batch-evidence.js:289-346 | the contract accepts exactly the evidence whose summary equals the recomputation over its samples, and returns it with samples normalised |
| `TimingBatch.BuilderAccepted` | scripts/artist-detail-local-timing-batch-evidence.js:262-346 | everything the builder makes is accepted and returned unchanged |
| `TimingBatch.SummaryPermutes` | scripts/artist-detail-local-timing-batch-evidence.js:195-243 | the whole summary is the same for every order of the samples |
| `TimingAssessment.BatchBranches` | scripts/artist-detail-local-timing-assessment.js:81-101 | the decision over counts, in terms of the samples behind the counts |
| `TimingAssessment.SingleCountsAsBatch` | scripts/artist-detail-local-timing-assessment.js:57-79 | a single capture is counted as a batch of one |
| `TimingAssessment.AloneExact` | scripts/artist-detail-local-timing-assessment.js:81-101 | the action for a single capture, on its presentation state and outcome |
| `TimingAssessment.ConsistencyExact` | scripts/artist-detail-local-timing-batch-evidence.js:232-243 | route and presentation are called consistent if and only if no two samples differ in them |
| `TimingAssessment.BatchAgreesWithSamples` | scripts/artist-detail-local-timing-assessment.js:57-101 | all five actions of a batch characterised by what its samples would be told alone |
| `TimingAssessment.AssessmentIgnoresOrder` | scripts/artist-detail-local-timing-assessment.js:81-101 | the action does not depend on the order of the samples |
| `TimingAssessment.AssessmentFollowsSamples` | scripts/artist-detail-local-timing-assessment.js:108-117 | evidence that is handed in and accepted gets the action of its own samples |
| `TagRetention.SelectDeletionCandidates` | scripts/docker-hub-tag-maintenance.js:88-120 | refuses a negative count and unnamed records; otherwise selects as `SelectionOf` says |
| `TagRetention.SelectionExact` | scripts/docker-hub-tag-maintenance.js:28-37 | kept and deleted are together exactly the listing, nothing protected is deleted, exactly the eligible tags beyond the count are, and none newer than a kept one |
| `TagRetention.NewestKept` | scripts/docker-hub-tag-maintenance.js:28-37 | the kept tags are the protected ones and then the newest others; these and the deleted ones are listed newest first, by time with a missing one as 0 and then by name, and each of the former ranks in front of each of the latter |
| `TagRetention.OrderIndependent` | scripts/docker-hub-tag-maintenance.js:110-119 | for distinct names the tags to delete do not depend on the listing order |
| `TagRetention.MaintainDockerHubTags` | scripts/docker-hub-tag-maintenance.js:210-260 | the deletion loop deletes candidates in order up to the first failure; it reports success exactly when all were confirmed, and a dry run deletes nothing |
| `TagRetention.RerunConverges` | scripts/docker-hub-tag-maintenance.js:231-247 | after interrupted deletions the next run keeps the same tags and deletes exactly the rest |
| `TagRetention.SecondRunIdle` | scripts/docker-hub-tag-maintenance.js:231-247 | after all deletions another run selects nothing, whether or not names repeat |
| `TagRetention.KeptSurviveExact` | scripts/docker-hub-tag-maintenance.js:185-208 | the kept tags survive deletion by name if and only if the listing has no two unprotected tags of one name with fewer than the count ranking ahead of the one and more than the count up to the other |
| `TagRetention.DistinctNamesKept` | scripts/docker-hub-tag-maintenance.js:185-208 | with distinct names every kept tag survives |
| `TagRetention.RepeatedNameLost` | scripts/docker-hub-tag-maintenance.js:185-208 | a name listed twice, once kept and once deleted, is lost |
| `RequestObserver.ArtistDetailTimingObserver.OnRequest` | scripts/measure-artist-detail-local-timing.js:217-225 | the start of a request takes the observer where `HandleRequest` says |
| `RequestObserver.ArtistDetailTimingObserver.OnResponse` | scripts/measure-artist-detail-local-timing.js:233-253 | the part behind the await takes the observer where `FinishRecording` says |
| `RequestObserver.ArtistDetailTimingObserver.OnRequestFailed` | scripts/measure-artist-detail-local-timing.js:260-268 | a failed request is recorded and its waiter told |
| `RequestObserver.ArtistDetailTimingObserver.AwaitStart` | scripts/measure-artist-detail-local-timing.js:270-285 | waiting for a start takes the observer where `WaitForStart` says |
| `RequestObserver.ArtistDetailTimingObserver.OnStartTimeout` | scripts/measure-artist-detail-local-timing.js:277-282 | a timer only acts on the waiter that is still registered |
| `RequestObserver.ArtistDetailTimingObserver.AwaitCompletion` | scripts/measure-artist-detail-local-timing.js:287-299 | waiting for a completion takes the observer where `WaitForCompletion` says |
| `RequestObserver.ObserverInv` | scripts/measure-artist-detail-local-timing.js:177-317 | under every order of events: a registered start waiter has not started, a registered completion waiter has neither completed nor failed, and every promise is settled at most once and truthfully |
| `RequestObserver.RegisteredIsTold` | scripts/measure-artist-detail-local-timing.js:193-282 | a registered waiter is settled at once by the event it waits for, by its timer or by a failure, and is told which; an observation it is handed is the one recorded |
| `RequestObserver.NoWakeupLostExact` | scripts/measure-artist-detail-local-timing.js:270-299 | no caller waits in vain if and only if nobody began to wait while an earlier wait of the same kind for the same endpoint was unsettled |
| `RequestObserver.OrphansNeverSettle` | scripts/measure-artist-detail-local-timing.js:193-215 | a waiter that was replaced is never settled by any later events |
| `RequestObserver.PendingWaitsAreTimely` | scripts/measure-artist-detail-local-timing.js:270-299 | as long as waits do not overlap, whoever still waits waits for something that has not happened |
| `RequestObserver.OverlappingWaitsLose` | scripts/measure-artist-detail-local-timing.js:275-276 | two overlapping waits for one start: the first caller is never told |
| `RequestObserver.OriginIsFirst` | scripts/measure-artist-detail-local-timing.js:241 | over any order of events the origin of the capture is the start time that the first response of a recorded request with a start time brings, and unset without one |
| `RequestObserver.RecordedExact` | scripts/measure-artist-detail-local-timing.js:155-253 | a response counts exactly when status and times are usable and the request began no earlier than the origin |
| `RequestObserver.FinishedIsRecorded` | scripts/measure-artist-detail-local-timing.js:227-253 | over any run, a finished request of an endpoint that is not completed is recorded when its response comes, whatever happens in between: completed if the response is usable and failed otherwise, with nobody left waiting for it |
| `RequestObserver.ObservationShown` | scripts/measure-artist-detail-local-timing.js:155-172 | an observation holds the endpoint, the hundreds of the status, and in whole milliseconds the duration, and start and end since the origin |
| `StableSort.SortSorts` | scripts/browser-test-evidence-review.js:160-162 | sorting yields the same elements in key order |
| `StableSort.SortFixpoint` | scripts/browser-test-evidence-review.js:160-162 | a list already in order is left as it is |

## Left out

- Everything under `src/` and `testing/`, workflow text contracts, summaries and rendering, command-line and
  environment input, copyright and hygiene scanners, schema snapshots, smoke scenarios and SQL probes: I/O, constant
  tables or one-branch checks.
- Docker, `gh`, `oras`, Playwright, HTTP and the file system appear only as replies; a file write either happens or
  does not.
- Hashes, JSON, dates and most regular expressions: commits are values compared for equality, times are integers or,
  where their form matters, text with a mark that says whether it can be read, and a record either satisfies its field
  checks or is not representable. The patterns that a property depends on (image names and tags, migration names,
  hexadecimal identifiers, forms of time) are modelled on strings.
- Strings are sequences of Unicode scalar values rather than UTF-16 code units, and lower-casing is that of ASCII
  letters; `localeCompare` is the order of integers standing for names.
- Numbers are unbounded: identifiers, sizes and counts are taken to be safe integers, except for `ttl_seconds`, where
  the bound is checked.
- Floating point: durations and percentiles are exact rationals, so `0.95` is 19/20 and only `Math.round` rounds.
- The ownership comment in a release body is the list of comments that start in it; upload addresses are the
  identifier of the release they address; asset files are validated before a run (`Validated`).
- The release operations take inputs that are already normalised; the image plan checks its own. Its digest reference
  is a name and a digest, so cutting the text at the at sign is not modelled.
- Remote assets in a state other than `uploaded` exist only as assets the checks refuse: calls take effect wholly or
  not at all.
- Two overlapping finalizations on one host: the campaign results are for runs one after the other; interference from
  anybody is covered by `ReleaseSafety`, which promises less.
- The bounds of 2 to 5 timing samples and 10 review samples are constants of the contracts; the arithmetic is proved
  for any length.
- A workflow run is taken to keep its start time; re-running an old workflow run, which gives it a new one, is not
  modelled.
- Tool versions in the schema checks are pairs of numbers, and a captured notification state without the expected
  shape is one value (None).
- Events for requests to other addresses, and `stop()`, which only ends the stream of events, are not modelled by the
  observer.
- Docker Hub listing pages and the access token request: the listing is one list of records.
- Candidate tag plans and `readReleaseTagWorkflowInputs`: string building and environment checks.
- Redaction.RedactionCompleteExact: covers lists of secrets without brackets; a single secret of any characters has
  its own condition (`Redaction.SingleSecretExact`), and for all other lists the condition is the finite one of
  `RedactionBound.ShortTextsDecide`.
- OutputStreams.BothStreamsReported: the condition is sufficient only; a switch in the middle of a line may be
  harmless, for instance when the other stream writes nothing.
