/**
 The phase checker of scripts/docker-candidate-schema-checks.js, shared by any number of concurrent calls. A call
 runs without interruption from one await to the next; at an await, any other call may go on.
 */
module SchemaPhases {
  import opened Common
  import opened SchemaManifest
  import opened SchemaNotifications

  datatype Phase = FreshInstall | ExistingDataRestart | Baseline | Upgraded

  function InitialPhase(phase: Phase): Phase {
    match phase
    case Upgraded => Baseline
    case ExistingDataRestart => FreshInstall
    case _ => phase
  }

  predicate IsSeed(phase: Phase) {
    InitialPhase(phase) == phase
  }

  datatype Identity = Identity(database: string, username: string, postgresVersion: int)

  /** What the packaged probe reports; a row that it did not find has no columns. */
  datatype Probe = Probe(
    manifest: seq<ManifestRow>,
    ledger: seq<LedgerRow>,
    user: Row,
    request: Row,
    identity: Identity,
    nodeMajor: int,
    notifications: Option<Continuity>,
    notificationSchema: Option<Schema>,
    indexes: seq<IndexRow>)

  datatype Snapshot = Snapshot(fixture: Fixture, composeArgs: seq<string>, probe: Probe)

  datatype Config = Config(expectedMigration: string, expectedIndexes: map<string, string>, parseDate: Clock)

  /** A call past its prelude; `previous` is the seed's snapshot as it was found then. */
  datatype Call = Call(phase: Phase, composeArgs: seq<string>, fixture: Fixture, previous: Option<Snapshot>)

  datatype Version = Version(major: nat, minor: nat)

  /** The command whose result a call is waiting for. */
  datatype Waiting =
    | AtProbe(call: Call)
    | AtDump(call: Call, probe: Probe)
    | AtRestore(call: Call, probe: Probe, dump: Version)
    | AtHelp(call: Call, probe: Probe, dump: Version, restore: Version)

  datatype Reply = Threw | Probed(probe: Probe) | Versioned(version: Version) | Helped(usage: bool)

  // ----- The checks between the awaits -----

  const NODE_MAJOR := 24
  const POSTGRES_MAJOR := 18
  const MINIMUM_POSTGRES := 180006

  /** verifyFixture: the user and the request of the fixture, in the state the seed left them in. */
  predicate FixtureShown(probe: Probe, fixture: Fixture) {
    && Field(probe.user, "id", Text(fixture.userId)) && Field(probe.user, "username", Text(fixture.username))
    && Field(probe.user, "is_disabled", Flag(true))
    && Field(probe.request, "id", Text(fixture.requestId))
    && Field(probe.request, "requested_by_user_id", Text(fixture.userId))
    && ("requested_for_user_id" in probe.request ==> probe.request["requested_for_user_id"] == Text(fixture.userId))
    && Field(probe.request, "request_kind", Text("release"))
    && Field(probe.request, "request_state", Text("needs_review"))
    && "evidence" in probe.request && probe.request["evidence"].Record?
    && Field(probe.request["evidence"].fields, "fixture", Text("docker-candidate-continuity"))
  }

  /** verifyPreservation: rows, user, request fields and database identity are as the seed left them. */
  predicate Preserved(previous: Probe, probe: Probe) {
    && RowsPreserved(previous.ledger, probe.ledger)
    && probe.user == previous.user
    && (forall column | column in previous.request :: Field(probe.request, column, previous.request[column]))
    && probe.identity.database == previous.identity.database && probe.identity.username == previous.identity.username
  }

  predicate VersionsGood(phase: Phase, probe: Probe) {
    && probe.nodeMajor == NODE_MAJOR
    && 0 <= probe.identity.postgresVersion <= 999999 && probe.identity.postgresVersion / 10000 == POSTGRES_MAJOR
    && (phase == Baseline || probe.identity.postgresVersion >= MINIMUM_POSTGRES)
  }

  predicate CandidateGood(cfg: Config, phase: Phase, probe: Probe) {
    phase != Baseline ==>
      && (exists row | row in probe.ledger :: row.filename == cfg.expectedMigration)
      && IndexesAccepted(probe.indexes, cfg.expectedIndexes)
  }

  predicate AddedGood(phase: Phase, previous: Probe, probe: Probe) {
    if phase == Upgraded then |probe.ledger| - |previous.ledger| >= 0 else |probe.ledger| - |previous.ledger| == 0
  }

  function NotificationsBefore(call: Call): Option<Continuity> {
    if call.previous.Some? then call.previous.value.probe.notifications else None
  }

  ghost predicate NotificationsGood(cfg: Config, call: Call, probe: Probe) {
    var before, requireCurrent := NotificationsBefore(call), call.phase != Baseline;
    ContinuityGood(cfg.parseDate, probe.notifications, probe.notificationSchema, before, call.fixture, requireCurrent)
  }

  ghost predicate ProbeGood(cfg: Config, call: Call, probe: Probe) {
    && ManifestGood(probe.manifest, probe.ledger)
    && FixtureShown(probe, call.fixture) && NotificationsGood(cfg, call, probe) && VersionsGood(call.phase, probe)
    && (call.previous.Some? ==>
      Preserved(call.previous.value.probe, probe) && AddedGood(call.phase, call.previous.value.probe, probe))
    && CandidateGood(cfg, call.phase, probe)
  }

  predicate ToolsGood(phase: Phase, dump: Version, restore: Version) {
    dump == restore && dump.major == POSTGRES_MAJOR
      && (phase == Baseline || dump.major * 10000 + dump.minor >= MINIMUM_POSTGRES)
  }

  // ----- The checker and its steps -----

  /** The variables the calls share. */
  datatype Shared = Shared(snapshots: map<Phase, Snapshot>, busy: bool)

  /** What one uninterrupted stretch of a call ends in. */
  datatype Stretch = Suspended(waiting: Waiting) | Failed | Passed(pass: Pass)

  /** A call that passed, with what it was told. */
  datatype Pass = Pass(call: Call, probe: Probe, dump: Version, restore: Version)

  predicate ComposeGood(composeArgs: seq<string>) {
    composeArgs != [] && composeArgs[0] == "compose"
  }

  /** From the call to its first await. An unknown phase is None; `fixture` is what randomUUID would yield. */
  function Begin(shared: Shared, phase: Option<Phase>, composeArgs: seq<string>, fixture: Fixture): (Shared, Stretch) {
    if phase.None? || shared.busy || !ComposeGood(composeArgs) then (shared, Failed)
    else
      var p, initial := phase.value, InitialPhase(phase.value);
      // The lock is taken here, and given back by whatever ends the call.
      if IsSeed(p) then
        if initial in shared.snapshots then (shared.(busy := false), Failed)
        else (shared.(busy := true), Suspended(AtProbe(Call(p, composeArgs, fixture, None))))
      else if initial !in shared.snapshots || shared.snapshots[initial].composeArgs != composeArgs
      then (shared.(busy := false), Failed)
      else
        var previous := shared.snapshots[initial];
        (shared.(busy := true), Suspended(AtProbe(Call(p, composeArgs, previous.fixture, Some(previous)))))
  }

  /** From one await to the next, or to the end of the call. */
  ghost function Resume(cfg: Config, shared: Shared, waiting: Waiting, reply: Reply): (Shared, Stretch) {
    match (waiting, reply)
    case (AtProbe(call), Probed(probe)) =>
      if ProbeGood(cfg, call, probe) then (shared, Suspended(AtDump(call, probe))) else (shared.(busy := false), Failed)
    case (AtDump(call, probe), Versioned(dump)) => (shared, Suspended(AtRestore(call, probe, dump)))
    case (AtRestore(call, probe, dump), Versioned(restore)) =>
      if ToolsGood(call.phase, dump, restore)
      then (shared, Suspended(AtHelp(call, probe, dump, restore)))
      else (shared.(busy := false), Failed)
    case (AtHelp(call, probe, dump, restore), Helped(usage)) =>
      if !usage then (shared.(busy := false), Failed)
      else
        var snapshots :=
          if IsSeed(call.phase)
          then shared.snapshots[call.phase := Snapshot(call.fixture, call.composeArgs, probe)]
          else shared.snapshots;
        (Shared(snapshots, false), Passed(Pass(call, probe, dump, restore)))
    case _ => (shared.(busy := false), Failed)
  }

  /** The closure of createCandidateSchemaChecks: the same steps on its two variables. */
  class CandidateSchemaChecks {
    const cfg: Config
    var snapshots: map<Phase, Snapshot>
    var busy: bool

    function State(): Shared
      reads this
    {
      Shared(snapshots, busy)
    }

    constructor (cfg: Config)
      ensures this.cfg == cfg && State() == Shared(map[], false)
    {
      this.cfg, snapshots, busy := cfg, map[], false;
    }

    method CheckPhase(phase: Option<Phase>, composeArgs: seq<string>, fixture: Fixture) returns (r: Stretch)
      modifies this
      ensures (State(), r) == Begin(old(State()), phase, composeArgs, fixture)
    {
      r := Failed;
      if phase.None? || busy || composeArgs == [] || composeArgs[0] != "compose" {
        return;
      }
      busy := true;
      var initial := InitialPhase(phase.value);
      var seed := initial == phase.value;
      var previous := if initial in snapshots then Some(snapshots[initial]) else None;
      if (seed && previous.Some?) || (!seed && previous.None?) || (!seed && previous.value.composeArgs != composeArgs) {
        busy := false;
        return;
      }
      var used := if seed then fixture else previous.value.fixture;
      r := Suspended(AtProbe(Call(phase.value, composeArgs, used, if seed then None else previous)));
    }

    method Continue(waiting: Waiting, reply: Reply) returns (r: Stretch)
      modifies this
      ensures (State(), r) == Resume(cfg, old(State()), waiting, reply)
    {
      r := Failed;
      var call := waiting.call;
      if waiting.AtProbe? && reply.Probed? {
        var good := VerifyProbe(call, reply.probe);
        if good {
          return Suspended(AtDump(call, reply.probe));
        }
      } else if waiting.AtDump? && reply.Versioned? {
        return Suspended(AtRestore(call, waiting.probe, reply.version));
      } else if waiting.AtRestore? && reply.Versioned? {
        var good := VerifyTools(call.phase, waiting.dump, reply.version);
        if good {
          return Suspended(AtHelp(call, waiting.probe, waiting.dump, reply.version));
        }
      } else if waiting.AtHelp? && reply.Helped? && reply.usage {
        if IsSeed(call.phase) {
          snapshots := snapshots[call.phase := Snapshot(call.fixture, call.composeArgs, waiting.probe)];
        }
        r := Passed(Pass(call, waiting.probe, waiting.dump, waiting.restore));
      }
      busy := false;
    }

    /** verifyFixture, check by check. */
    method VerifyFixture(probe: Probe, fixture: Fixture) returns (ok: bool)
      ensures ok <==> FixtureShown(probe, fixture)
    {
      var user, request := probe.user, probe.request;
      if "id" !in user || user["id"] != Text(fixture.userId) {
        return false;
      }
      if "username" !in user || user["username"] != Text(fixture.username) {
        return false;
      }
      if "is_disabled" !in user || user["is_disabled"] != Flag(true) {
        return false;
      }
      if "id" !in request || request["id"] != Text(fixture.requestId) {
        return false;
      }
      if "requested_by_user_id" !in request || request["requested_by_user_id"] != Text(fixture.userId) {
        return false;
      }
      if "requested_for_user_id" in request && request["requested_for_user_id"] != Text(fixture.userId) {
        return false;
      }
      if "request_kind" !in request || request["request_kind"] != Text("release") {
        return false;
      }
      if "request_state" !in request || request["request_state"] != Text("needs_review") {
        return false;
      }
      if "evidence" !in request || !request["evidence"].Record? || "fixture" !in request["evidence"].fields {
        return false;
      }
      return request["evidence"].fields["fixture"] == Text("docker-candidate-continuity");
    }

    /** verifyPreservation, and the count of what was added. */
    method VerifyPreservation(phase: Phase, previous: Probe, probe: Probe) returns (ok: bool)
      requires forall i, j | 0 <= i < j < |probe.ledger| :: probe.ledger[i].filename != probe.ledger[j].filename
      ensures ok <==> Preserved(previous, probe) && AddedGood(phase, previous, probe)
    {
      ok := VerifyRowsPreserved(previous.ledger, probe.ledger);
      if !ok || probe.user != previous.user {
        return false;
      }
      if exists column | column in previous.request ::
        column !in probe.request || probe.request[column] != previous.request[column]
      {
        return false;
      }
      if probe.identity.database != previous.identity.database
        || probe.identity.username != previous.identity.username
      {
        return false;
      }
      var added := |probe.ledger| - |previous.ledger|;
      match phase {
        case Upgraded =>
          ok := added >= 0;
        case _ =>
          ok := added == 0;
      }
    }

    method VerifyVersions(phase: Phase, probe: Probe) returns (ok: bool)
      ensures ok <==> VersionsGood(phase, probe)
    {
      var postgresVersion := probe.identity.postgresVersion;
      if postgresVersion < 0 || postgresVersion > 999999 {
        return false;
      }
      if probe.nodeMajor != 24 || postgresVersion / 10000 != 18 {
        return false;
      }
      match phase {
        case Baseline =>
          ok := true;
        case _ =>
          ok := postgresVersion >= 180006;
      }
    }

    /** Migration and indexes of the candidate; an earlier release is not asked for them. */
    method VerifyCandidate(phase: Phase, probe: Probe) returns (ok: bool)
      ensures ok <==> CandidateGood(cfg, phase, probe)
    {
      match phase {
        case Baseline =>
          return true;
        case _ =>
      }
      var found := false;
      for i := 0 to |probe.ledger|
        invariant found <==> exists row | row in probe.ledger[..i] :: row.filename == cfg.expectedMigration
      {
        assert probe.ledger[..i + 1] == probe.ledger[..i] + [probe.ledger[i]];
        found := found || probe.ledger[i].filename == cfg.expectedMigration;
      }
      assert probe.ledger[..|probe.ledger|] == probe.ledger;
      if !found {
        return false;
      }
      ok := VerifyIndexes(probe.indexes, cfg.expectedIndexes);
    }

    method VerifyProbe(call: Call, probe: Probe) returns (ok: bool)
      ensures ok <==> ProbeGood(cfg, call, probe)
    {
      ok := VerifyManifest(probe.manifest, probe.ledger);
      if !ok {
        return;
      }
      ok := VerifyFixture(probe, call.fixture);
      if !ok {
        return;
      }
      ok := VerifyNotificationContinuity(cfg.parseDate, probe.notifications, probe.notificationSchema,
        NotificationsBefore(call), call.fixture, call.phase != Baseline);
      if !ok {
        return;
      }
      ok := VerifyVersions(call.phase, probe);
      if !ok {
        return;
      }
      if call.previous.Some? {
        ok := VerifyPreservation(call.phase, call.previous.value.probe, probe);
        if !ok {
          return;
        }
      }
      ok := VerifyCandidate(call.phase, probe);
    }

    /** The tools' versions, compared as the script compares them. */
    method VerifyTools(phase: Phase, dump: Version, restore: Version) returns (ok: bool)
      ensures ok <==> ToolsGood(phase, dump, restore)
    {
      if dump.major != restore.major || dump.minor != restore.minor || dump.major != 18 {
        return false;
      }
      match phase {
        case Baseline =>
          ok := true;
        case _ =>
          ok := dump.major * 10000 + dump.minor >= 180006;
      }
    }
  }

  // ----- Any number of calls, interleaved at their awaits -----

  /** All calls in flight, and what has passed so far, in order. */
  datatype System = System(shared: Shared, inFlight: map<int, Waiting>, passed: seq<Pass>)

  datatype Event =
    | Started(id: int, phase: Option<Phase>, composeArgs: seq<string>, fixture: Fixture)
    | Answered(id: int, reply: Reply)

  function Landed(s: System, id: int, shared: Shared, stretch: Stretch): System {
    match stretch
    case Suspended(waiting) => System(shared, s.inFlight[id := waiting], s.passed)
    case Failed => System(shared, s.inFlight - {id}, s.passed)
    case Passed(pass) => System(shared, s.inFlight - {id}, s.passed + [pass])
  }

  /** A call identifier is used for one call only; an answer for a call that is not waiting changes nothing. */
  ghost function Step(cfg: Config, s: System, e: Event): System {
    match e
    case Started(id, phase, composeArgs, fixture) =>
      if id in s.inFlight then s
      else
        var (shared, stretch) := Begin(s.shared, phase, composeArgs, fixture);
        Landed(s, id, shared, stretch)
    case Answered(id, reply) =>
      if id !in s.inFlight then s
      else
        var (shared, stretch) := Resume(cfg, s.shared, s.inFlight[id], reply);
        Landed(s, id, shared, stretch)
  }

  ghost function Run(cfg: Config, events: seq<Event>): System {
    if events == [] then System(Shared(map[], false), map[], [])
    else Step(cfg, Run(cfg, events[..|events| - 1]), events[|events| - 1])
  }

  // ----- What holds in every reachable state -----

  type Record = seq<Pass>

  /** Some seed among the first n that passed had this phase, these compose arguments, this fixture and this probe. */
  predicate SeedPassed(passed: Record, n: nat, phase: Phase, snap: Snapshot) {
    exists j | 0 <= j < n && j < |passed| :: passed[j].call.phase == phase && SnapshotOf(passed[j]) == snap
  }

  function SnapshotOf(entry: Pass): Snapshot {
    Snapshot(entry.call.fixture, entry.call.composeArgs, entry.probe)
  }

  /** The snapshots after a call has passed: a seed leaves one. */
  function WithSeed(snapshots: map<Phase, Snapshot>, entry: Pass): map<Phase, Snapshot> {
    if IsSeed(entry.call.phase) then snapshots[entry.call.phase := SnapshotOf(entry)] else snapshots
  }

  /**
   A seed has no predecessor; a restart or an upgrade builds on the seed of its kind, under the same compose
   arguments.
   */
  predicate CallGood(passed: Record, n: nat, call: Call) {
    if IsSeed(call.phase) then call.previous.None?
    else
      && call.previous.Some? && call.previous.value.composeArgs == call.composeArgs
      && call.previous.value.fixture == call.fixture
      && SeedPassed(passed, n, InitialPhase(call.phase), call.previous.value)
  }

  ghost predicate PassedGood(cfg: Config, passed: Record) {
    && (forall i | 0 <= i < |passed| ::
         CallGood(passed, i, passed[i].call) && ProbeGood(cfg, passed[i].call, passed[i].probe)
          && ToolsGood(passed[i].call.phase, passed[i].dump, passed[i].restore))
    && (forall i, j | 0 <= i < j < |passed| && IsSeed(passed[i].call.phase) && IsSeed(passed[j].call.phase) ::
          passed[i].call.phase != passed[j].call.phase)
  }

  /** The lock is held exactly when a call is past acquisition, and there is never more than one. */
  predicate LockHeld(s: System) {
    && (forall a, b | a in s.inFlight && b in s.inFlight :: a == b)
    && (s.shared.busy <==> s.inFlight != map[])
  }

  /** Snapshots are exactly what the seeds that passed have left. */
  predicate SnapshotsEarned(snapshots: map<Phase, Snapshot>, passed: Record) {
    && (forall p | p in snapshots :: IsSeed(p) && SeedPassed(passed, |passed|, p, snapshots[p]))
    && (forall i | 0 <= i < |passed| && IsSeed(passed[i].call.phase) :: passed[i].call.phase in snapshots)
  }

  ghost predicate WaitingGood(cfg: Config, shared: Shared, passed: Record, w: Waiting) {
    && CallGood(passed, |passed|, w.call)
    && (IsSeed(w.call.phase) ==> w.call.phase !in shared.snapshots)
    && (!w.AtProbe? ==> ProbeGood(cfg, w.call, w.probe))
    && (w.AtHelp? ==> ToolsGood(w.call.phase, w.dump, w.restore))
  }

  ghost predicate Inv(cfg: Config, s: System) {
    && LockHeld(s) && SnapshotsEarned(s.shared.snapshots, s.passed) && PassedGood(cfg, s.passed)
    && forall id | id in s.inFlight :: WaitingGood(cfg, s.shared, s.passed, s.inFlight[id])
  }

  // What a call can lead to before its first await: it is refused, or it takes the lock.
  lemma BeginOutcomes(cfg: Config, shared: Shared, passed: Record, phase: Option<Phase>, composeArgs: seq<string>,
      fixture: Fixture)
    requires SnapshotsEarned(shared.snapshots, passed)
    ensures var (shared', stretch) := Begin(shared, phase, composeArgs, fixture);
      match stretch
      case Suspended(w) => !shared.busy && shared' == shared.(busy := true) && WaitingGood(cfg, shared', passed, w)
      case Failed => shared' == shared
      case Passed(_) => false
  {
    hide ProbeGood, ToolsGood, SeedPassed, ComposeGood;
  }

  lemma BeginKeeps(cfg: Config, s: System, id: int, phase: Option<Phase>, composeArgs: seq<string>, fixture: Fixture)
    requires Inv(cfg, s) && id !in s.inFlight
    ensures Inv(cfg, Step(cfg, s, Started(id, phase, composeArgs, fixture)))
    ensures s.shared.busy ==> Step(cfg, s, Started(id, phase, composeArgs, fixture)) == s
  {
    BeginOutcomes(cfg, s.shared, s.passed, phase, composeArgs, fixture);
    hide Begin, WaitingGood, PassedGood, SnapshotsEarned;
    assert s.inFlight - {id} == s.inFlight;
    var (shared, stretch) := Begin(s.shared, phase, composeArgs, fixture);
    if stretch.Suspended? {
      assert s.inFlight == map[];
      FirstInFlight(cfg, s, id, shared, stretch.waiting);
    }
  }

  lemma FirstInFlight(cfg: Config, s: System, id: int, shared: Shared, w: Waiting)
    requires SnapshotsEarned(shared.snapshots, s.passed) && PassedGood(cfg, s.passed)
    requires s.inFlight == map[] && shared.busy && WaitingGood(cfg, shared, s.passed, w)
    ensures Inv(cfg, System(shared, s.inFlight[id := w], s.passed))
  {
    hide WaitingGood, PassedGood, SnapshotsEarned;
    assert id in s.inFlight[id := w];
  }

  // What an answer can lead to.
  lemma ResumeOutcomes(cfg: Config, shared: Shared, passed: Record, w: Waiting, reply: Reply)
    requires WaitingGood(cfg, shared, passed, w)
    ensures var (shared', stretch) := Resume(cfg, shared, w, reply);
      match stretch
      case Suspended(w') => shared' == shared && WaitingGood(cfg, shared, passed, w')
      case Failed => shared' == shared.(busy := false)
      case Passed(pass) =>
        && pass.call == w.call && ProbeGood(cfg, pass.call, pass.probe)
        && ToolsGood(pass.call.phase, pass.dump, pass.restore) && !shared'.busy
        && shared'.snapshots == WithSeed(shared.snapshots, pass)
  {
    hide ProbeGood, ToolsGood, CallGood, IsSeed;
  }

  lemma ResumeKeeps(cfg: Config, s: System, id: int, reply: Reply)
    requires Inv(cfg, s) && id in s.inFlight
    ensures Inv(cfg, Step(cfg, s, Answered(id, reply)))
  {
    hide ProbeGood, IsSeed, Resume, PassedGood, SnapshotsEarned;
    var w := s.inFlight[id];
    ResumeOutcomes(cfg, s.shared, s.passed, w, reply);
    var (shared, stretch) := Resume(cfg, s.shared, w, reply);
    OnlyOneInFlight(s, id);
    if stretch.Passed? {
      PassKeeps(cfg, s.shared.snapshots, s.passed, stretch.pass);
    }
  }

  lemma OnlyOneInFlight(s: System, id: int)
    requires LockHeld(s) && id in s.inFlight
    ensures s.inFlight - {id} == map[] && |s.inFlight| == 1
  {
    forall k | k in s.inFlight.Keys
      ensures k == id
    {
      assert k in s.inFlight;
    }
    assert s.inFlight.Keys == {id};
    assert |s.inFlight| == |s.inFlight.Keys|;
  }

  // One more pass: a seed leaves its snapshot, anything else leaves none.
  lemma PassKeeps(cfg: Config, snapshots: map<Phase, Snapshot>, passed: Record, entry: Pass)
    requires SnapshotsEarned(snapshots, passed) && PassedGood(cfg, passed)
    requires CallGood(passed, |passed|, entry.call) && ProbeGood(cfg, entry.call, entry.probe)
    requires ToolsGood(entry.call.phase, entry.dump, entry.restore)
    requires IsSeed(entry.call.phase) ==> entry.call.phase !in snapshots
    ensures SnapshotsEarned(WithSeed(snapshots, entry), passed + [entry]) && PassedGood(cfg, passed + [entry])
  {
    hide ProbeGood, ToolsGood, IsSeed, InitialPhase, CallGood;
    var passed' := passed + [entry];
    SnapshotsStayEarned(snapshots, passed, entry);
    forall i | 0 <= i < |passed'|
      ensures CallGood(passed', i, passed'[i].call)
    {
      CallStaysGood(passed, i, passed'[i].call, entry);
    }
    hide SeedPassed;
    if IsSeed(entry.call.phase) {
      assert forall i | 0 <= i < |passed| && IsSeed(passed[i].call.phase) :: passed[i].call.phase != entry.call.phase;
    }
  }

  lemma SnapshotsStayEarned(snapshots: map<Phase, Snapshot>, passed: Record, entry: Pass)
    requires SnapshotsEarned(snapshots, passed)
    requires IsSeed(entry.call.phase) ==> entry.call.phase !in snapshots
    ensures SnapshotsEarned(WithSeed(snapshots, entry), passed + [entry])
  {
    hide IsSeed, SnapshotOf;
    var passed' := passed + [entry];
    var snapshots' := WithSeed(snapshots, entry);
    forall p | p in snapshots'
      ensures IsSeed(p) && SeedPassed(passed', |passed'|, p, snapshots'[p])
    {
      if IsSeed(entry.call.phase) && p == entry.call.phase {
        assert passed'[|passed|] == entry;
      } else {
        var j :| 0 <= j < |passed| && passed[j].call.phase == p && SnapshotOf(passed[j]) == snapshots[p];
        assert passed'[j] == passed[j];
      }
    }
  }

  lemma CallStaysGood(passed: Record, n: nat, call: Call, entry: Pass)
    requires n <= |passed| && CallGood(passed, n, call)
    ensures CallGood(passed + [entry], n, call)
  {
    hide IsSeed, InitialPhase;
    if !IsSeed(call.phase) {
      var j :| 0 <= j < n && passed[j].call.phase == InitialPhase(call.phase)
        && SnapshotOf(passed[j]) == call.previous.value;
      assert (passed + [entry])[j] == passed[j];
    }
  }

  lemma {:induction false} RunInv(cfg: Config, events: seq<Event>)
    ensures Inv(cfg, Run(cfg, events))
  {
    hide PassedGood, SnapshotsEarned, WaitingGood, Begin, Resume;
    if events == [] {
      NothingRun(cfg);
    } else {
      var s := Run(cfg, events[..|events| - 1]);
      RunInv(cfg, events[..|events| - 1]);
      match events[|events| - 1]
      case Started(id, phase, composeArgs, fixture) =>
        if id !in s.inFlight {
          BeginKeeps(cfg, s, id, phase, composeArgs, fixture);
        }
      case Answered(id, reply) =>
        if id in s.inFlight {
          ResumeKeeps(cfg, s, id, reply);
        }
    }
  }

  lemma NothingRun(cfg: Config)
    ensures Inv(cfg, System(Shared(map[], false), map[], []))
  {
  }

  lemma AnyKey<V>(m: map<int, V>) returns (k: int)
    requires m != map[]
    ensures k in m
  {
    assert (forall k :: k !in m) ==> m == map[];
    k :| k in m;
  }

  // ----- The promises -----

  /** Under every interleaving the lock is held exactly while one call is past acquisition. */
  lemma LockExact(cfg: Config, events: seq<Event>)
    ensures var s := Run(cfg, events); |s.inFlight| == if s.shared.busy then 1 else 0
  {
    hide Run;
    RunInv(cfg, events);
    var s := Run(cfg, events);
    if s.shared.busy {
      var id := AnyKey(s.inFlight);
      OnlyOneInFlight(s, id);
    }
  }

  /** A call that arrives while another is past acquisition is refused, and changes nothing for the other. */
  lemma RefusalHarmless(cfg: Config, events: seq<Event>, id: int, phase: Option<Phase>, composeArgs: seq<string>,
      fixture: Fixture)
    requires var s := Run(cfg, events); s.shared.busy && id !in s.inFlight
    ensures Run(cfg, events + [Started(id, phase, composeArgs, fixture)]) == Run(cfg, events)
  {
  }

  /** Snapshots only grow, by at most one at a time, and only when a seed passes that had none. */
  lemma SnapshotsGrow(cfg: Config, events: seq<Event>, e: Event)
    ensures var s, s' := Run(cfg, events), Run(cfg, events + [e]);
      || s'.shared.snapshots == s.shared.snapshots
      || (exists entry: Pass ::
           s'.passed == s.passed + [entry] && IsSeed(entry.call.phase) && entry.call.phase !in s.shared.snapshots
           && s'.shared.snapshots == s.shared.snapshots[entry.call.phase := SnapshotOf(entry)])
  {
    hide ProbeGood, ToolsGood, LockHeld, PassedGood, SnapshotsEarned, CallGood, ComposeGood;
    RunInv(cfg, events);
    assert (events + [e])[..|events|] == events;
    var s, s' := Run(cfg, events), Run(cfg, events + [e]);
    if e.Answered? && e.id in s.inFlight {
      var w := s.inFlight[e.id];
      var (shared, stretch) := Resume(cfg, s.shared, w, e.reply);
      if stretch.Passed? && IsSeed(w.call.phase) {
        assert s'.passed == s.passed + [stretch.pass];
      }
    }
  }

  /** Each initial phase passes at most once. */
  lemma SeedsPassOnce(cfg: Config, events: seq<Event>, i: nat, j: nat)
    requires var passed := Run(cfg, events).passed;
      i < |passed| && j < |passed| && IsSeed(passed[i].call.phase) && passed[i].call.phase == passed[j].call.phase
    ensures i == j
  {
    hide Run, IsSeed;
    RunInv(cfg, events);
  }

  /** Everything that passed was told a verified manifest, good versions and tools, and preserved data. */
  lemma PassedIsChecked(cfg: Config, events: seq<Event>, i: nat)
    requires i < |Run(cfg, events).passed|
    ensures var pass := Run(cfg, events).passed[i];
      ProbeGood(cfg, pass.call, pass.probe) && ToolsGood(pass.call.phase, pass.dump, pass.restore)
  {
    hide Run, ProbeGood, ToolsGood;
    RunInv(cfg, events);
  }

  /** The reported index is valid, ready, and a configured one as configured or without table and definition. */
  predicate IndexAsConfigured(row: IndexRow, expected: map<string, string>) {
    && row.valid && row.ready
    && if row.name in expected
       then row.definition == Some(expected[row.name]) && row.tableName == TableOf(expected[row.name])
       else row.definition.None? && row.tableName.None?
  }

  /**
   What every phase but the baseline has shown: the expected migration, and as many distinctly named indexes as are
   configured, each as configured.
   */
  ghost predicate CandidateShown(cfg: Config, probe: Probe) {
    && (exists k | 0 <= k < |probe.ledger| :: probe.ledger[k].filename == cfg.expectedMigration)
    && |probe.indexes| == |cfg.expectedIndexes|
    && (forall i, j | 0 <= i < j < |probe.indexes| :: probe.indexes[i].name != probe.indexes[j].name)
    && (forall k | 0 <= k < |probe.indexes| :: IndexAsConfigured(probe.indexes[k], cfg.expectedIndexes))
  }

  /** The packaged runtimes: Node 24, PostgreSQL 18 with tools of one version, all but the baseline recent enough. */
  predicate RuntimesShown(pass: Pass) {
    var server, dump := pass.probe.identity.postgresVersion, pass.dump;
    && pass.probe.nodeMajor == 24 && 180_000 <= server <= 189_999 && dump.major == 18
    && pass.restore.major == dump.major && pass.restore.minor == dump.minor
    && (pass.call.phase != Baseline ==> 180_006 <= server && 6 <= dump.minor)
  }

  /** The user and the request of the fixture were read back, in the state that a seed leaves them in. */
  predicate FixtureRead(pass: Pass) {
    var user, request, fixture := pass.probe.user, pass.probe.request, pass.call.fixture;
    && {"id", "username", "is_disabled"} <= user.Keys && user["id"] == Text(fixture.userId)
    && user["username"] == Text(fixture.username) && user["is_disabled"] == Flag(true)
    && {"id", "requested_by_user_id", "request_kind", "request_state", "evidence"} <= request.Keys
    && request["id"] == Text(fixture.requestId) && request["requested_by_user_id"] == Text(fixture.userId)
    && ("requested_for_user_id" in request ==> request["requested_for_user_id"] == Text(fixture.userId))
    && request["request_kind"] == Text("release") && request["request_state"] == Text("needs_review")
    && request["evidence"].Record? && "fixture" in request["evidence"].fields
    && request["evidence"].fields["fixture"] == Text("docker-candidate-continuity")
  }

  /** Under every interleaving: what a call that passed was told, field by field. */
  lemma PassedShown(cfg: Config, events: seq<Event>, i: nat)
    requires i < |Run(cfg, events).passed|
    ensures var pass := Run(cfg, events).passed[i];
      RuntimesShown(pass) && FixtureRead(pass) && (pass.call.phase != Baseline ==> CandidateShown(cfg, pass.probe))
  {
    PassedIsChecked(cfg, events, i);
    hide Run, ProbeGood, ToolsGood, RuntimesShown, FixtureRead, CandidateShown;
    var pass := Run(cfg, events).passed[i];
    ChecksShow(cfg, pass);
    if pass.call.phase != Baseline {
      CandidateChecksShow(cfg, pass);
    }
  }

  lemma ChecksShow(cfg: Config, pass: Pass)
    requires ProbeGood(cfg, pass.call, pass.probe) && ToolsGood(pass.call.phase, pass.dump, pass.restore)
    ensures RuntimesShown(pass) && FixtureRead(pass)
  {
    hide ManifestGood, NotificationsGood, Preserved, AddedGood, CandidateGood;
  }

  lemma CandidateChecksShow(cfg: Config, pass: Pass)
    requires ProbeGood(cfg, pass.call, pass.probe) && pass.call.phase != Baseline
    ensures CandidateShown(cfg, pass.probe)
  {
    hide ManifestGood, NotificationsGood, Preserved, AddedGood, FixtureShown, VersionsGood, TableOf;
    IndexNamesCount(pass.probe.indexes);
    var row :| row in pass.probe.ledger && row.filename == cfg.expectedMigration;
    var k :| 0 <= k < |pass.probe.ledger| && pass.probe.ledger[k] == row;
  }

  /** When each reported index carries a definition, every configured index is among them as configured. */
  lemma ConfiguredShown(cfg: Config, probe: Probe, name: string)
    requires CandidateShown(cfg, probe) && name in cfg.expectedIndexes
    requires forall k | 0 <= k < |probe.indexes| :: probe.indexes[k].definition.Some?
    ensures exists k | 0 <= k < |probe.indexes| ::
      probe.indexes[k].name == name && probe.indexes[k].definition == Some(cfg.expectedIndexes[name])
  {
    hide TableOf;
    IndexNamesCount(probe.indexes);
    assert IndexesAccepted(probe.indexes, cfg.expectedIndexes);
    IndexesExact(probe.indexes, cfg.expectedIndexes);
    assert name in IndexNames(probe.indexes);
    var row :| row in probe.indexes && row.name == name;
    var k :| 0 <= k < |probe.indexes| && probe.indexes[k] == row;
    assert IndexAsConfigured(probe.indexes[k], cfg.expectedIndexes);
  }

  /** The probe of an earlier release is judged alike whatever indexes it reports and whatever migration is due. */
  lemma BaselineJudgedAlike(cfg: Config, cfg': Config, shared: Shared, call: Call, probe: Probe, indexes: seq<IndexRow>)
    requires call.phase == Baseline && cfg'.parseDate == cfg.parseDate
    ensures Resume(cfg', shared, AtProbe(call), Probed(probe.(indexes := indexes))).1.Failed?
      <==> Resume(cfg, shared, AtProbe(call), Probed(probe)).1.Failed?
  {
    hide ManifestGood, ContinuityGood, RowsPreserved;
  }

  /** Which phases begin with nothing, and which one each of the others goes back to. */
  lemma PassedInPhase(cfg: Config, events: seq<Event>, i: nat) returns (j: nat)
    requires i < |Run(cfg, events).passed|
    ensures var passed := Run(cfg, events).passed;
      match passed[i].call.phase
      case FreshInstall => passed[i].call.previous.None?
      case Baseline => passed[i].call.previous.None?
      case ExistingDataRestart => j < i && passed[j].call.phase == FreshInstall && KeptSince(passed[j], passed[i])
      case Upgraded => j < i && passed[j].call.phase == Baseline && KeptSince(passed[j], passed[i])
  {
    j := 0;
    hide Run, ProbeGood, KeptSince, FixtureShown, LedgerHolds, NewNames, Inv;
    var passed := Run(cfg, events).passed;
    PassedIsChecked(cfg, events, i);
    if passed[i].call.phase == ExistingDataRestart || passed[i].call.phase == Upgraded {
      j := PassBuildsOnSeed(cfg, events, i);
      KeptSinceSeed(cfg, passed[j], passed[i]);
    } else {
      SeedHasNone(cfg, events, i);
    }
  }

  lemma SeedHasNone(cfg: Config, events: seq<Event>, i: nat)
    requires i < |Run(cfg, events).passed|
    requires Run(cfg, events).passed[i].call.phase == FreshInstall || Run(cfg, events).passed[i].call.phase == Baseline
    ensures Run(cfg, events).passed[i].call.previous.None?
  {
    hide Run, ProbeGood, ToolsGood;
    RunInv(cfg, events);
    var passed := Run(cfg, events).passed;
    assert CallGood(passed, i, passed[i].call);
  }

  lemma KeptSinceSeed(cfg: Config, seed: Pass, pass: Pass)
    requires ProbeGood(cfg, pass.call, pass.probe) && pass.call.previous == Some(SnapshotOf(seed))
    requires pass.call.composeArgs == seed.call.composeArgs
    ensures KeptSince(seed, pass)
  {
    hide ManifestGood, NotificationsGood, FixtureShown, CandidateGood, VersionsGood;
  }

  /** The later pass used the same compose arguments, and found the same database, user row and request columns. */
  predicate KeptSince(seed: Pass, pass: Pass) {
    && pass.call.composeArgs == seed.call.composeArgs
    && pass.probe.identity.database == seed.probe.identity.database
    && pass.probe.identity.username == seed.probe.identity.username
    && pass.probe.user == seed.probe.user
    && (forall column | column in seed.probe.request ::
          column in pass.probe.request && pass.probe.request[column] == seed.probe.request[column])
    && (forall row | row in seed.probe.ledger :: row in pass.probe.ledger)
    && (pass.call.phase == ExistingDataRestart ==> |pass.probe.ledger| == |seed.probe.ledger|)
  }

  /** The names a ledger has over those of its seed. */
  function NewNames(seed: Probe, probe: Probe): set<string> {
    LedgerNames(probe.ledger) - LedgerNames(seed.ledger)
  }

  /**
   Whatever the interleaving, a restart or an upgrade that passed comes behind a passed seed of its kind with identical
   compose arguments and shows the fixture of that seed: its user as it was, and its request with every column it had.
   A restart has the seed's migrations; an upgrade extends them by exactly the migrations it reports as added.
   */
  lemma PassBuildsOnSeed(cfg: Config, events: seq<Event>, i: nat) returns (j: nat)
    requires i < |Run(cfg, events).passed| && !IsSeed(Run(cfg, events).passed[i].call.phase)
    ensures var passed := Run(cfg, events).passed;
      && j < i && passed[j].call.phase == InitialPhase(passed[i].call.phase)
      && passed[j].call.composeArgs == passed[i].call.composeArgs
      && passed[i].call.fixture == passed[j].call.fixture && passed[i].call.previous == Some(SnapshotOf(passed[j]))
      && var seed, probe := passed[j].probe, passed[i].probe;
      && FixtureShown(seed, passed[j].call.fixture) && FixtureShown(probe, passed[j].call.fixture)
      && probe.user == seed.user
      && (forall column | column in seed.request :: Field(probe.request, column, seed.request[column]))
      && |probe.ledger| - |seed.ledger| == |NewNames(seed, probe)|
      && (forall name, m | LedgerHolds(seed.ledger, name, m) :: LedgerHolds(probe.ledger, name, m))
      && (passed[i].call.phase == ExistingDataRestart ==>
        && NewNames(seed, probe) == {}
        && forall name, m | LedgerHolds(probe.ledger, name, m) :: LedgerHolds(seed.ledger, name, m))
  {
    hide Run, LedgerHolds, LedgerNames, FixtureShown, NotificationsGood, CandidateGood, VersionsGood;
    RunInv(cfg, events);
    var passed := Run(cfg, events).passed;
    var call, probe := passed[i].call, passed[i].probe;
    assert CallGood(passed, i, call) && ProbeGood(cfg, call, probe);
    j :| 0 <= j < i && passed[j].call.phase == InitialPhase(call.phase) && SnapshotOf(passed[j]) == call.previous.value;
    var seed := passed[j].probe;
    assert ProbeGood(cfg, passed[j].call, seed);
    AddedCountsNewNames(seed.ledger, probe.ledger);
    if call.phase == ExistingDataRestart {
      NothingAddedIsSame(seed.ledger, probe.ledger);
    }
  }

  // ----- One call from beginning to end -----

  /** The call that an admitted phase makes: a seed that has not passed before, or one that goes back to its seed. */
  ghost predicate Admits(passed: Record, phase: Phase, composeArgs: seq<string>, fixture: Fixture, call: Call) {
    && composeArgs != [] && composeArgs[0] == "compose" && call.phase == phase && call.composeArgs == composeArgs
    && match phase
       case FreshInstall => Unseeded(passed, phase) && call.fixture == fixture && call.previous.None?
       case Baseline => Unseeded(passed, phase) && call.fixture == fixture && call.previous.None?
       case ExistingDataRestart => GoesBack(passed, FreshInstall, call)
       case Upgraded => GoesBack(passed, Baseline, call)
  }

  ghost predicate Unseeded(passed: Record, phase: Phase) {
    forall j | 0 <= j < |passed| :: passed[j].call.phase != phase
  }

  ghost predicate GoesBack(passed: Record, seedPhase: Phase, call: Call) {
    exists j | 0 <= j < |passed| ::
      && passed[j].call.phase == seedPhase && passed[j].call.composeArgs == call.composeArgs
      && passed[j].call.fixture == call.fixture
      && call.previous == Some(Snapshot(call.fixture, call.composeArgs, passed[j].probe))
  }

  // The snapshot of a phase is that of the one pass that it had.
  lemma SnapshotIsSeed(cfg: Config, s: System, phase: Phase)
    requires Inv(cfg, s) && IsSeed(phase)
    ensures phase !in s.shared.snapshots <==> Unseeded(s.passed, phase)
    ensures phase in s.shared.snapshots ==>
      forall j | 0 <= j < |s.passed| && s.passed[j].call.phase == phase ::
        s.shared.snapshots[phase] == SnapshotOf(s.passed[j])
  {
    hide ProbeGood, ToolsGood, CallGood, WaitingGood;
    if phase in s.shared.snapshots {
      var i :| 0 <= i < |s.passed| && s.passed[i].call.phase == phase
        && SnapshotOf(s.passed[i]) == s.shared.snapshots[phase];
    }
  }

  lemma BeginExact(cfg: Config, s: System, phase: Phase, composeArgs: seq<string>, fixture: Fixture)
    requires Inv(cfg, s) && !s.shared.busy
    ensures var (shared, stretch) := Begin(s.shared, Some(phase), composeArgs, fixture);
      && (forall call: Call :: Admits(s.passed, phase, composeArgs, fixture, call) <==>
            stretch == Suspended(AtProbe(call)))
      && (stretch.Failed? ==> shared == s.shared)
      && (!stretch.Failed? ==> stretch.Suspended? && stretch.waiting.AtProbe? && shared == s.shared.(busy := true))
  {
    hide Inv;
    SnapshotIsSeed(cfg, s, InitialPhase(phase));
    var initial := InitialPhase(phase);
    if initial in s.shared.snapshots {
      assert !Unseeded(s.passed, initial);
      var j :| 0 <= j < |s.passed| && s.passed[j].call.phase == initial;
      assert s.shared.snapshots[initial] == SnapshotOf(s.passed[j]);
    }
  }

  /** The events of one call that nothing else comes between. */
  function WholeCall(id: int, phase: Phase, composeArgs: seq<string>, fixture: Fixture, pass: Pass, usage: bool)
    : seq<Event>
  {
    [Started(id, Some(phase), composeArgs, fixture), Answered(id, Probed(pass.probe)),
     Answered(id, Versioned(pass.dump)), Answered(id, Versioned(pass.restore)), Answered(id, Helped(usage))]
  }

  lemma NextRun(cfg: Config, events: seq<Event>, e: Event)
    ensures Run(cfg, events + [e]) == Step(cfg, Run(cfg, events), e)
  {
    assert (events + [e])[..|events|] == events;
  }

  lemma FiveSteps(cfg: Config, events: seq<Event>, more: seq<Event>)
    requires |more| == 5
    ensures Run(cfg, events + more)
      == Step(cfg, Step(cfg, Step(cfg, Step(cfg, Step(cfg, Run(cfg, events), more[0]), more[1]), more[2]), more[3]),
              more[4])
  {
    hide Step, Run;
    NextRun(cfg, events, more[0]);
    NextRun(cfg, events + more[..1], more[1]);
    NextRun(cfg, events + more[..2], more[2]);
    NextRun(cfg, events + more[..3], more[3]);
    NextRun(cfg, events + more[..4], more[4]);
    assert events + [more[0]] == events + more[..1];
    assert events + more[..1] + [more[1]] == events + more[..2];
    assert events + more[..2] + [more[2]] == events + more[..3];
    assert events + more[..3] + [more[3]] == events + more[..4];
    assert events + more[..4] + [more[4]] == events + more;
  }

  /**
   Behind any run that left no call in flight, a call that is answered in full passes if and only if it is admitted and
   its answers are good; either way no call is in flight behind it and the lock is free.
   */
  lemma WholeCallExact(cfg: Config, events: seq<Event>, id: int, phase: Phase, composeArgs: seq<string>,
      fixture: Fixture, pass: Pass, usage: bool)
    requires Run(cfg, events).inFlight == map[]
    ensures var passed := Run(cfg, events).passed;
      var after := Run(cfg, events + WholeCall(id, phase, composeArgs, fixture, pass, usage));
      && after.inFlight == map[] && !after.shared.busy
      && (after.passed == passed + [pass] <==>
        && Admits(passed, phase, composeArgs, fixture, pass.call) && ProbeGood(cfg, pass.call, pass.probe)
        && ToolsGood(phase, pass.dump, pass.restore) && usage)
  {
    var s := Run(cfg, events);
    RunInv(cfg, events);
    FiveSteps(cfg, events, WholeCall(id, phase, composeArgs, fixture, pass, usage));
    assert !s.shared.busy;
    BeginExact(cfg, s, phase, composeArgs, fixture);
    hide Run, Begin, Inv, Admits, ProbeGood, ToolsGood;
    AnswersLand(cfg, s, id, Begin(s.shared, Some(phase), composeArgs, fixture).1, phase, pass, usage);
  }

  // The only call in flight goes on or ends; a call that has ended stays ended.
  lemma OneAnswer(cfg: Config, s: System, id: int, reply: Reply)
    ensures s.inFlight == map[] ==> Step(cfg, s, Answered(id, reply)) == s
    ensures s.inFlight.Keys == {id} ==>
      var (shared, stretch) := Resume(cfg, s.shared, s.inFlight[id], reply);
      match stretch
      case Suspended(w) => Step(cfg, s, Answered(id, reply)) == System(shared, map[id := w], s.passed)
      case Failed => Step(cfg, s, Answered(id, reply)) == System(shared, map[], s.passed)
      case Passed(pass) => Step(cfg, s, Answered(id, reply)) == System(shared, map[], s.passed + [pass])
  {
    hide Resume;
    if s.inFlight.Keys == {id} {
      assert s.inFlight - {id} == map[];
      assert forall w: Waiting :: s.inFlight[id := w] == map[id := w];
    }
  }

  // What the four answers make of the call.
  lemma AnswersLand(cfg: Config, s: System, id: int, stretch: Stretch, phase: Phase, pass: Pass, usage: bool)
    requires s.inFlight == map[] && !s.shared.busy
    requires stretch.Failed? || (stretch.Suspended? && stretch.waiting.AtProbe?)
    ensures var begun := Landed(s, id, if stretch.Failed? then s.shared else s.shared.(busy := true), stretch);
      var after := Step(cfg, Step(cfg, Step(cfg, Step(cfg, begun, Answered(id, Probed(pass.probe))),
        Answered(id, Versioned(pass.dump))), Answered(id, Versioned(pass.restore))), Answered(id, Helped(usage)));
      && after.inFlight == map[] && !after.shared.busy
      && (after.passed == s.passed + [pass] <==>
        && stretch == Suspended(AtProbe(pass.call)) && ProbeGood(cfg, pass.call, pass.probe)
        && ToolsGood(pass.call.phase, pass.dump, pass.restore) && usage)
  {
    hide ProbeGood, ToolsGood, Step;
    assert s.inFlight - {id} == map[];
    var s1 := Landed(s, id, if stretch.Failed? then s.shared else s.shared.(busy := true), stretch);
    OneAnswer(cfg, s1, id, Probed(pass.probe));
    var s2 := Step(cfg, s1, Answered(id, Probed(pass.probe)));
    OneAnswer(cfg, s2, id, Versioned(pass.dump));
    var s3 := Step(cfg, s2, Answered(id, Versioned(pass.dump)));
    OneAnswer(cfg, s3, id, Versioned(pass.restore));
    var s4 := Step(cfg, s3, Answered(id, Versioned(pass.restore)));
    OneAnswer(cfg, s4, id, Helped(usage));
    var s5 := Step(cfg, s4, Answered(id, Helped(usage)));
    if |s5.passed| == |s.passed| + 1 {
      assert (s.passed + [pass])[|s.passed|] == pass;
    } else {
      assert |s.passed + [pass]| == |s.passed| + 1;
    }
  }

  /** The later probe has every field of the earlier one's subscription and notifications, and no column less. */
  predicate NotificationsKept(cfg: Config, fixture: Fixture, seed: Probe, probe: Probe) {
    && seed.notifications.Some? && probe.notifications.Some?
    && var before, state := seed.notifications.value, probe.notifications.value;
    && FieldsKept(before, state, fixture) && EndedBetween(cfg.parseDate, before, state, fixture)
    && before.columns.Within(state.columns)
    && NotAfter(cfg.parseDate(before.observedAt), cfg.parseDate(state.observedAt))
  }

  /**
   Whatever the interleaving, a restart or an upgrade that passed still has every field of the subscription and of the
   four notifications of its seed, in a schema that lost no column; what the seed's schema could not end, ended in
   between.
   */
  lemma PassKeepsNotifications(cfg: Config, events: seq<Event>, i: nat) returns (j: nat)
    requires i < |Run(cfg, events).passed| && !IsSeed(Run(cfg, events).passed[i].call.phase)
    ensures var passed := Run(cfg, events).passed;
      && j < i && passed[j].call.phase == InitialPhase(passed[i].call.phase)
      && NotificationsKept(cfg, passed[j].call.fixture, passed[j].probe, passed[i].probe)
  {
    hide Run, LedgerHolds, NewNames, FixtureShown, ProbeGood, ToolsGood, SeedPassed;
    j := PassBuildsOnSeed(cfg, events, i);
    RunInv(cfg, events);
    var passed := Run(cfg, events).passed;
    assert CallGood(passed, j, passed[j].call);
    assert ProbeGood(cfg, passed[j].call, passed[j].probe) && ProbeGood(cfg, passed[i].call, passed[i].probe);
    hide *;
    KeptBetween(cfg, passed[j], passed[i]);
  }

  lemma KeptBetween(cfg: Config, seed: Pass, pass: Pass)
    requires ProbeGood(cfg, seed.call, seed.probe) && ProbeGood(cfg, pass.call, pass.probe)
    requires seed.call.previous.None? && pass.call.previous == Some(SnapshotOf(seed))
    requires pass.call.fixture == seed.call.fixture
    ensures NotificationsKept(cfg, seed.call.fixture, seed.probe, pass.probe)
  {
    hide ManifestGood, FixtureShown, CandidateGood, VersionsGood, Preserved, AddedGood, ContinuityGood;
    hide FieldsKept, EndedBetween, NotAfter;
    var clock, state, schema := cfg.parseDate, pass.probe.notifications, pass.probe.notificationSchema;
    var fixture, before := seed.call.fixture, seed.probe.notifications;
    var required, requiredNow := seed.call.phase != Baseline, pass.call.phase != Baseline;
    assert before.Some? && state.Some? by {
      StateShown(clock, before, seed.probe.notificationSchema, None, fixture, required);
      StateShown(clock, state, schema, before, fixture, requiredNow);
    }
    ContinuityExact(clock, state.value, schema, before.value, fixture, requiredNow, seed.probe.notificationSchema,
      required);
    ColumnsStay(clock, state, schema, before, fixture, requiredNow);
  }

  lemma StateShown(clock: Clock, state: Option<Continuity>, schema: Option<Schema>, before: Option<Continuity>,
      fixture: Fixture, requireCurrent: bool)
    requires ContinuityGood(clock, state, schema, before, fixture, requireCurrent)
    ensures state.Some?
  {
  }

  lemma ColumnsStay(clock: Clock, state: Option<Continuity>, schema: Option<Schema>, before: Option<Continuity>,
      fixture: Fixture, requireCurrent: bool)
    requires ContinuityGood(clock, state, schema, before, fixture, requireCurrent) && before.Some?
    ensures before.value.columns.Within(state.value.columns)
  {
  }

  /** Once the rows are preserved, the check that an upgrade added no negative number of migrations cannot fail. */
  lemma UpgradeNeverShrinks(cfg: Config, seedCall: Call, seed: Probe, call: Call, probe: Probe)
    requires ProbeGood(cfg, seedCall, seed) && ManifestGood(probe.manifest, probe.ledger) && Preserved(seed, probe)
    requires call.phase == Upgraded
    ensures AddedGood(call.phase, seed, probe)
  {
    AddedCountsNewNames(seed.ledger, probe.ledger);
  }
}
