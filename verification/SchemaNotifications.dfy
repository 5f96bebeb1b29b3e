/** Continuity of the notifications that a seed leaves behind: scripts/docker-candidate-notification-continuity.js. */
module SchemaNotifications {
  import opened Common
  import opened SchemaManifest

  /** A column of a row that the probe read. */
  datatype Value =
    | Null
    | Text(text: string)
    | Flag(flag: bool)
    | Number(number: int)
    | Record(fields: map<string, Value>)

  type Row = map<string, Value>

  predicate Field(row: Row, column: string, value: Value) {
    column in row && row[column] == value
  }

  /** Every field of the earlier row is in the later one, unchanged. */
  predicate Holds(later: Row, earlier: Row) {
    forall column | column in earlier :: Field(later, column, earlier[column])
  }

  datatype Status = IsPending | IsSent | IsFailed | IsExpired

  function NameOf(status: Status): string {
    match status
    case IsPending => "pending"
    case IsSent => "sent"
    case IsFailed => "failed"
    case IsExpired => "expired"
  }

  /** What a seed leaves behind: a disabled user, a request, a subscription and a notification of each status. */
  datatype Fixture = Fixture(
    userId: string,
    username: string,
    requestId: string,
    subscriptionId: string,
    pendingId: string,
    sentId: string,
    failedId: string,
    expiredId: string) {
    function NotificationId(status: Status): string {
      match status
      case IsPending => pendingId
      case IsSent => sentId
      case IsFailed => failedId
      case IsExpired => expiredId
    }
  }

  /** `Date.parse`; None stands for NaN. */
  type Clock = string -> Option<int>

  /** The time in a column, if there is one that can be read. */
  function TimeIn(clock: Clock, row: Row, column: string): Option<int> {
    if column in row && row[column].Text? then clock(row[column].text) else None
  }

  predicate NotAfter(a: Option<int>, b: Option<int>) {
    a.Some? && b.Some? && a.value <= b.value
  }

  /** Which of the columns that came later the schema has already. */
  datatype Columns = Columns(registrationToken: bool, claimToken: bool, expiresAt: bool, terminalAt: bool) {
    predicate Current() {
      registrationToken && claimToken && expiresAt && terminalAt
    }

    predicate Within(later: Columns) {
      && (registrationToken ==> later.registrationToken) && (claimToken ==> later.claimToken)
      && (expiresAt ==> later.expiresAt) && (terminalAt ==> later.terminalAt)
    }
  }

  /** The captured state; one without the expected shape is None where it is used. */
  datatype Continuity = Continuity(observedAt: string, columns: Columns, subscription: Row, notifications: seq<Row>)

  datatype Schema = Schema(columns: seq<Row>, constraints: seq<Row>)

  // ----- The schema -----

  function ColumnEntry(table: string, name: string, dataType: string, nullable: bool, default: Value): Row {
    map["tableName" := Text(table), "name" := Text(name), "dataType" := Text(dataType), "isNullable" := Flag(nullable),
        "defaultExpression" := default]
  }

  const NOTIFICATION_COLUMNS: seq<Row> := [
    ColumnEntry("user_push_subscriptions", "registration_token", "uuid", false, Text("harmoniarr_generate_uuid()")),
    ColumnEntry("notification_queue", "claim_token", "uuid", true, Null),
    ColumnEntry("notification_queue", "expires_at", "timestamp with time zone", false, Null),
    ColumnEntry("notification_queue", "terminal_at", "timestamp with time zone", true, Null)]

  function ConstraintEntry(name: string, kind: string, definition: string): Row {
    map["tableName" := Text("notification_queue"), "name" := Text(name), "type" := Text(kind),
        "validated" := Flag(true), "deferrable" := Flag(false), "definition" := Text(definition)]
  }

  const NOTIFICATION_CONSTRAINTS: seq<Row> := [
    ConstraintEntry("notification_queue_claim_pending_check", "c",
                    "CHECK (((claim_token IS NULL) OR (status = 'pending'::text)))"),
    ConstraintEntry("notification_queue_terminal_state_check", "c",
                    "CHECK ((((status = 'pending'::text) AND (terminal_at IS NULL)) OR ((status = ANY "
                    + "(ARRAY['sent'::text, 'failed'::text, 'expired'::text])) AND (terminal_at IS NOT NULL) AND "
                    + "isfinite(terminal_at))))"),
    ConstraintEntry("notification_queue_subscription_id_fkey", "f",
                    "FOREIGN KEY (subscription_id) REFERENCES user_push_subscriptions(id) ON DELETE CASCADE")]

  function SameName(entry: Row): Row -> bool {
    (row: Row) => Get(row, "tableName") == Get(entry, "tableName") && Get(row, "name") == Get(entry, "name")
  }

  function Get(row: Row, column: string): Option<Value> {
    if column in row then Some(row[column]) else None
  }

  /** Exactly one reported row has the name of the entry, and it agrees with the entry throughout. */
  predicate EntryShown(rows: seq<Row>, entry: Row) {
    var matches := Filter(rows, SameName(entry));
    |matches| == 1 && Holds(matches[0], entry)
  }

  predicate SchemaShown(schema: Option<Schema>) {
    && schema.Some? && |schema.value.columns| <= 100 && |schema.value.constraints| <= 100
    && (forall entry | entry in NOTIFICATION_COLUMNS :: EntryShown(schema.value.columns, entry))
    && (forall entry | entry in NOTIFICATION_CONSTRAINTS :: EntryShown(schema.value.constraints, entry))
  }

  // ----- One state -----

  predicate HashIn(row: Row, column: string) {
    column in row && row[column].Text? && Hex(row[column].text, 64)
  }

  const MAXIMUM_SAFE_INTEGER := 0x1F_FFFF_FFFF_FFFF

  predicate SubscriptionGood(clock: Clock, state: Continuity, fixture: Fixture) {
    var s := state.subscription;
    && Field(s, "id", Text(fixture.subscriptionId)) && Field(s, "user_id", Text(fixture.userId))
    && HashIn(s, "endpoint_hash") && HashIn(s, "p256dh_hash") && HashIn(s, "auth_hash")
    && TimeIn(clock, s, "created_at").Some? && TimeIn(clock, s, "invalidated_at").Some?
    && ("registration_token" in s <==> state.columns.registrationToken)
    && (state.columns.registrationToken ==> s["registration_token"].Text? && Uuid(s["registration_token"].text))
  }

  /** Identity and times of one notification. */
  predicate NotificationGood(clock: Clock, state: Continuity, fixture: Fixture, status: Status, row: Row) {
    && Field(row, "status", Text(NameOf(status))) && Field(row, "user_id", Text(fixture.userId))
    && Field(row, "subscription_id", Text(fixture.subscriptionId)) && Field(row, "event_type", Text("releaseAdded"))
    && HashIn(row, "payload_hash") && Field(row, "attempts", Number(0))
    && "ttl_seconds" in row && row["ttl_seconds"].Number? && 0 < row["ttl_seconds"].number <= MAXIMUM_SAFE_INTEGER
    && TimeIn(clock, row, "created_at").Some? && TimeIn(clock, row, "next_attempt_at").Some?
    && TimeIn(clock, row, "expected_expires_at").Some?
    && (if status == IsSent then TimeIn(clock, row, "sent_at").Some? else Field(row, "sent_at", Null))
    && (status == IsPending ==> !NotAfter(TimeIn(clock, row, "next_attempt_at"), clock(state.observedAt)))
  }

  /** The columns that came later: there exactly when the schema has them, and filled as their status asks for. */
  predicate LaterColumnsGood(clock: Clock, state: Continuity, status: Status, row: Row) {
    && ("claim_token" in row <==> state.columns.claimToken)
    && ("expires_at" in row <==> state.columns.expiresAt)
    && ("terminal_at" in row <==> state.columns.terminalAt)
    && (state.columns.claimToken ==> row["claim_token"] == Null)
    && (state.columns.expiresAt ==>
      TimeIn(clock, row, "expires_at").Some? && Get(row, "expires_at") == Get(row, "expected_expires_at"))
    && (state.columns.terminalAt ==>
      && (if status == IsPending then row["terminal_at"] == Null else TimeIn(clock, row, "terminal_at").Some?)
      && (status == IsSent ==> Get(row, "terminal_at") == Get(row, "sent_at"))
      && (status != IsPending ==> NotAfter(TimeIn(clock, row, "terminal_at"), clock(state.observedAt))))
  }

  function Find(rows: seq<Row>, id: string): (row: Option<Row>)
    ensures row.Some? ==> row.value in rows && Field(row.value, "id", Text(id))
  {
    if rows == [] then None else if Field(rows[0], "id", Text(id)) then Some(rows[0]) else Find(rows[1..], id)
  }

  function RowOf(state: Continuity, fixture: Fixture, status: Status): Option<Row> {
    Find(state.notifications, fixture.NotificationId(status))
  }

  predicate StatusGood(clock: Clock, state: Continuity, fixture: Fixture, status: Status) {
    var row := RowOf(state, fixture, status);
    && row.Some? && NotificationGood(clock, state, fixture, status, row.value)
    && LaterColumnsGood(clock, state, status, row.value)
  }

  /** The checks in front of the loop over the notifications. */
  predicate FrameGood(clock: Clock, state: Continuity, schema: Option<Schema>, fixture: Fixture, requireCurrent: bool) {
    && clock(state.observedAt).Some? && (requireCurrent ==> state.columns.Current())
    && (state.columns.Current() ==> SchemaShown(schema)) && SubscriptionGood(clock, state, fixture)
    && |state.notifications| == 4
    && forall i, j | 0 <= i < j < 4 :: Get(state.notifications[i], "id") != Get(state.notifications[j], "id")
  }

  // ----- Against the seed -----

  /** One notification against the seed's: its fields are kept, and a column that is new is filled in as expected. */
  predicate RowContinues(clock: Clock, before: Continuity, state: Continuity, fixture: Fixture, status: Status) {
    var earlier, row := RowOf(before, fixture, status), RowOf(state, fixture, status);
    && earlier.Some? && row.Some? && Holds(row.value, earlier.value)
    && (!before.columns.expiresAt && state.columns.expiresAt ==>
      Get(row.value, "expires_at") == Get(row.value, "expected_expires_at"))
    && (!before.columns.terminalAt && state.columns.terminalAt && status == IsSent ==>
      Get(row.value, "terminal_at") == Get(row.value, "sent_at"))
    && (!before.columns.terminalAt && state.columns.terminalAt && status in {IsFailed, IsExpired} ==>
      && NotAfter(clock(before.observedAt), TimeIn(clock, row.value, "terminal_at"))
      && NotAfter(TimeIn(clock, row.value, "terminal_at"), clock(state.observedAt)))
  }

  /** The checks behind the loop: time has not run back, no column is gone, and one moment ended what had no end yet. */
  predicate StateContinues(clock: Clock, before: Continuity, state: Continuity, fixture: Fixture) {
    && NotAfter(clock(before.observedAt), clock(state.observedAt)) && before.columns.Within(state.columns)
    && Holds(state.subscription, before.subscription)
    && (!before.columns.terminalAt && state.columns.terminalAt ==>
      var failed, expired := RowOf(state, fixture, IsFailed), RowOf(state, fixture, IsExpired);
      failed.Some? && expired.Some? && Get(failed.value, "terminal_at") == Get(expired.value, "terminal_at"))
  }

  ghost predicate ContinuityGood(clock: Clock, state: Option<Continuity>, schema: Option<Schema>,
      before: Option<Continuity>, fixture: Fixture, requireCurrent: bool) {
    && state.Some? && FrameGood(clock, state.value, schema, fixture, requireCurrent)
    && (forall status: Status :: StatusGood(clock, state.value, fixture, status))
    && (before.Some? ==>
      && (forall status: Status :: RowContinues(clock, before.value, state.value, fixture, status))
      && StateContinues(clock, before.value, state.value, fixture))
  }

  // ----- The checks, one after the other -----

  method VerifyPreserved(earlier: Row, later: Row) returns (ok: bool)
    ensures ok <==> Holds(later, earlier)
  {
    var left := earlier.Keys;
    while left != {}
      invariant left <= earlier.Keys
      invariant forall column | column in earlier && column !in left :: Field(later, column, earlier[column])
    {
      var column :| column in left;
      if column !in later || later[column] != earlier[column] {
        return false;
      }
      left := left - {column};
    }
    return true;
  }

  method VerifyEntries(rows: seq<Row>, expected: seq<Row>) returns (ok: bool)
    ensures ok <==> |rows| <= 100 && forall entry | entry in expected :: EntryShown(rows, entry)
  {
    if |rows| > 100 {
      return false;
    }
    for i := 0 to |expected|
      invariant forall k | 0 <= k < i :: EntryShown(rows, expected[k])
    {
      var entry := expected[i];
      var table, name := Get(entry, "tableName"), Get(entry, "name");
      var named := (row: Row) => Get(row, "tableName") == table && Get(row, "name") == name;
      var matches := Filter(rows, named);
      FilterAgrees(rows, named, SameName(entry));
      if |matches| != 1 {
        assert !EntryShown(rows, entry);
        return false;
      }
      ok := VerifyPreserved(entry, matches[0]);
      if !ok {
        assert !EntryShown(rows, entry);
        return false;
      }
    }
    return true;
  }

  method VerifyHash(row: Row, column: string) returns (ok: bool)
    ensures ok <==> HashIn(row, column)
  {
    var hash := Get(row, column);
    return hash.Some? && hash.value.Text? && Hex(hash.value.text, 64);
  }

  method VerifySubscription(clock: Clock, state: Continuity, fixture: Fixture) returns (ok: bool)
    ensures ok <==> SubscriptionGood(clock, state, fixture)
  {
    hide Hex, Uuid;
    var s := state.subscription;
    if Get(s, "id") != Some(Text(fixture.subscriptionId)) || Get(s, "user_id") != Some(Text(fixture.userId)) {
      return false;
    }
    var hashes := ["endpoint_hash", "p256dh_hash", "auth_hash"];
    for i := 0 to |hashes|
      invariant forall k | 0 <= k < i :: HashIn(s, hashes[k])
    {
      ok := VerifyHash(s, hashes[i]);
      if !ok {
        return false;
      }
    }
    assert HashIn(s, hashes[0]) && HashIn(s, hashes[1]) && HashIn(s, hashes[2]);
    if TimeIn(clock, s, "created_at").None? || TimeIn(clock, s, "invalidated_at").None? {
      return false;
    }
    var registered := Get(s, "registration_token");
    if registered.Some? != state.columns.registrationToken {
      return false;
    }
    return state.columns.registrationToken ==> registered.value.Text? && Uuid(registered.value.text);
  }

  method VerifyFrame(clock: Clock, state: Continuity, schema: Option<Schema>, fixture: Fixture, requireCurrent: bool)
    returns (ok: bool)
    ensures ok <==> FrameGood(clock, state, schema, fixture, requireCurrent)
  {
    hide SubscriptionGood, EntryShown, ColumnEntry, ConstraintEntry;
    if clock(state.observedAt).None? {
      return false;
    }
    var later := state.columns;
    var current := later.registrationToken && later.claimToken && later.expiresAt && later.terminalAt;
    if requireCurrent && !current {
      return false;
    }
    if current {
      if schema.None? {
        return false;
      }
      var columns := VerifyEntries(schema.value.columns, NOTIFICATION_COLUMNS);
      var constraints := VerifyEntries(schema.value.constraints, NOTIFICATION_CONSTRAINTS);
      if !columns || !constraints {
        return false;
      }
    }
    ok := VerifySubscription(clock, state, fixture);
    if !ok || |state.notifications| != 4 {
      return false;
    }
    var ids := Map(state.notifications, (row: Row) => Get(row, "id"));
    DistinctCardinality(ids);
    return |Elements(ids)| == 4;
  }

  /** The checks of one notification by itself. */
  method VerifyNotification(clock: Clock, state: Continuity, fixture: Fixture, status: Status, row: Row)
    returns (ok: bool)
    ensures ok <==> NotificationGood(clock, state, fixture, status, row) && LaterColumnsGood(clock, state, status, row)
  {
    hide Hex;
    if Get(row, "status") != Some(Text(NameOf(status))) || Get(row, "user_id") != Some(Text(fixture.userId)) {
      return false;
    }
    if Get(row, "subscription_id") != Some(Text(fixture.subscriptionId)) {
      return false;
    }
    ok := VerifyHash(row, "payload_hash");
    if !ok || Get(row, "event_type") != Some(Text("releaseAdded")) {
      return false;
    }
    var ttl := Get(row, "ttl_seconds");
    if ttl.None? || !ttl.value.Number? || ttl.value.number > MAXIMUM_SAFE_INTEGER || ttl.value.number <= 0 {
      return false;
    }
    if Get(row, "attempts") != Some(Number(0)) || TimeIn(clock, row, "created_at").None? {
      return false;
    }
    if TimeIn(clock, row, "next_attempt_at").None? || TimeIn(clock, row, "expected_expires_at").None? {
      return false;
    }
    if if status == IsSent then TimeIn(clock, row, "sent_at").None? else Get(row, "sent_at") != Some(Null) {
      return false;
    }
    if status == IsPending {
      var next, observed := TimeIn(clock, row, "next_attempt_at").value, clock(state.observedAt);
      if observed.Some? && next <= observed.value {
        return false;
      }
    }
    ok := VerifyLaterColumns(clock, state, status, row);
  }

  method VerifyLaterColumns(clock: Clock, state: Continuity, status: Status, row: Row) returns (ok: bool)
    ensures ok <==> LaterColumnsGood(clock, state, status, row)
  {
    var claim, expires, terminal := Get(row, "claim_token"), Get(row, "expires_at"), Get(row, "terminal_at");
    if claim.Some? != state.columns.claimToken || expires.Some? != state.columns.expiresAt {
      return false;
    }
    if terminal.Some? != state.columns.terminalAt || (claim.Some? && claim.value != Null) {
      return false;
    }
    if expires.Some? && (TimeIn(clock, row, "expires_at").None? || expires != Get(row, "expected_expires_at")) {
      return false;
    }
    if terminal.None? {
      return true;
    }
    if status == IsPending {
      return terminal.value == Null;
    }
    if status == IsSent && terminal != Get(row, "sent_at") {
      return false;
    }
    var ended, observed := TimeIn(clock, row, "terminal_at"), clock(state.observedAt);
    return ended.Some? && observed.Some? && ended.value <= observed.value;
  }

  /** The checks of one notification against the seed's row of the same identifier. */
  method VerifyAgainst(clock: Clock, before: Continuity, state: Continuity, fixture: Fixture, status: Status, row: Row)
    returns (ok: bool)
    requires RowOf(state, fixture, status) == Some(row)
    ensures ok <==> RowContinues(clock, before, state, fixture, status)
  {
    hide Find, Holds;
    var earlier := Find(before.notifications, fixture.NotificationId(status));
    if earlier.None? {
      return false;
    }
    ok := VerifyPreserved(earlier.value, row);
    if !ok {
      return false;
    }
    if !before.columns.expiresAt && state.columns.expiresAt
      && Get(row, "expires_at") != Get(row, "expected_expires_at")
    {
      return false;
    }
    if !before.columns.terminalAt && state.columns.terminalAt && status != IsPending {
      if status == IsSent {
        return Get(row, "terminal_at") == Get(row, "sent_at");
      }
      var ended, from, until := TimeIn(clock, row, "terminal_at"), clock(before.observedAt), clock(state.observedAt);
      return
        && ended.Some? && from.Some? && until.Some?
        && from.value <= ended.value && ended.value <= until.value;
    }
    return true;
  }

  /** The checks behind the loop. */
  method VerifyState(clock: Clock, before: Continuity, state: Continuity, fixture: Fixture) returns (ok: bool)
    ensures ok <==> StateContinues(clock, before, state, fixture)
  {
    hide Find, Holds;
    var earlier, now := clock(before.observedAt), clock(state.observedAt);
    if earlier.None? || now.None? || now.value < earlier.value {
      return false;
    }
    var had, has := before.columns, state.columns;
    if (had.registrationToken && !has.registrationToken) || (had.claimToken && !has.claimToken) {
      return false;
    }
    if (had.expiresAt && !has.expiresAt) || (had.terminalAt && !has.terminalAt) {
      return false;
    }
    ok := VerifyPreserved(before.subscription, state.subscription);
    if !ok {
      return false;
    }
    if !had.terminalAt && has.terminalAt {
      var failed := Find(state.notifications, fixture.failedId);
      var expired := Find(state.notifications, fixture.expiredId);
      return failed.Some? && expired.Some? && Get(failed.value, "terminal_at") == Get(expired.value, "terminal_at");
    }
    return true;
  }

  method VerifyNotificationContinuity(clock: Clock, state: Option<Continuity>, schema: Option<Schema>,
      before: Option<Continuity>, fixture: Fixture, requireCurrent: bool)
    returns (ok: bool)
    ensures ok <==> ContinuityGood(clock, state, schema, before, fixture, requireCurrent)
  {
    hide FrameGood, NotificationGood, LaterColumnsGood, RowContinues, StateContinues, Find;
    if state.None? {
      return false;
    }
    ok := VerifyFrame(clock, state.value, schema, fixture, requireCurrent);
    if !ok {
      return false;
    }
    var states := [IsPending, IsSent, IsFailed, IsExpired];
    for i := 0 to |states|
      invariant forall k | 0 <= k < i :: StatusGood(clock, state.value, fixture, states[k])
      invariant forall k | 0 <= k < i && before.Some? ::
        RowContinues(clock, before.value, state.value, fixture, states[k])
    {
      var row := RowOf(state.value, fixture, states[i]);
      if row.None? {
        assert !StatusGood(clock, state.value, fixture, states[i]);
        return false;
      }
      ok := VerifyNotification(clock, state.value, fixture, states[i], row.value);
      if !ok {
        assert !StatusGood(clock, state.value, fixture, states[i]);
        return false;
      }
      if before.Some? {
        ok := VerifyAgainst(clock, before.value, state.value, fixture, states[i], row.value);
        if !ok {
          assert !RowContinues(clock, before.value, state.value, fixture, states[i]);
          return false;
        }
      }
    }
    forall status: Status
      ensures StatusGood(clock, state.value, fixture, status)
      ensures before.Some? ==> RowContinues(clock, before.value, state.value, fixture, status)
    {
      var k := match status case IsPending => 0 case IsSent => 1 case IsFailed => 2 case IsExpired => 3;
      assert states[k] == status;
    }
    if before.Some? {
      ok := VerifyState(clock, before.value, state.value, fixture);
    }
  }

  predicate NamedAs(row: Row, entry: Row)
    requires "tableName" in entry && "name" in entry
  {
    && "tableName" in row && row["tableName"] == entry["tableName"]
    && "name" in row && row["name"] == entry["name"]
  }

  /** An entry is shown if and only if one row agrees with it throughout and no other row has its name. */
  lemma {:induction false} EntryShownExact(rows: seq<Row>, entry: Row)
    requires "tableName" in entry && "name" in entry
    ensures EntryShown(rows, entry) <==>
      exists i: nat | i < |rows| ::
        Holds(rows[i], entry) && forall j: nat | j < |rows| && j != i :: !NamedAs(rows[j], entry)
  {
    hide Holds;
    var named := SameName(entry);
    forall i: nat | i < |rows|
      ensures named(rows[i]) <==> NamedAs(rows[i], entry)
      ensures Holds(rows[i], entry) ==> NamedAs(rows[i], entry)
    {
      HoldsNames(rows[i], entry);
    }
    forall i: nat | i < |rows| && NamedAs(rows[i], entry)
      ensures |Filter(rows, named)| == 1 <==> forall j: nat | j < |rows| && j != i :: !NamedAs(rows[j], entry)
      ensures |Filter(rows, named)| == 1 ==> Filter(rows, named) == [rows[i]]
    {
      SingleKept(rows, named, i);
    }
    if |Filter(rows, named)| == 1 {
      assert Filter(rows, named)[0] in Filter(rows, named);
      var i: nat :| i < |rows| && NamedAs(rows[i], entry);
    }
  }

  lemma HoldsNames(row: Row, entry: Row)
    requires "tableName" in entry && "name" in entry
    ensures Holds(row, entry) ==> NamedAs(row, entry)
  {
    if Holds(row, entry) {
      assert Field(row, "tableName", entry["tableName"]) && Field(row, "name", entry["name"]);
    }
  }

  // ----- What the checks come to -----

  /** The fields of the seed are kept, column by column, in the subscription and in each notification. */
  predicate FieldsKept(before: Continuity, state: Continuity, fixture: Fixture) {
    && Holds(state.subscription, before.subscription)
    && forall status: Status ::
         var earlier, row := RowOf(before, fixture, status), RowOf(state, fixture, status);
         earlier.Some? && row.Some? && Holds(row.value, earlier.value)
  }

  /** What had no end before the schema could say when: both end at one moment between the two observations. */
  predicate EndedBetween(clock: Clock, before: Continuity, state: Continuity, fixture: Fixture) {
    !before.columns.terminalAt && state.columns.terminalAt ==>
      var failed, expired := RowOf(state, fixture, IsFailed), RowOf(state, fixture, IsExpired);
      && failed.Some? && expired.Some? && Get(failed.value, "terminal_at") == Get(expired.value, "terminal_at")
      && NotAfter(clock(before.observedAt), TimeIn(clock, failed.value, "terminal_at"))
  }

  /** Fields that are kept keep their columns: a schema cannot lose one of those that came later. */
  lemma ColumnsNeverDropped(clock: Clock, before: Continuity, state: Continuity, fixture: Fixture)
    requires SubscriptionGood(clock, before, fixture) && SubscriptionGood(clock, state, fixture)
    requires StatusGood(clock, before, fixture, IsPending) && StatusGood(clock, state, fixture, IsPending)
    requires FieldsKept(before, state, fixture)
    ensures before.columns.Within(state.columns)
  {
    hide TimeIn, HashIn, Uuid, Find;
    var earlier, row := RowOf(before, fixture, IsPending).value, RowOf(state, fixture, IsPending).value;
    assert Holds(row, earlier);
    assert before.columns.claimToken ==> "claim_token" in earlier;
    assert before.columns.expiresAt ==> "expires_at" in earlier;
    assert before.columns.terminalAt ==> "terminal_at" in earlier;
  }

  // What is checked of one notification against the seed's follows from its own state, kept fields and a common end.
  lemma RowContinuesAgain(clock: Clock, before: Continuity, state: Continuity, fixture: Fixture, status: Status)
    requires StatusGood(clock, state, fixture, status)
    requires FieldsKept(before, state, fixture) && EndedBetween(clock, before, state, fixture)
    ensures RowContinues(clock, before, state, fixture, status)
  {
    hide NotificationGood, Find, Holds;
    if status == IsExpired && !before.columns.terminalAt && state.columns.terminalAt {
      SameEnd(clock, RowOf(state, fixture, IsFailed).value, RowOf(state, fixture, IsExpired).value);
    }
  }

  lemma SameEnd(clock: Clock, a: Row, b: Row)
    requires Get(a, "terminal_at") == Get(b, "terminal_at")
    ensures TimeIn(clock, a, "terminal_at") == TimeIn(clock, b, "terminal_at")
  {
  }

  /**
   Against a seed that was verified itself, the checks come to four things: the state is good by itself, every field
   of the seed is kept, time has not run back, and notifications that had no end before end together between the
   observations. What else is checked follows from these.
   */
  lemma ContinuityExact(clock: Clock, state: Continuity, schema: Option<Schema>, before: Continuity, fixture: Fixture,
      requireCurrent: bool, earlierSchema: Option<Schema>, requiredThen: bool)
    requires ContinuityGood(clock, Some(before), earlierSchema, None, fixture, requiredThen)
    ensures ContinuityGood(clock, Some(state), schema, Some(before), fixture, requireCurrent) <==>
      && ContinuityGood(clock, Some(state), schema, None, fixture, requireCurrent)
      && FieldsKept(before, state, fixture) && EndedBetween(clock, before, state, fixture)
      && NotAfter(clock(before.observedAt), clock(state.observedAt))
  {
    if ContinuityGood(clock, Some(state), schema, Some(before), fixture, requireCurrent) {
      ContinuesKept(clock, before, state, fixture);
    } else if ContinuityGood(clock, Some(state), schema, None, fixture, requireCurrent)
      && FieldsKept(before, state, fixture) && EndedBetween(clock, before, state, fixture)
      && NotAfter(clock(before.observedAt), clock(state.observedAt))
    {
      KeptContinues(clock, before, state, fixture);
    }
  }

  lemma ContinuesKept(clock: Clock, before: Continuity, state: Continuity, fixture: Fixture)
    requires forall status: Status :: RowContinues(clock, before, state, fixture, status)
    requires StateContinues(clock, before, state, fixture)
    ensures FieldsKept(before, state, fixture) && EndedBetween(clock, before, state, fixture)
  {
    hide Holds, Find, NotAfter, TimeIn;
    assert RowContinues(clock, before, state, fixture, IsFailed);
    forall status: Status
      ensures var earlier, row := RowOf(before, fixture, status), RowOf(state, fixture, status);
        earlier.Some? && row.Some? && Holds(row.value, earlier.value)
    {
      assert RowContinues(clock, before, state, fixture, status);
    }
  }

  lemma KeptContinues(clock: Clock, before: Continuity, state: Continuity, fixture: Fixture)
    requires forall status: Status :: StatusGood(clock, state, fixture, status)
    requires StatusGood(clock, before, fixture, IsPending)
    requires SubscriptionGood(clock, before, fixture) && SubscriptionGood(clock, state, fixture)
    requires FieldsKept(before, state, fixture) && EndedBetween(clock, before, state, fixture)
    requires NotAfter(clock(before.observedAt), clock(state.observedAt))
    ensures forall status: Status :: RowContinues(clock, before, state, fixture, status)
    ensures StateContinues(clock, before, state, fixture)
  {
    hide Holds, Find, NotAfter, TimeIn, StatusGood, SubscriptionGood, RowContinues;
    forall status: Status
      ensures RowContinues(clock, before, state, fixture, status)
    {
      RowContinuesAgain(clock, before, state, fixture, status);
    }
    ColumnsNeverDropped(clock, before, state, fixture);
  }
}
