/** The counting checks of a schema probe: scripts/docker-candidate-schema-checks.js. */
module SchemaManifest {
  import opened Common

  datatype ManifestRow = ManifestRow(filename: string, migrationKey: string, checksum: string)

  datatype LedgerRow = LedgerRow(filename: string, migrationKey: string, checksum: string, id: string, applied: bool)

  /** What a migration is known by. */
  datatype Migration = Migration(migrationKey: string, checksum: string)

  predicate Digits(s: string) {
    forall c | c in s :: '0' <= c <= '9'
  }

  predicate WordChar(c: char) {
    'a' <= c <= 'z' || '0' <= c <= '9' || c == '_'
  }

  /** Date, time and a lower-case name: 20260911_103324_name.sql. */
  predicate MigrationName(s: string) {
    && |s| >= 21 && Digits(s[..8]) && s[8] == '_' && Digits(s[9..15]) && s[15] == '_'
    && s[|s| - 4..] == ".sql" && forall c | c in s[16..|s| - 4] :: WordChar(c)
  }

  predicate HexLetter(c: char) {
    '0' <= c <= '9' || 'a' <= c <= 'f' || 'A' <= c <= 'F'
  }

  predicate Uuid(s: string) {
    |s| == 36 && forall i | 0 <= i < 36 :: if i in {8, 13, 18, 23} then s[i] == '-' else HexLetter(s[i])
  }

  predicate ManifestRowGood(row: ManifestRow) {
    MigrationName(row.filename) && Hex(row.checksum, 64) && row.migrationKey == row.filename[..15]
  }

  predicate LedgerRowGood(row: LedgerRow) {
    row.applied && Uuid(row.id)
  }

  predicate Describes(row: LedgerRow, expected: ManifestRow) {
    row.filename == expected.filename && row.checksum == expected.checksum && row.migrationKey == expected.migrationKey
  }

  const MANIFEST_LIMIT := 2000

  /** Well-formed migrations, no filename twice. */
  ghost predicate RowsGood(manifest: seq<ManifestRow>) {
    && (forall row | row in manifest :: ManifestRowGood(row))
    && (forall i, j | 0 <= i < j < |manifest| :: manifest[i].filename != manifest[j].filename)
  }

  /**
   Distinct well-formed migrations, and as many distinct ledger rows, each applied and agreeing with its migration.
   */
  ghost predicate ManifestGood(manifest: seq<ManifestRow>, ledger: seq<LedgerRow>) {
    && 0 < |manifest| <= MANIFEST_LIMIT && |manifest| == |ledger|
    && RowsGood(manifest)
    && (forall row | row in ledger ::
          LedgerRowGood(row) && exists expected | expected in manifest :: Describes(row, expected))
    && (forall i, j | 0 <= i < j < |ledger| :: ledger[i].filename != ledger[j].filename)
  }

  /** The map from filenames to rows holds exactly these rows. */
  predicate Indexed(byName: map<string, ManifestRow>, rows: seq<ManifestRow>) {
    && (forall row | row in rows :: row.filename in byName && byName[row.filename] == row)
    && (forall name | name in byName :: byName[name] in rows && byName[name].filename == name)
  }

  lemma IndexedExact(byName: map<string, ManifestRow>, rows: seq<ManifestRow>, name: string)
    requires Indexed(byName, rows)
    ensures name in byName <==> exists a | 0 <= a < |rows| :: rows[a].filename == name
  {
    if a :| 0 <= a < |rows| && rows[a].filename == name {
      assert rows[a] in rows;
    }
    if name in byName {
      var a :| 0 <= a < |rows| && rows[a] == byName[name];
    }
  }

  // One more row is good when it is well-formed and its name is not in the map, which then holds it too.
  lemma NextRow(byName: map<string, ManifestRow>, rows: seq<ManifestRow>, row: ManifestRow)
    requires Indexed(byName, rows) && RowsGood(rows)
    ensures RowsGood(rows + [row]) <==> ManifestRowGood(row) && row.filename !in byName
    ensures row.filename !in byName ==> Indexed(byName[row.filename := row], rows + [row])
  {
    hide ManifestRowGood;
    IndexedExact(byName, rows, row.filename);
    var more := rows + [row];
    assert row in more;
    if row.filename in byName {
      var a :| 0 <= a < |rows| && rows[a].filename == row.filename;
      assert more[a].filename == more[|rows|].filename;
    }
  }

  lemma FirstRowsGood(manifest: seq<ManifestRow>, n: nat)
    requires n <= |manifest|
    ensures RowsGood(manifest) ==> RowsGood(manifest[..n])
  {
    hide ManifestRowGood;
  }

  method VerifyMigration(row: ManifestRow) returns (ok: bool)
    ensures ok <==> ManifestRowGood(row)
  {
    if !MigrationName(row.filename) || !Hex(row.checksum, 64) {
      return false;
    }
    return row.migrationKey == row.filename[..15];
  }

  /** The first loop: well-formed rows, no filename twice. */
  method IndexManifest(manifest: seq<ManifestRow>) returns (ok: bool, byName: map<string, ManifestRow>)
    ensures ok <==> RowsGood(manifest)
    ensures ok ==> Indexed(byName, manifest)
  {
    byName := map[];
    assert Indexed(byName, manifest[..0]) && RowsGood(manifest[..0]);
    hide *;
    for i := 0 to |manifest|
      invariant RowsGood(manifest[..i]) && Indexed(byName, manifest[..i])
    {
      var row := manifest[i];
      assert manifest[..i + 1] == manifest[..i] + [row];
      NextRow(byName, manifest[..i], row);
      FirstRowsGood(manifest, i + 1);
      ok := VerifyMigration(row);
      if !ok || row.filename in byName {
        return false, byName;
      }
      byName := byName[row.filename := row];
    }
    assert manifest[..|manifest|] == manifest;
    ok := true;
  }

  method VerifyApplied(row: LedgerRow, expected: ManifestRow) returns (ok: bool)
    requires row.filename == expected.filename
    ensures ok <==> LedgerRowGood(row) && Describes(row, expected)
  {
    if !row.applied || !Uuid(row.id) {
      return false;
    }
    return row.checksum == expected.checksum && row.migrationKey == expected.migrationKey;
  }

  /** The second loop: every ledger row is applied, agrees with its migration, and is there once. */
  method VerifyLedger(manifest: seq<ManifestRow>, ledger: seq<LedgerRow>, byName: map<string, ManifestRow>)
    returns (ok: bool)
    requires Indexed(byName, manifest)
    ensures ok <==>
      && (forall row | row in ledger ::
            LedgerRowGood(row) && exists expected | expected in manifest :: Describes(row, expected))
      && (forall i, j | 0 <= i < j < |ledger| :: ledger[i].filename != ledger[j].filename)
  {
    hide LedgerRowGood;
    var seen: set<string> := {};
    for i := 0 to |ledger|
      invariant forall row | row in ledger[..i] :: LedgerRowGood(row) && exists e | e in manifest :: Describes(row, e)
      invariant seen == LedgerNames(ledger[..i])
      invariant forall a, b | 0 <= a < b < i :: ledger[a].filename != ledger[b].filename
    {
      var row := ledger[i];
      assert row in ledger && ledger[..i + 1] == ledger[..i] + [row];
      if row.filename !in byName {
        return false;
      }
      ok := VerifyApplied(row, byName[row.filename]);
      if !ok || row.filename in seen {
        if row.filename in seen {
          ghost var a :| 0 <= a < i && ledger[..i][a].filename == row.filename;
          assert ledger[a].filename == ledger[i].filename;
        }
        return false;
      }
      forall a | 0 <= a < i
        ensures ledger[a].filename != row.filename
      {
        assert ledger[a] in ledger[..i];
      }
      assert Describes(row, byName[row.filename]);
      seen := seen + {row.filename};
    }
    assert ledger[..|ledger|] == ledger;
    return true;
  }

  method VerifyManifest(manifest: seq<ManifestRow>, ledger: seq<LedgerRow>) returns (ok: bool)
    ensures ok <==> ManifestGood(manifest, ledger)
  {
    if |manifest| == 0 || |manifest| > 2000 || |manifest| != |ledger| {
      return false;
    }
    var indexed, byName := IndexManifest(manifest);
    if !indexed {
      return false;
    }
    ok := VerifyLedger(manifest, ledger, byName);
  }

  // ----- What a verified manifest means -----

  function ManifestNames(manifest: seq<ManifestRow>): set<string> {
    set row | row in manifest :: row.filename
  }

  function LedgerNames(ledger: seq<LedgerRow>): set<string> {
    set row | row in ledger :: row.filename
  }

  ghost predicate ManifestHolds(manifest: seq<ManifestRow>, name: string, m: Migration) {
    exists row | row in manifest :: row.filename == name && m == Migration(row.migrationKey, row.checksum)
  }

  ghost predicate LedgerHolds(ledger: seq<LedgerRow>, name: string, m: Migration) {
    exists row | row in ledger :: row.filename == name && m == Migration(row.migrationKey, row.checksum)
  }

  lemma ManifestNamesCount(manifest: seq<ManifestRow>)
    requires forall i, j | 0 <= i < j < |manifest| :: manifest[i].filename != manifest[j].filename
    ensures |ManifestNames(manifest)| == |manifest|
  {
    var names := Map(manifest, (row: ManifestRow) => row.filename);
    DistinctCardinality(names);
    assert forall i | 0 <= i < |names| :: manifest[i] in manifest && names[i] in names;
    assert Elements(names) == ManifestNames(manifest);
  }

  lemma LedgerNamesCount(ledger: seq<LedgerRow>)
    requires forall i, j | 0 <= i < j < |ledger| :: ledger[i].filename != ledger[j].filename
    ensures |LedgerNames(ledger)| == |ledger|
  {
    var names := Map(ledger, (row: LedgerRow) => row.filename);
    DistinctCardinality(names);
    assert forall i | 0 <= i < |names| :: ledger[i] in ledger && names[i] in names;
    assert Elements(names) == LedgerNames(ledger);
  }

  /**
   A passed check makes ledger and manifest a bijection: the same filenames, with the same key and checksum, each
   once.
   */
  lemma LedgerIsManifest(manifest: seq<ManifestRow>, ledger: seq<LedgerRow>)
    requires ManifestGood(manifest, ledger)
    ensures LedgerNames(ledger) == ManifestNames(manifest)
    ensures forall name, m :: LedgerHolds(ledger, name, m) <==> ManifestHolds(manifest, name, m)
  {
    hide ManifestRowGood, LedgerRowGood;
    ManifestNamesCount(manifest);
    LedgerNamesCount(ledger);
    var names, expected := LedgerNames(ledger), ManifestNames(manifest);
    assert names <= expected;
    assert expected == names + (expected - names);
    assert names == expected;
    forall name, m
      ensures LedgerHolds(ledger, name, m) <==> ManifestHolds(manifest, name, m)
    {
      if LedgerHolds(ledger, name, m) {
        var row :| row in ledger && row.filename == name && m == Migration(row.migrationKey, row.checksum);
        var e :| e in manifest && Describes(row, e);
      }
      if ManifestHolds(manifest, name, m) {
        var e :| e in manifest && e.filename == name && m == Migration(e.migrationKey, e.checksum);
        assert name in names;
        var row :| row in ledger && row.filename == name;
        var e' :| e' in manifest && Describes(row, e');
        SameNameSameRow(manifest, e, e');
      }
    }
  }

  lemma SameNameSameRow(manifest: seq<ManifestRow>, e: ManifestRow, e': ManifestRow)
    requires forall i, j | 0 <= i < j < |manifest| :: manifest[i].filename != manifest[j].filename
    requires e in manifest && e' in manifest && e.filename == e'.filename
    ensures e == e'
  {
  }

  // ----- Preservation -----

  /** Every row of the earlier ledger is still there, unchanged. */
  predicate RowsPreserved(earlier: seq<LedgerRow>, later: seq<LedgerRow>) {
    forall row | row in earlier :: row in later
  }

  /** The map lookup of verifyPreservation; later rows win over earlier ones with the same name. */
  method VerifyRowsPreserved(earlier: seq<LedgerRow>, later: seq<LedgerRow>) returns (ok: bool)
    requires forall i, j | 0 <= i < j < |later| :: later[i].filename != later[j].filename
    ensures ok <==> RowsPreserved(earlier, later)
  {
    var byName: map<string, LedgerRow> := map[];
    for i := 0 to |later|
      invariant forall row | row in later[..i] :: row.filename in byName && byName[row.filename] == row
      invariant forall name | name in byName :: byName[name] in later[..i] && byName[name].filename == name
    {
      assert later[..i + 1] == later[..i] + [later[i]];
      forall row | row in later[..i]
        ensures row.filename != later[i].filename
      {
        var a :| 0 <= a < i && later[..i][a] == row;
      }
      byName := byName[later[i].filename := later[i]];
    }
    assert later[..|later|] == later;
    for i := 0 to |earlier|
      invariant RowsPreserved(earlier[..i], later)
    {
      assert earlier[i] in earlier && earlier[..i + 1] == earlier[..i] + [earlier[i]];
      if earlier[i].filename !in byName || byName[earlier[i].filename] != earlier[i] {
        return false;
      }
    }
    assert earlier[..|earlier|] == earlier;
    return true;
  }

  /** The migrations of the earlier ledger are all among those of the later one, with the same key and checksum. */
  ghost predicate Extends(earlier: seq<LedgerRow>, later: seq<LedgerRow>) {
    forall name, m | LedgerHolds(earlier, name, m) :: LedgerHolds(later, name, m)
  }

  /**
   Of two verified ledgers with preserved rows, the length difference counts exactly the new filenames and is never
   negative.
   */
  lemma AddedCountsNewNames(earlier: seq<LedgerRow>, later: seq<LedgerRow>)
    requires forall i, j | 0 <= i < j < |earlier| :: earlier[i].filename != earlier[j].filename
    requires forall i, j | 0 <= i < j < |later| :: later[i].filename != later[j].filename
    requires RowsPreserved(earlier, later)
    ensures |later| - |earlier| == |LedgerNames(later) - LedgerNames(earlier)| >= 0
    ensures Extends(earlier, later)
  {
    LedgerNamesCount(earlier);
    LedgerNamesCount(later);
    var before, after := LedgerNames(earlier), LedgerNames(later);
    assert before <= after;
    assert after == before + (after - before);
  }

  /** Nothing added means the same migrations. */
  lemma NothingAddedIsSame(earlier: seq<LedgerRow>, later: seq<LedgerRow>)
    requires forall i, j | 0 <= i < j < |earlier| :: earlier[i].filename != earlier[j].filename
    requires forall i, j | 0 <= i < j < |later| :: later[i].filename != later[j].filename
    requires RowsPreserved(earlier, later) && |later| == |earlier|
    ensures forall name, m :: LedgerHolds(earlier, name, m) <==> LedgerHolds(later, name, m)
  {
    AddedCountsNewNames(earlier, later);
    assert LedgerNames(later) <= LedgerNames(earlier);
    forall name, m | LedgerHolds(later, name, m)
      ensures LedgerHolds(earlier, name, m)
    {
      var row :| row in later && row.filename == name && m == Migration(row.migrationKey, row.checksum);
      assert name in LedgerNames(later);
      var before :| before in earlier && before.filename == name;
      var i :| 0 <= i < |later| && later[i] == row;
      var j :| 0 <= j < |later| && later[j] == before;
      assert i == j;
    }
  }

  // ----- Indexes -----

  /** A reported index; fields may be missing from the report. */
  datatype IndexRow = IndexRow(
    name: string, tableName: Option<string>, definition: Option<string>, valid: bool, ready: bool)

  predicate NameChar(c: char) {
    'a' <= c <= 'z' || c == '_'
  }

  function NameAhead(s: string): string {
    if s != "" && NameChar(s[0]) then [s[0]] + NameAhead(s[1..]) else ""
  }

  const ON_PUBLIC := " ON public."

  /** The table that a definition names: the first match of ` ON public.([a-z_]+)`. */
  function TableOf(definition: string): Option<string> {
    if definition == "" then None
    else if ON_PUBLIC <= definition && NameAhead(definition[|ON_PUBLIC|..]) != ""
    then Some(NameAhead(definition[|ON_PUBLIC|..]))
    else TableOf(definition[1..])
  }

  /** At this place the definition reads ` ON public.` and the name of a table begins. */
  predicate TableAt(definition: string, i: nat) {
    && i + |ON_PUBLIC| < |definition| && definition[i..i + |ON_PUBLIC|] == ON_PUBLIC
    && NameChar(definition[i + |ON_PUBLIC|])
  }

  /** The characters of a name from this place up to the first other one. */
  predicate NameStands(s: string, i: nat, name: string) {
    && i + |name| <= |s| && s[i..i + |name|] == name && (forall c | c in name :: NameChar(c))
    && (i + |name| < |s| ==> !NameChar(s[i + |name|]))
  }

  lemma {:induction false} NameStandsAhead(s: string)
    ensures NameStands(s, 0, NameAhead(s))
  {
    hide NameChar;
    if s != "" && NameChar(s[0]) {
      NameStandsAhead(s[1..]);
      var name := NameAhead(s[1..]);
      assert s[1..][0..|name|] == s[1..1 + |name|];
      assert s[0..1 + |name|] == [s[0]] + s[1..1 + |name|];
    }
  }

  /** The table is that of the first place where one is named, and there is none without such a place. */
  lemma {:induction false} TableExact(definition: string) returns (i: nat)
    ensures TableOf(definition).None? ==> forall k: nat :: !TableAt(definition, k)
    ensures TableOf(definition).Some? ==>
      && TableAt(definition, i) && (forall k: nat | k < i :: !TableAt(definition, k))
      && NameStands(definition, i + |ON_PUBLIC|, TableOf(definition).value)
  {
    hide NameChar, NameStands;
    i := 0;
    if definition != "" {
      FirstTable(definition);
      if !TableAt(definition, 0) {
        var k := TableExact(definition[1..]);
        i := k + 1;
        forall n: nat
          ensures TableAt(definition[1..], n) <==> TableAt(definition, n + 1)
        {
          LaterTable(definition, n);
        }
        assert forall m: nat | TableAt(definition, m) :: TableAt(definition[1..], m - 1);
        if TableOf(definition).Some? {
          LaterName(definition, k + |ON_PUBLIC|, TableOf(definition).value);
        }
      }
    }
  }

  lemma FirstTable(definition: string)
    requires definition != ""
    ensures if TableAt(definition, 0)
      then TableOf(definition) == Some(NameAhead(definition[|ON_PUBLIC|..]))
        && NameStands(definition, |ON_PUBLIC|, NameAhead(definition[|ON_PUBLIC|..]))
      else TableOf(definition) == TableOf(definition[1..])
  {
    if ON_PUBLIC <= definition {
      var n := |ON_PUBLIC|;
      var rest := definition[n..];
      assert definition[0..n] == definition[..n];
      NameStandsAhead(rest);
      var name := NameAhead(rest);
      assert rest[0..|name|] == definition[n..n + |name|];
    }
  }

  lemma LaterTable(definition: string, n: nat)
    requires definition != ""
    ensures TableAt(definition[1..], n) <==> TableAt(definition, n + 1)
  {
    if n + |ON_PUBLIC| < |definition| - 1 {
      assert definition[1..][n..n + |ON_PUBLIC|] == definition[n + 1..n + 1 + |ON_PUBLIC|];
    }
  }

  lemma LaterName(definition: string, i: nat, name: string)
    requires definition != "" && NameStands(definition[1..], i, name)
    ensures NameStands(definition, i + 1, name)
  {
    assert definition[1..][i..i + |name|] == definition[i + 1..i + 1 + |name|];
  }

  function ExpectedTable(expected: map<string, string>, name: string): Option<string> {
    if name in expected then TableOf(expected[name]) else None
  }

  function ExpectedDefinition(expected: map<string, string>, name: string): Option<string> {
    if name in expected then Some(expected[name]) else None
  }

  function IndexNames(indexes: seq<IndexRow>): set<string> {
    set row | row in indexes :: row.name
  }

  /**
   The check as written: a name that is not expected has no expected table and definition, and is compared with
   that.
   */
  predicate IndexesAccepted(indexes: seq<IndexRow>, expected: map<string, string>) {
    && |indexes| == |expected| && |IndexNames(indexes)| == |expected|
    && forall row | row in indexes ::
         row.valid && row.ready
         && row.tableName == ExpectedTable(expected, row.name)
         && row.definition == ExpectedDefinition(expected, row.name)
  }

  /** The loop over the reported indexes. */
  method VerifyIndexes(indexes: seq<IndexRow>, expected: map<string, string>) returns (ok: bool)
    ensures ok <==> IndexesAccepted(indexes, expected)
  {
    hide TableOf;
    if |indexes| != |expected| || |(set row | row in indexes :: row.name)| != |expected| {
      return false;
    }
    for i := 0 to |indexes|
      invariant forall row | row in indexes[..i] ::
        row.valid && row.ready && row.tableName == ExpectedTable(expected, row.name)
          && row.definition == ExpectedDefinition(expected, row.name)
    {
      var index := indexes[i];
      assert index in indexes && indexes[..i + 1] == indexes[..i] + [index];
      if !index.valid || !index.ready {
        return false;
      }
      var known := index.name in expected;
      if index.tableName != (if known then TableOf(expected[index.name]) else None) {
        return false;
      }
      if index.definition != (if known then Some(expected[index.name]) else None) {
        return false;
      }
    }
    assert indexes[..|indexes|] == indexes;
    return true;
  }

  /** Accepted indexes are exactly the expected ones if and only if every reported index carries a definition. */
  lemma IndexesExact(indexes: seq<IndexRow>, expected: map<string, string>)
    requires IndexesAccepted(indexes, expected)
    ensures IndexNames(indexes) == expected.Keys <==> forall row | row in indexes :: row.definition.Some?
  {
    var names := IndexNames(indexes);
    if forall row | row in indexes :: row.definition.Some? {
      assert names <= expected.Keys;
      assert expected.Keys == names + (expected.Keys - names);
      assert |expected.Keys| == |expected|;
    } else {
      var row :| row in indexes && row.definition.None?;
      assert row.name in names && row.name !in expected;
    }
  }

  lemma IndexNamesCount(indexes: seq<IndexRow>)
    ensures |IndexNames(indexes)| == |indexes| <==>
      forall i, j | 0 <= i < j < |indexes| :: indexes[i].name != indexes[j].name
  {
    var names := Map(indexes, (row: IndexRow) => row.name);
    DistinctCardinality(names);
    assert forall i | 0 <= i < |names| :: indexes[i] in indexes && names[i] in names;
    assert Elements(names) == IndexNames(indexes);
  }

  /**
   In any accepted report, any index may give way to one that nobody expects, as long as its table and definition are
   left out.
   */
  lemma UndefinedIndexAccepted(indexes: seq<IndexRow>, expected: map<string, string>, k: nat, name: string)
    requires IndexesAccepted(indexes, expected) && k < |indexes|
    requires name !in expected && name !in IndexNames(indexes)
    ensures var report := indexes[k := IndexRow(name, None, None, true, true)];
      IndexesAccepted(report, expected) && IndexNames(report) != expected.Keys
  {
    hide TableOf;
    var report := indexes[k := IndexRow(name, None, None, true, true)];
    IndexNamesCount(indexes);
    forall i | 0 <= i < |indexes|
      ensures indexes[i].name != name
    {
      assert indexes[i] in indexes;
    }
    IndexNamesCount(report);
    forall row | row in report
      ensures row == report[k] || row in indexes
    {
    }
    assert report[k] in report && name in IndexNames(report);
  }

  /** The smallest such report: whatever one index is configured, a single other index without a table is accepted. */
  lemma UnexpectedIndexAccepted(wanted: string, definition: string, other: string)
    requires other != wanted
    ensures IndexesAccepted([IndexRow(other, None, None, true, true)], map[wanted := definition])
  {
    hide TableOf;
    var row := IndexRow(other, None, None, true, true);
    assert IndexNames([row]) == {other};
  }
}
