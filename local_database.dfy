/** The desktop app's local SQLite store as the main process opens and
    upgrades it: the schema created on first launch, the version recorded in
    `database_metadata`, the ordered list of migrations run against the
    version read at start-up, the install metadata rewritten on every launch,
    and the module-level connection handle. The database file is a `Store`
    value; the SQL engine itself is not modelled, only what each statement
    leaves in the file. */
module LocalDatabase {
  import opened Wrappers
  import opened Strings
  import opened Tokens
  import opened JsValues
  import Seqs

  const NotInitialized := "Database not initialized"

  // ---------------------------------------------------------------------
  // Version strings and the comparison that decides whether a migration runs
  // ---------------------------------------------------------------------

  /** A JavaScript number as `Number(piece)` produces it from a version piece. */
  datatype Num = Finite(n: nat) | NaN

  predicate IsDot(c: char) {
    c == '.'
  }

  /** `Number(s)`: surrounding white space is ignored, the empty string is 0,
      a run of decimal digits is its value, anything else is `NaN`. */
  function NumberOf(s: string): (r: Num)
    ensures Trim(s) == [] ==> r == Finite(0)
  {
    var t := Trim(s);
    if AllDigits(t) then Finite(DecimalValue(t)) else NaN
  }

  /** `version.split('.').map(Number)`. */
  function ParseVersion(v: string): seq<Num> {
    Seqs.Map(SplitAt(v, IsDot), NumberOf)
  }

  /** `String(x)` for a parsed piece. */
  function NumText(x: Num): string {
    match x
    case Finite(n) => NatToDecimal(n)
    case NaN => "NaN"
  }

  /** What `<` compares when both sides are arrays: their `toString()`,
      which joins the elements with commas. */
  function ArrayText(xs: seq<Num>): string {
    Join(Seqs.Map(xs, NumText), ",")
  }

  /** `<` on two strings: code unit by code unit, a proper prefix first. */
  predicate LexLess(a: string, b: string) {
    if a == [] then b != []
    else if b == [] then false
    else if a[0] != b[0] then a[0] < b[0]
    else LexLess(a[1..], b[1..])
  }

  /** `shouldRunMigration(current, target)`: nothing runs without a current
      version (null or empty), otherwise the two parsed arrays are compared
      with `<`. */
  predicate ShouldRun(current: Option<string>, target: string) {
    current.Some? && current.value != [] &&
    LexLess(ArrayText(ParseVersion(current.value)), ArrayText(ParseVersion(target)))
  }

  lemma {:induction false} LexLessIrreflexive(a: string)
    ensures !LexLess(a, a)
  {
    if a != [] {
      LexLessIrreflexive(a[1..]);
    }
  }

  lemma {:induction false} LexLessAsymmetric(a: string, b: string)
    ensures LexLess(a, b) ==> !LexLess(b, a)
  {
    if a != [] && b != [] && a[0] == b[0] {
      LexLessAsymmetric(a[1..], b[1..]);
    }
  }

  lemma {:induction false} LexLessTotal(a: string, b: string)
    ensures a != b ==> LexLess(a, b) || LexLess(b, a)
  {
    if a != [] && b != [] && a[0] == b[0] {
      LexLessTotal(a[1..], b[1..]);
      assert a == [a[0]] + a[1..] && b == [b[0]] + b[1..];
    }
  }

  /** A store is never migrated to the version it already records. */
  lemma NeverRerunsCurrent(v: string)
    ensures !ShouldRun(Some(v), v)
  {
    LexLessIrreflexive(ArrayText(ParseVersion(v)));
  }

  /** Of two versions, at most one is behind the other. */
  lemma RunsOneWay(a: string, b: string)
    ensures ShouldRun(Some(a), b) ==> !ShouldRun(Some(b), a)
  {
    LexLessAsymmetric(ArrayText(ParseVersion(a)), ArrayText(ParseVersion(b)));
  }

  /** Two versions that compare differently as text are ordered one way or the
      other. */
  lemma OrdersDistinctVersions(a: string, b: string)
    requires a != [] && b != []
    requires ArrayText(ParseVersion(a)) != ArrayText(ParseVersion(b))
    ensures ShouldRun(Some(a), b) || ShouldRun(Some(b), a)
  {
    LexLessTotal(ArrayText(ParseVersion(a)), ArrayText(ParseVersion(b)));
  }

  predicate NoDot(p: string) {
    forall i :: 0 <= i < |p| ==> !IsDot(p[i])
  }

  /** Splitting runs over a piece without dots and stops at the dot after it. */
  lemma {:induction false} SplitPiece(p: string, rest: string, cur: string)
    requires NoDot(p)
    ensures SplitAtFrom(p + "." + rest, IsDot, cur) == [cur + p] + SplitAt(rest, IsDot)
    ensures SplitAtFrom(p, IsDot, cur) == [cur + p]
    decreases |p|
  {
    var s := p + "." + rest;
    if p == [] {
      assert s[0] == '.' && s[1..] == rest;
      assert cur + p == cur;
    } else {
      SplitPiece(p[1..], rest, cur + [p[0]]);
      assert s[0] == p[0] && !IsDot(p[0]);
      assert s[1..] == p[1..] + "." + rest;
      assert cur + [p[0]] + p[1..] == cur + p;
    }
  }

  /** The text `<` compares for a three-piece version `p.q.r`. */
  lemma VersionText3(v: string, p: string, q: string, r: string)
    requires NoDot(p) && NoDot(q) && NoDot(r)
    requires v == p + "." + q + "." + r
    ensures ArrayText(ParseVersion(v)) ==
      NumText(NumberOf(p)) + "," + (NumText(NumberOf(q)) + "," + NumText(NumberOf(r)))
  {
    SplitThree(v, p, q, r);
    Seqs.MapThree([p, q, r], NumberOf);
    var xs := [NumberOf(p), NumberOf(q), NumberOf(r)];
    Seqs.MapThree(xs, NumText);
    JoinThree(NumText(xs[0]), NumText(xs[1]), NumText(xs[2]), ",");
  }

  lemma SplitThree(v: string, p: string, q: string, r: string)
    requires NoDot(p) && NoDot(q) && NoDot(r)
    requires v == p + "." + q + "." + r
    ensures SplitAt(v, IsDot) == [p, q, r]
  {
    assert v == p + "." + (q + "." + r);
    SplitPiece(p, q + "." + r, []);
    SplitPiece(q, r, []);
    SplitPiece(r, [], []);
    assert [] + p == p && [] + q == q && [] + r == r;
  }

  lemma JoinThree(x: string, y: string, z: string, sep: string)
    ensures Join([x, y, z], sep) == x + sep + (y + sep + z)
  {
    assert [x, y, z][1..] == [y, z] && [y, z][1..] == [z];
    assert Join([z], sep) == z;
    assert Join([y, z], sep) == y + sep + z;
  }

  lemma DigitText(a: char)
    requires IsDigit(a)
    ensures NumText(NumberOf([a])) == [a]
  {
    DigitNumber(a);
    DigitDecimal(a);
  }

  lemma DigitNumber(a: char)
    requires IsDigit(a)
    ensures NumberOf([a]) == Finite(DigitValue(a))
  {
    DigitValueOf(a);
    DigitsNumber([a]);
  }

  lemma DigitValueOf(a: char)
    requires IsDigit(a)
    ensures DecimalValue([a]) == DigitValue(a)
  {
    assert [a][..0] == [];
  }

  lemma DigitDecimal(a: char)
    requires IsDigit(a)
    ensures NatToDecimal(DigitValue(a)) == [a]
  {
  }

  lemma TenText()
    ensures NumText(NumberOf("10")) == "10"
  {
    TenValue();
    DigitsNumber("10");
    TenDecimal();
  }

  /** `Number` of a run of decimal digits is its value. */
  lemma DigitsNumber(s: string)
    requires s != [] && AllDigits(s)
    ensures NumberOf(s) == Finite(DecimalValue(s))
  {
    TrimDigits(s);
  }

  lemma TenValue()
    ensures DecimalValue("10") == 10
  {
    assert "10"[..1] == "1";
    DigitValueOf('1');
  }

  lemma TenDecimal()
    ensures NatToDecimal(10) == "10"
  {
    assert NatToDecimal(1) == "1";
  }

  /** A piece that starts and ends with a digit is not trimmed. */
  lemma TrimDigits(s: string)
    requires s != [] && IsDigit(s[0]) && IsDigit(s[|s| - 1])
    ensures Trim(s) == s
  {
    assert !IsWhitespace(s[0]);
    assert TrimStart(s) == s;
    assert !IsWhitespace(s[|s| - 1]);
  }

  /** The text compared for a version `a.b.c` of three single digits. */
  lemma DigitsText(v: string, a: char, b: char, c: char)
    requires IsDigit(a) && IsDigit(b) && IsDigit(c)
    requires v == [a, '.', b, '.', c]
    ensures ArrayText(ParseVersion(v)) == [a] + "," + ([b] + "," + [c])
  {
    VersionText3(v, [a], [b], [c]);
    DigitText(a);
    DigitText(b);
    DigitText(c);
  }

  /** Regrouping the joined text of `x.y.z` as a prefix and the last piece. */
  lemma Regroup(x: string, y: string, z: string)
    requires x == "1" && y == "0"
    ensures x + "," + (y + "," + z) == "1,0," + z
  {
    assert x + "," + (y + "," + z) == (x + "," + y + ",") + z;
  }

  /** `<` decides on the first difference: a common prefix does not matter. */
  lemma {:induction false} LexLessPrefix(p: string, a: string, b: string)
    ensures LexLess(p + a, p + b) == LexLess(a, b)
    decreases |p|
  {
    if p != [] {
      LexLessPrefix(p[1..], a, b);
      assert (p + a)[1..] == p[1..] + a && (p + b)[1..] == p[1..] + b;
    } else {
      assert p + a == a && p + b == b;
    }
  }

  /** The text compared for `1.0.c`, with `c` a single digit. */
  lemma PatchText(v: string, c: char)
    requires IsDigit(c) && v == ['1', '.', '0', '.', c]
    ensures ArrayText(ParseVersion(v)) == "1,0," + [c]
  {
    DigitsText(v, '1', '0', c);
    Regroup("1", "0", [c]);
  }

  lemma TenPatchText(v: string)
    requires v == "1.0.10"
    ensures ArrayText(ParseVersion(v)) == "1,0," + "10"
  {
    VersionText3(v, "1", "0", "10");
    DigitText('1');
    DigitText('0');
    TenText();
    Regroup("1", "0", "10");
  }

  /** The version pieces are compared as text, not as numbers: a store at
      1.0.10 counts as older than 1.0.2. */
  lemma ComparesAsText(v: string, w: string)
    requires v == "1.0.10" && w == "1.0.2"
    ensures ShouldRun(Some(v), w)
  {
    TenPatchText(v);
    PatchText(w, '2');
    LexLessPrefix("1,0,", "10", "2");
  }

  /** The comparisons made between the versions this program writes. */
  lemma KnownVersions(v0: string, v1: string, v2: string)
    requires v0 == InitialVersion && v1 == "1.0.1" && v2 == "1.0.2"
    ensures ShouldRun(Some(v0), v1) && ShouldRun(Some(v0), v2) && ShouldRun(Some(v1), v2)
    ensures !ShouldRun(Some(v1), v1) && !ShouldRun(Some(v2), v1) && !ShouldRun(Some(v2), v2)
  {
    PatchText(v0, '0');
    PatchText(v1, '1');
    PatchText(v2, '2');
    var p := "1,0,";
    LexLessPrefix(p, "0", "1");
    LexLessPrefix(p, "0", "2");
    LexLessPrefix(p, "1", "2");
    LexLessPrefix(p, "2", "1");
    NeverRerunsCurrent(v1);
    NeverRerunsCurrent(v2);
  }

  // ---------------------------------------------------------------------
  // The database file
  // ---------------------------------------------------------------------

  /** The tables the schema and the migrations create. */
  datatype Table = MetadataTable | FoldersTable | ScreenshotsTable | SettingsTable

  /** The keys this module writes in `database_metadata`: `version`,
      `install_id`, `install_date` and `app_version`. */
  datatype MetaKey = VersionKey | InstallIdKey | InstallDateKey | AppVersionKey

  /** The columns of a `screenshots` row that the start-up code reads or
      writes. `userNotes` is `None` for SQL `NULL`; `noteHistory` is meaningful
      only once the `note_history` column exists. */
  datatype ShotRow = ShotRow(id: string, userNotes: Option<string>, createdAt: Value, noteHistory: Value)

  datatype Store = Store(
    metadata: map<MetaKey, string>,
    tables: set<Table>,
    noteHistoryColumn: bool,
    screenshots: seq<ShotRow>)

  const EmptyStore := Store(map[], {}, false, [])

  const InitialVersion := "1.0.0"

  predicate DistinctIds(rows: seq<ShotRow>) {
    forall i, j :: 0 <= i < j < |rows| ==> rows[i].id != rows[j].id
  }

  /** What the module's own statements keep true of the file: metadata lives
      in its table, a recorded version means the schema was created, rows live
      in the screenshots table, and `id` is the primary key. */
  predicate WellFormed(s: Store) {
    (MetadataTable !in s.tables ==> s.metadata == map[]) &&
    (VersionKey in s.metadata ==> SchemaCreated(s)) &&
    (ScreenshotsTable !in s.tables ==> s.screenshots == [] && !s.noteHistoryColumn) &&
    DistinctIds(s.screenshots)
  }

  /** The three tables a recorded version implies. */
  predicate SchemaCreated(s: Store) {
    MetadataTable in s.tables && FoldersTable in s.tables && ScreenshotsTable in s.tables
  }

  /** `getDatabaseVersion()` on an open handle: the stored value, or null when
      the row (or the table) is missing. */
  function VersionOf(s: Store): (r: Option<string>)
    ensures r.Some? ==> VersionKey in s.metadata
  {
    if MetadataTable in s.tables && VersionKey in s.metadata then Some(s.metadata[VersionKey]) else None
  }

  function SetVersion(s: Store, v: string): Store {
    s.(metadata := s.metadata[VersionKey := v])
  }

  function CreateSchema(s: Store): Store {
    s.(tables := s.tables + {FoldersTable, ScreenshotsTable})
  }

  function SetMetadata(s: Store, installId: string, installDate: string, appVersion: string): Store {
    s.(metadata := s.metadata[InstallIdKey := installId][InstallDateKey := installDate][AppVersionKey := appVersion])
  }

  // ---------------------------------------------------------------------
  // Migrations
  // ---------------------------------------------------------------------

  datatype Step = AddSettingsTable | AddNoteHistory
  datatype Migration = Migration(version: string, step: Step)

  const Migrations: seq<Migration> := [Migration("1.0.1", AddSettingsTable), Migration("1.0.2", AddNoteHistory)]

  /** The `note_history` column's default, the text of an empty list. */
  const EmptyHistory := Stringify(Arr([]))

  /** `JSON.stringify([{ text, timestamp }])`. */
  function HistoryOf(notes: string, createdAt: Value): Value {
    Stringify(Arr([Obj([Field("text", Str(notes)), Field("timestamp", createdAt)])]))
  }

  /** The rows the back-fill selects: `user_notes != ''`, which SQL `NULL`
      does not satisfy. */
  predicate HasNotes(r: ShotRow) {
    r.userNotes.Some? && r.userNotes.value != []
  }

  function Backfill(r: ShotRow): ShotRow {
    r.(noteHistory := if HasNotes(r) then HistoryOf(r.userNotes.value, r.createdAt) else EmptyHistory)
  }

  function Backfilled(rows: seq<ShotRow>): (r: seq<ShotRow>)
    ensures |r| == |rows|
  {
    seq(|rows|, j requires 0 <= j < |rows| => Backfill(rows[j]))
  }

  /** Migration 1.0.2 as a whole: nothing when the column is already there,
      otherwise the column with its default and the back-filled histories. */
  function AddNoteHistoryTo(s: Store): Store {
    if s.noteHistoryColumn then s
    else s.(noteHistoryColumn := true, screenshots := Backfilled(s.screenshots))
  }

  function Apply(m: Migration, s: Store): Store {
    match m.step
    case AddSettingsTable => s.(tables := s.tables + {SettingsTable})
    case AddNoteHistory => AddNoteHistoryTo(s)
  }

  /** One turn of the migration loop: a migration newer than the version read
      at start-up runs and then records its own version. */
  function MigrateStep(s: Store, current: Option<string>, m: Migration): Store {
    if ShouldRun(current, m.version) then SetVersion(Apply(m, s), m.version) else s
  }

  /** `runMigrations(current)` over the first migrations of the list. */
  function Migrate(s: Store, current: Option<string>, ms: seq<Migration>): Store
    decreases |ms|
  {
    if ms == [] then s
    else MigrateStep(Migrate(s, current, ms[..|ms| - 1]), current, ms[|ms| - 1])
  }

  /** `initializeDatabaseSchema()`: the metadata table, then the initial
      schema and version 1.0.0 when no version is stored, then the migrations
      against the version read before any of that. */
  function InitSchema(s: Store): Store {
    var s1 := s.(tables := s.tables + {MetadataTable});
    var current := VersionOf(s1);
    var s2 := if current.None? then SetVersion(CreateSchema(s1), InitialVersion) else s1;
    Migrate(s2, current, Migrations)
  }

  /** `initDatabase()` on the file's contents, with the id, the clock reading
      and the app version it writes passed in. */
  function Init(s: Store, installId: string, installDate: string, appVersion: string): (r: Store)
    ensures InstallIdKey in r.metadata && r.metadata[InstallIdKey] == installId
    ensures InstallDateKey in r.metadata && r.metadata[InstallDateKey] == installDate
    ensures AppVersionKey in r.metadata && r.metadata[AppVersionKey] == appVersion
  {
    SetMetadata(InitSchema(s), installId, installDate, appVersion)
  }

  // ---------------------------------------------------------------------
  // Properties of start-up
  // ---------------------------------------------------------------------

  lemma {:induction false} MigrateSkipsAll(s: Store, ms: seq<Migration>)
    ensures Migrate(s, None, ms) == s
    decreases |ms|
  {
    if ms != [] {
      MigrateSkipsAll(s, ms[..|ms| - 1]);
    }
  }

  /** The migration loop over a prefix one longer. */
  lemma MigratePrefixStep(s: Store, current: Option<string>, i: nat)
    requires i < |Migrations|
    ensures Migrate(s, current, Migrations[..i + 1]) ==
      MigrateStep(Migrate(s, current, Migrations[..i]), current, Migrations[i])
  {
    assert Migrations[..i + 1][..i] == Migrations[..i];
  }

  /** The migration loop over the whole list, unrolled. */
  lemma MigrateTwo(s: Store, current: Option<string>)
    ensures Migrate(s, current, Migrations) ==
      MigrateStep(MigrateStep(s, current, Migrations[0]), current, Migrations[1])
  {
    MigratePrefixStep(s, current, 0);
    MigratePrefixStep(s, current, 1);
    assert Migrations[..0] == [] && Migrations[..2] == Migrations;
  }

  /** A first launch creates the schema and records 1.0.0; no migration runs
      in that same launch, so the rows and the `note_history` column are as
      they were. */
  lemma FreshInstall(s: Store, installId: string, installDate: string, appVersion: string)
    requires WellFormed(s) && VersionKey !in s.metadata
    ensures var r := Init(s, installId, installDate, appVersion);
      VersionKey in r.metadata && r.metadata[VersionKey] == InitialVersion &&
      r.tables == s.tables + {MetadataTable, FoldersTable, ScreenshotsTable} &&
      r.noteHistoryColumn == s.noteHistoryColumn && r.screenshots == s.screenshots
  {
    var s1 := s.(tables := s.tables + {MetadataTable});
    assert VersionOf(s1) == None;
    MigrateSkipsAll(SetVersion(CreateSchema(s1), InitialVersion), Migrations);
  }

  /** The two migration steps from 1.0.0. */
  lemma MigrateFromInitial(s: Store, current: Option<string>)
    requires current == Some(InitialVersion)
    ensures Migrate(s, current, Migrations) ==
      SetVersion(AddNoteHistoryTo(SetVersion(s.(tables := s.tables + {SettingsTable}), "1.0.1")), "1.0.2")
  {
    KnownVersions(InitialVersion, Migrations[0].version, Migrations[1].version);
    MigrateTwo(s, current);
  }

  /** Start-up over a store that records a version: the migrations run
      against that version. */
  lemma InitSchemaAt(s: Store)
    requires VersionKey in s.metadata
    ensures InitSchema(s) ==
      Migrate(s.(tables := s.tables + {MetadataTable}), Some(s.metadata[VersionKey]), Migrations)
  {
  }

  /** A store at 1.0.0 runs both migrations in order and ends at 1.0.2 with
      the settings table and the back-filled note histories. */
  lemma UpgradeFromInitial(s: Store, installId: string, installDate: string, appVersion: string)
    requires VersionKey in s.metadata && s.metadata[VersionKey] == InitialVersion
    ensures var r := Init(s, installId, installDate, appVersion);
      VersionKey in r.metadata && r.metadata[VersionKey] == "1.0.2" &&
      r.tables == s.tables + {MetadataTable, SettingsTable} &&
      r.noteHistoryColumn &&
      r.screenshots == if s.noteHistoryColumn then s.screenshots else Backfilled(s.screenshots)
  {
    UpgradeSchema(s);
    UpgradedStore(s, InitSchema(s), installId, installDate, appVersion);
  }

  lemma UpgradeSchema(s: Store)
    requires VersionKey in s.metadata && s.metadata[VersionKey] == InitialVersion
    ensures var s1 := s.(tables := s.tables + {MetadataTable});
      InitSchema(s) == SetVersion(AddNoteHistoryTo(SetVersion(s1.(tables := s1.tables + {SettingsTable}), "1.0.1")), "1.0.2")
  {
    InitSchemaAt(s);
    MigrateFromInitial(s.(tables := s.tables + {MetadataTable}), Some(InitialVersion));
  }

  lemma UpgradedStore(s: Store, x: Store, installId: string, installDate: string, appVersion: string)
    requires var s1 := s.(tables := s.tables + {MetadataTable});
      x == SetVersion(AddNoteHistoryTo(SetVersion(s1.(tables := s1.tables + {SettingsTable}), "1.0.1")), "1.0.2")
    ensures var r := SetMetadata(x, installId, installDate, appVersion);
      VersionKey in r.metadata && r.metadata[VersionKey] == "1.0.2" &&
      r.tables == s.tables + {MetadataTable, SettingsTable} &&
      r.noteHistoryColumn &&
      r.screenshots == if s.noteHistoryColumn then s.screenshots else Backfilled(s.screenshots)
  {
  }

  /** A store already at 1.0.2 is left alone apart from the install metadata. */
  lemma UpToDate(s: Store, installId: string, installDate: string, appVersion: string)
    requires VersionKey in s.metadata && s.metadata[VersionKey] == "1.0.2"
    ensures Init(s, installId, installDate, appVersion) ==
      SetMetadata(s.(tables := s.tables + {MetadataTable}), installId, installDate, appVersion)
  {
    var s1 := s.(tables := s.tables + {MetadataTable});
    InitSchemaAt(s);
    KnownVersions(InitialVersion, Migrations[0].version, Migrations[1].version);
    MigrateTwo(s1, Some("1.0.2"));
  }

  /** On a store never initialised before, the `note_history` column arrives
      on the second launch, not the first; the store is then at 1.0.2, where
      further launches change only the install metadata (`UpToDate`). */
  lemma TwoLaunches(s: Store, id1: string, d1: string, id2: string, d2: string, app: string)
    requires WellFormed(s) && VersionKey !in s.metadata && !s.noteHistoryColumn
    ensures !Init(s, id1, d1, app).noteHistoryColumn
    ensures var second := Init(Init(s, id1, d1, app), id2, d2, app);
      second.noteHistoryColumn && VersionKey in second.metadata && second.metadata[VersionKey] == "1.0.2"
  {
    FreshInstall(s, id1, d1, app);
    UpgradeFromInitial(Init(s, id1, d1, app), id2, d2, app);
  }

  /** Migration 1.0.2 gives each row with notes a one-entry history holding
      its notes and its creation time, every other row an empty history, and
      changes nothing else in a row. */
  lemma BackfilledRows(rows: seq<ShotRow>, j: nat)
    requires j < |rows|
    ensures var r := Backfilled(rows)[j];
      r.id == rows[j].id && r.userNotes == rows[j].userNotes && r.createdAt == rows[j].createdAt &&
      Parse(r.noteHistory) == Success(
        if HasNotes(rows[j]) then Arr([Obj([Field("text", Str(rows[j].userNotes.value)), Field("timestamp", rows[j].createdAt)])])
        else Arr([]))
  {
  }

  lemma BackfilledIds(rows: seq<ShotRow>)
    requires DistinctIds(rows)
    ensures DistinctIds(Backfilled(rows))
  {
  }

  /** One migration step keeps the file well formed. */
  lemma StepWellFormed(s: Store, current: Option<string>, m: Migration)
    requires WellFormed(s)
    requires current.Some? && current.value != [] ==> SchemaCreated(s)
    ensures WellFormed(MigrateStep(s, current, m)) && s.tables <= MigrateStep(s, current, m).tables
  {
    if ShouldRun(current, m.version) {
      assert current.Some? && current.value != [];
      ApplyWellFormed(s, m);
    }
  }

  /** Running a migration and recording its version keeps the file well formed. */
  lemma ApplyWellFormed(s: Store, m: Migration)
    requires WellFormed(s) && SchemaCreated(s)
    ensures WellFormed(SetVersion(Apply(m, s), m.version)) && s.tables <= Apply(m, s).tables
  {
    if m.step.AddNoteHistory? {
      BackfilledIds(s.screenshots);
    }
  }

  /** The migration loop keeps the file well formed. */
  lemma {:induction false} MigrateWellFormed(s: Store, current: Option<string>, ms: seq<Migration>)
    requires WellFormed(s)
    requires current.Some? && current.value != [] ==> SchemaCreated(s)
    ensures WellFormed(Migrate(s, current, ms)) && s.tables <= Migrate(s, current, ms).tables
    decreases |ms|
  {
    if ms != [] {
      MigrateWellFormed(s, current, ms[..|ms| - 1]);
      StepWellFormed(Migrate(s, current, ms[..|ms| - 1]), current, ms[|ms| - 1]);
    }
  }

  /** Start-up schema work keeps the file well formed and keeps every table. */
  lemma InitSchemaWellFormed(s: Store)
    requires WellFormed(s)
    ensures WellFormed(InitSchema(s)) && s.tables + {MetadataTable} <= InitSchema(s).tables
  {
    var s1 := s.(tables := s.tables + {MetadataTable});
    var current := VersionOf(s1);
    var s2 := if current.None? then SetVersion(CreateSchema(s1), InitialVersion) else s1;
    MigrateWellFormed(s2, current, Migrations);
  }

  /** Start-up keeps the file well formed. */
  lemma InitWellFormed(s: Store, installId: string, installDate: string, appVersion: string)
    requires WellFormed(s)
    ensures WellFormed(Init(s, installId, installDate, appVersion))
  {
    InitSchemaWellFormed(s);
  }

  // ---------------------------------------------------------------------
  // The back-fill loop
  // ---------------------------------------------------------------------

  /** `UPDATE screenshots SET note_history = ? WHERE id = ?`. */
  function SetHistoryById(rows: seq<ShotRow>, id: string, h: Value): (r: seq<ShotRow>)
    ensures |r| == |rows|
  {
    seq(|rows|, j requires 0 <= j < |rows| => if rows[j].id == id then rows[j].(noteHistory := h) else rows[j])
  }

  /** The rows once the rows whose ids are in `done` have been back-filled. */
  function Partial(rows: seq<ShotRow>, done: set<string>): (r: seq<ShotRow>)
    ensures |r| == |rows|
  {
    seq(|rows|, j requires 0 <= j < |rows| => if rows[j].id in done then Backfill(rows[j]) else rows[j])
  }

  function IdsOf(rows: seq<ShotRow>): set<string> {
    set r | r in rows :: r.id
  }

  /** Updating a selected row by its id back-fills exactly that row. */
  lemma PartialStep(rows: seq<ShotRow>, done: set<string>, sel: ShotRow)
    requires DistinctIds(rows) && sel in rows && HasNotes(sel)
    ensures SetHistoryById(Partial(rows, done), sel.id, HistoryOf(sel.userNotes.value, sel.createdAt)) ==
      Partial(rows, done + {sel.id})
  {
    var a := SetHistoryById(Partial(rows, done), sel.id, HistoryOf(sel.userNotes.value, sel.createdAt));
    var b := Partial(rows, done + {sel.id});
    forall j | 0 <= j < |rows|
      ensures a[j] == b[j]
    {
      if rows[j].id == sel.id {
        var m :| 0 <= m < |rows| && rows[m] == sel;
        assert m == j;
      }
    }
  }

  /** `ALTER TABLE screenshots ADD COLUMN note_history TEXT DEFAULT '[]'`:
      every existing row reads the default. */
  function WithColumn(rows: seq<ShotRow>): (r: seq<ShotRow>)
    ensures |r| == |rows|
  {
    seq(|rows|, j requires 0 <= j < |rows| => rows[j].(noteHistory := EmptyHistory))
  }

  lemma WithColumnIds(rows: seq<ShotRow>)
    requires DistinctIds(rows)
    ensures DistinctIds(WithColumn(rows))
  {
  }

  /** The row the loop is at belongs to the table and has notes. */
  lemma Selected(rows: seq<ShotRow>, selected: seq<ShotRow>, i: nat)
    requires selected == Seqs.Filter(rows, HasNotes) && i < |selected|
    ensures selected[i] in rows && HasNotes(selected[i])
  {
    assert selected[i] in selected;
  }

  lemma IdsSnoc(rows: seq<ShotRow>, i: nat)
    requires i < |rows|
    ensures IdsOf(rows[..i + 1]) == IdsOf(rows[..i]) + {rows[i].id}
  {
    assert rows[..i + 1] == rows[..i] + [rows[i]];
  }

  /** Back-filling every selected row of the defaulted rows gives the
      migration's result. */
  lemma PartialAll(rows0: seq<ShotRow>, rows: seq<ShotRow>)
    requires rows == WithColumn(rows0)
    ensures Partial(rows, IdsOf(Seqs.Filter(rows, HasNotes))) == Backfilled(rows0)
  {
    var ids := IdsOf(Seqs.Filter(rows, HasNotes));
    forall j | 0 <= j < |rows|
      ensures Partial(rows, ids)[j] == Backfilled(rows0)[j]
    {
      if HasNotes(rows[j]) {
        SelectedId(rows, j);
      }
      PartialAt(rows0, rows, ids, j);
    }
  }

  /** A row with notes is among the rows the back-fill selects. */
  lemma SelectedId(rows: seq<ShotRow>, j: nat)
    requires j < |rows| && HasNotes(rows[j])
    ensures rows[j].id in IdsOf(Seqs.Filter(rows, HasNotes))
  {
    assert rows[j] in Seqs.Filter(rows, HasNotes);
  }

  lemma PartialAt(rows0: seq<ShotRow>, rows: seq<ShotRow>, ids: set<string>, j: nat)
    requires j < |rows| == |rows0|
    requires rows[j] == rows0[j].(noteHistory := EmptyHistory)
    requires HasNotes(rows[j]) ==> rows[j].id in ids
    ensures Partial(rows, ids)[j] == Backfilled(rows0)[j]
  {
  }

  // ---------------------------------------------------------------------
  // The module with its connection handle
  // ---------------------------------------------------------------------

  /** `electron/database.js` as a module: `db` is open or not, and the file
      it opens outlives it. */
  class DatabaseModule {
    var isOpen: bool
    var store: Store

    /** The module before `initDatabase()`, over a file this module wrote. */
    constructor (file: Store)
      requires WellFormed(file)
      ensures !isOpen && store == file
    {
      isOpen := false;
      store := file;
    }

    /** `initDatabase()`: opens the file, brings the schema up to date and
        rewrites the install metadata. */
    method InitDatabase(installId: string, installDate: string, appVersion: string)
      requires WellFormed(store)
      modifies this
      ensures isOpen && store == Init(old(store), installId, installDate, appVersion)
      ensures WellFormed(store)
    {
      isOpen := true;
      InitSchemaWellFormed(store);
      InitializeDatabaseSchema();
      SetDatabaseMetadata(installId, installDate, appVersion);
      InitWellFormed(old(store), installId, installDate, appVersion);
    }

    method InitializeDatabaseSchema()
      requires isOpen && WellFormed(store)
      modifies this
      ensures isOpen && store == InitSchema(old(store))
    {
      store := store.(tables := store.tables + {MetadataTable});
      var current := GetDatabaseVersion();
      if current.None? {
        CreateInitialSchema();
        SetDatabaseVersion(InitialVersion);
      }
      RunMigrations(current);
    }

    /** `getDatabaseVersion()`: any failure, a closed handle included, reads
        as null. */
    method GetDatabaseVersion() returns (v: Option<string>)
      ensures v.Some? <==> isOpen && MetadataTable in store.tables && VersionKey in store.metadata
      ensures v.Some? ==> v.value == store.metadata[VersionKey]
    {
      if isOpen {
        v := VersionOf(store);
      } else {
        v := None;
      }
    }

    /** `INSERT OR REPLACE` of the `version` row. */
    method SetDatabaseVersion(version: string)
      requires isOpen && MetadataTable in store.tables
      modifies this
      ensures isOpen && store == SetVersion(old(store), version)
    {
      store := store.(metadata := store.metadata[VersionKey := version]);
    }

    /** `CREATE TABLE IF NOT EXISTS` for folders and screenshots. */
    method CreateInitialSchema()
      requires isOpen
      modifies this
      ensures isOpen && store == CreateSchema(old(store))
    {
      store := store.(tables := store.tables + {FoldersTable, ScreenshotsTable});
    }

    /** `setDatabaseMetadata()`: three `INSERT OR REPLACE` statements. */
    method SetDatabaseMetadata(installId: string, installDate: string, appVersion: string)
      requires isOpen && MetadataTable in store.tables
      modifies this
      ensures isOpen && store == SetMetadata(old(store), installId, installDate, appVersion)
    {
      store := store.(metadata := store.metadata[InstallIdKey := installId]);
      store := store.(metadata := store.metadata[InstallDateKey := installDate]);
      store := store.(metadata := store.metadata[AppVersionKey := appVersion]);
    }

    /** `runMigrations(current)`: every migration newer than `current` runs,
        in list order, and records its version. */
    method RunMigrations(current: Option<string>)
      requires isOpen && WellFormed(store) && MetadataTable in store.tables
      requires current.Some? && current.value != [] ==> SchemaCreated(store)
      modifies this
      ensures isOpen && store == Migrate(old(store), current, Migrations)
    {
      for i := 0 to |Migrations|
        invariant isOpen && store == Migrate(old(store), current, Migrations[..i])
      {
        MigrateWellFormed(old(store), current, Migrations[..i]);
        MigratePrefixStep(old(store), current, i);
        var m := Migrations[i];
        if ShouldRun(current, m.version) {
          if m.step == AddSettingsTable {
            AddSettings();
          } else {
            AddNoteHistoryColumn();
          }
          SetDatabaseVersion(m.version);
        }
      }
      assert Migrations[..|Migrations|] == Migrations;
    }

    /** Migration 1.0.1: `CREATE TABLE IF NOT EXISTS app_settings`. */
    method AddSettings()
      requires isOpen
      modifies this
      ensures isOpen && store == old(store).(tables := old(store).tables + {SettingsTable})
    {
      store := store.(tables := store.tables + {SettingsTable});
    }

    /** Migration 1.0.2: unless the column exists, add it with its default,
        then write a one-entry history for each row with notes, by id. */
    method AddNoteHistoryColumn()
      requires isOpen && ScreenshotsTable in store.tables && DistinctIds(store.screenshots)
      modifies this
      ensures isOpen && store == AddNoteHistoryTo(old(store))
    {
      if !store.noteHistoryColumn {
        var rows0 := store.screenshots;
        var rows := WithColumn(rows0);
        WithColumnIds(rows0);
        store := store.(noteHistoryColumn := true, screenshots := rows);
        var selected := Seqs.Filter(rows, HasNotes);
        var i := 0;
        while i < |selected|
          invariant 0 <= i <= |selected|
          invariant isOpen
          invariant store == old(store).(noteHistoryColumn := true, screenshots := Partial(rows, IdsOf(selected[..i])))
        {
          var row := selected[i];
          Selected(rows, selected, i);
          PartialStep(rows, IdsOf(selected[..i]), row);
          IdsSnoc(selected, i);
          store := store.(screenshots := SetHistoryById(store.screenshots, row.id, HistoryOf(row.userNotes.value, row.createdAt)));
          i := i + 1;
        }
        assert selected[..i] == selected;
        PartialAll(rows0, rows);
      }
    }

    /** `getDatabase()`: the open handle, or the error when there is none. */
    method GetDatabase() returns (r: Result<Store>)
      ensures r.Success? <==> isOpen
      ensures r.Success? ==> r.value == store
      ensures r.Failure? ==> r.error == NotInitialized
    {
      if !isOpen {
        return Failure(NotInitialized);
      }
      return Success(store);
    }

    /** `closeDatabase()`: closes an open handle; calling it again does
        nothing. The file is untouched. */
    method CloseDatabase()
      modifies this
      ensures !isOpen && store == old(store)
    {
      if isOpen {
        isOpen := false;
      }
    }
  }
}
