/** The append-only migration runner of the poll tables
    (reference/polls/pollmodule/migrations.go) over the three embedded migrations, statement
    by statement, so that a run can be interrupted anywhere. Adoption of a schema older than
    the ledger runs outside a transaction; every other migration commits with its ledger row. */
module Migrations {
  import opened Options

  datatype TableName = Polls | Votes | Settings | AuditOutbox

  datatype ColumnName =
    | Id | TenantId | Slug | Title | Options | AuthorId | CreatedAt | Description | Status | ClosesAt | UpdatedAt
    | PollId | OptionIndex | VoterId | Key | Value
    | EventId | Actor | Action | Resource | Details | Severity | DeliveredAt

  datatype IndexName = PublicSlug | TenantCreated | VotesPoll | TenantStatusCreated | PublicStatusSlug | OutboxPending

  datatype Schema = Schema(tables: map<TableName, set<ColumnName>>, indexes: set<IndexName>)

  const EMPTY_SCHEMA := Schema(map[], {})

  datatype Sql =
    | CreateTable(table: TableName, columns: seq<ColumnName>)
    | CreateIndex(index: IndexName, on: TableName, keys: seq<ColumnName>, unique: bool)
    | AddColumn(to: TableName, column: ColumnName)
    | Fill(rows: TableName, set_: seq<ColumnName>)

  datatype Migration = Migration(version: nat, body: seq<Sql>)

  const INITIAL: seq<Sql> := [
    CreateTable(Polls, [Id, TenantId, Slug, Title, Options, AuthorId, CreatedAt]),
    CreateIndex(PublicSlug, Polls, [Slug], true),
    CreateIndex(TenantCreated, Polls, [TenantId, CreatedAt], false),
    CreateTable(Votes, [PollId, OptionIndex, VoterId]),
    CreateIndex(VotesPoll, Votes, [PollId], false)]

  const OUTBOX_COLUMNS: seq<ColumnName> :=
    [EventId, TenantId, Actor, Action, Resource, Details, Severity, CreatedAt, DeliveredAt]

  const LIFECYCLE: seq<Sql> := [
    AddColumn(Polls, Description),
    AddColumn(Polls, Status),
    AddColumn(Polls, ClosesAt),
    AddColumn(Polls, UpdatedAt),
    Fill(Polls, [Status, UpdatedAt]),
    AddColumn(Votes, CreatedAt),
    AddColumn(Votes, UpdatedAt),
    Fill(Votes, [CreatedAt, UpdatedAt]),
    CreateTable(Settings, [Key, Value, CreatedAt]),
    CreateTable(AuditOutbox, OUTBOX_COLUMNS)]

  const INDEXES: seq<Sql> := [
    CreateIndex(TenantStatusCreated, Polls, [TenantId, Status, CreatedAt], false),
    CreateIndex(PublicStatusSlug, Polls, [Status, Slug], false),
    CreateIndex(OutboxPending, AuditOutbox, [DeliveredAt, CreatedAt], false)]

  const MIGRATIONS := [Migration(1, INITIAL), Migration(2, LIFECYCLE), Migration(3, INDEXES)]

  // ---- one statement --------------------------------------------------------------------

  function Listed(columns: seq<ColumnName>): set<ColumnName> {
    set c | c in columns
  }

  predicate HasColumns(s: Schema, table: TableName, columns: seq<ColumnName>) {
    table in s.tables && Listed(columns) <= s.tables[table]
  }

  /** IF NOT EXISTS makes creation repeatable; adding a column is not. A unique index needs
      the stored slugs to be distinct. */
  function Exec(s: Schema, distinctSlugs: bool, sql: Sql): Option<Schema> {
    match sql
    case CreateTable(table, columns) =>
      Some(if table in s.tables then s else s.(tables := s.tables[table := Listed(columns)]))
    case CreateIndex(index, table, keys, unique) =>
      if index in s.indexes then Some(s)
      else if HasColumns(s, table, keys) && (unique ==> distinctSlugs) then Some(s.(indexes := s.indexes + {index}))
      else None
    case AddColumn(table, column) =>
      if table in s.tables && column !in s.tables[table] then
        Some(s.(tables := s.tables[table := s.tables[table] + {column}]))
      else None
    case Fill(table, columns) =>
      if HasColumns(s, table, columns) then Some(s) else None
  }

  function ExecFrom(s: Schema, distinctSlugs: bool, body: seq<Sql>, i: nat): Option<Schema>
    requires i <= |body|
    decreases |body| - i
  {
    if i == |body| then Some(s)
    else
      match Exec(s, distinctSlugs, body[i])
      case None => None
      case Some(s') => ExecFrom(s', distinctSlugs, body, i + 1)
  }

  // ---- the runner -----------------------------------------------------------------------

  /** The poll part of the database; ledger is None while its table does not exist. */
  datatype Database = Database(schema: Schema, ledger: Option<set<nat>>, distinctSlugs: bool)

  datatype Refusal = NewerSchema | MissingColumn | DuplicateSlugs | SqlFailure

  datatype Point =
    | Started
    | LedgerReady
    | Read(applied: set<nat>)
    | Accepted(applied: set<nat>)
    | Adopting(applied: set<nat>, n: nat)
    | Running(applied: set<nat>, i: nat)
    | Done
    | Refused(reason: Refusal)

  function MaxKnown(): nat {
    MIGRATIONS[|MIGRATIONS| - 1].version
  }

  const REQUIRED: seq<ColumnName> := [Id, TenantId, Slug, Title, Options, AuthorId, CreatedAt]

  function Adoption(d: Database, applied: set<nat>): Point {
    if 1 in applied || Polls !in d.schema.tables then Running(applied, 0)
    else if !HasColumns(d.schema, Polls, REQUIRED) then Refused(MissingColumn)
    else if !d.distinctSlugs then Refused(DuplicateSlugs)
    else Adopting(applied, 0)
  }

  function WithRow(d: Database, version: nat): Database {
    d.(ledger := Some((if d.ledger.Some? then d.ledger.value else {}) + {version}))
  }

  /** One migration in its transaction: body and ledger row together, or nothing. */
  function Apply(d: Database, applied: set<nat>, i: nat): (Database, Point)
    requires i < |MIGRATIONS|
  {
    var m := MIGRATIONS[i];
    if m.version in applied then (d, Running(applied, i + 1))
    else
      match ExecFrom(d.schema, d.distinctSlugs, m.body, 0)
      case None => (d, Refused(SqlFailure))
      case Some(s) => (WithRow(d.(schema := s), m.version), Running(applied + {m.version}, i + 1))
  }

  function Statement(d: Database, at: Point): (Database, Point) {
    match at
    case Started => (d.(ledger := Some(if d.ledger.Some? then d.ledger.value else {})), LedgerReady)
    case LedgerReady => (d, Read(if d.ledger.Some? then d.ledger.value else {}))
    case Read(applied) => (d, if exists v :: v in applied && MaxKnown() < v then Refused(NewerSchema)
        else Accepted(applied))
    case Accepted(applied) => (d, Adoption(d, applied))
    case Adopting(applied, n) =>
      if n < |INITIAL| then
        match Exec(d.schema, d.distinctSlugs, INITIAL[n])
        case None => (d, Refused(SqlFailure))
        case Some(s) => (d.(schema := s), Adopting(applied, n + 1))
      else (WithRow(d, 1), Running(applied + {1}, 0))
    case Running(applied, i) => if i < |MIGRATIONS| then Apply(d, applied, i) else (d, Done)
    case Done => (d, Done)
    case Refused(_) => (d, at)
  }

  /** A runner on its database, and, as history, the versions entered in the ledger so far. */
  datatype System = System(d: Database, at: Point, entered: seq<nat>)

  datatype Step = Advance | Interrupt

  function Versions(d: Database): set<nat> {
    if d.ledger.Some? then d.ledger.value else {}
  }

  /** The version a statement enters in the ledger, if it enters one. */
  function Entered(before: Database, after: Database): seq<nat> {
    if Versions(after) == Versions(before) then []
    else if 1 in Versions(after) - Versions(before) then [1]
    else if 2 in Versions(after) - Versions(before) then [2]
    else [3]
  }

  function Next(s: System, step: Step): System {
    match step
    case Interrupt => s.(at := Started)
    case Advance =>
      var (d', at') := Statement(s.d, s.at);
      System(d', at', s.entered + Entered(s.d, d'))
  }

  function Run(s: System, steps: seq<Step>): System {
    if steps == [] then s else Next(Run(s, steps[..|steps| - 1]), steps[|steps| - 1])
  }

  // ---- what the three bodies do to any schema -------------------------------------------

  const POLLS_V1: set<ColumnName> := {Id, TenantId, Slug, Title, Options, AuthorId, CreatedAt}
  const VOTES_V1: set<ColumnName> := {PollId, OptionIndex, VoterId}
  const POLLS_ADDED: set<ColumnName> := {Description, Status, ClosesAt, UpdatedAt}
  const VOTES_ADDED: set<ColumnName> := {CreatedAt, UpdatedAt}
  const SETTINGS: set<ColumnName> := {Key, Value, CreatedAt}
  const OUTBOX: set<ColumnName> :=
    {EventId, TenantId, Actor, Action, Resource, Details, Severity, CreatedAt, DeliveredAt}
  const INDEXES_V1: set<IndexName> := {PublicSlug, TenantCreated, VotesPoll}
  const INDEXES_ADDED: set<IndexName> := {TenantStatusCreated, PublicStatusSlug, OutboxPending}

  function WithTable(s: Schema, table: TableName, columns: set<ColumnName>): Schema {
    if table in s.tables then s else s.(tables := s.tables[table := columns])
  }

  function WithColumns(s: Schema, table: TableName, columns: set<ColumnName>): Schema
    requires table in s.tables
  {
    s.(tables := s.tables[table := s.tables[table] + columns])
  }

  function WithIndexes(s: Schema, indexes: set<IndexName>): Schema {
    s.(indexes := s.indexes + indexes)
  }

  /** The schema after each migration, from whatever schema s the first one found. */
  function V1Of(s: Schema): Schema {
    WithIndexes(WithTable(WithTable(s, Polls, POLLS_V1), Votes, VOTES_V1), INDEXES_V1)
  }

  function WithLifecycle(s: Schema): Schema
    requires Polls in s.tables && Votes in s.tables
  {
    var columns := WithColumns(WithColumns(s, Polls, POLLS_ADDED), Votes, VOTES_ADDED);
    WithTable(WithTable(columns, Settings, SETTINGS), AuditOutbox, OUTBOX)
  }

  function V2Of(s: Schema): Schema {
    WithLifecycle(V1Of(s))
  }

  function V3Of(s: Schema): Schema {
    WithIndexes(V2Of(s), INDEXES_ADDED)
  }

  lemma Unrolled(s: Schema, b: bool, body: seq<Sql>, i: nat)
    requires i < |body|
    ensures ExecFrom(s, b, body, i) ==
              match Exec(s, b, body[i])
              case None => None
              case Some(s') => ExecFrom(s', b, body, i + 1)
  {
  }

  lemma Finished(s: Schema, b: bool, body: seq<Sql>)
    ensures ExecFrom(s, b, body, |body|) == Some(s)
  {
  }

  /** A run of added columns succeeds exactly when the table has none of them. */
  lemma {:induction false} ColumnsAdded(s: Schema, b: bool, body: seq<Sql>, i: nat, table: TableName,
          columns: seq<ColumnName>)
    requires i + |columns| <= |body| && table in s.tables
    requires forall j | i <= j < i + |columns| :: body[j] == AddColumn(table, columns[j - i])
    requires forall j, k | 0 <= j < k < |columns| :: columns[j] != columns[k]
    ensures ExecFrom(s, b, body, i) ==
              if s.tables[table] !! Listed(columns) then
                ExecFrom(WithColumns(s, table, Listed(columns)), b, body, i + |columns|)
              else None
    decreases |columns|
  {
    hide ExecFrom;
    if columns == [] {
      assert Listed([]) == {} && s.tables[table] + {} == s.tables[table];
      assert WithColumns(s, table, {}).tables == s.tables;
    } else {
      var first, rest := columns[0], columns[1..];
      Unrolled(s, b, body, i);
      assert body[i] == AddColumn(table, first);
      assert Listed(columns) == {first} + Listed(rest);
      if first !in s.tables[table] {
        var s1 := WithColumns(s, table, {first});
        ColumnsAdded(s1, b, body, i + 1, table, rest);
        assert first !in Listed(rest);
        assert s1.tables[table] !! Listed(rest) <==> s.tables[table] !! Listed(columns);
        assert s.tables[table] + {first} + Listed(rest) == s.tables[table] + Listed(columns);
        assert WithColumns(s1, table, Listed(rest)).tables == WithColumns(s, table, Listed(columns)).tables;
      }
    }
  }

  lemma TableMade(s: Schema, b: bool, table: TableName, columns: seq<ColumnName>)
    ensures Exec(s, b, CreateTable(table, columns)) == Some(WithTable(s, table, Listed(columns)))
  {
  }

  lemma IndexMade(s: Schema, b: bool, index: IndexName, table: TableName, keys: seq<ColumnName>, unique: bool)
    ensures Exec(s, b, CreateIndex(index, table, keys, unique)) ==
              if index in s.indexes || (HasColumns(s, table, keys) && (unique ==> b)) then Some(WithIndexes(s, {index}))
              else None
  {
    if index in s.indexes {
      assert s.indexes + {index} == s.indexes;
    }
  }

  /** When the first body succeeds. */
  predicate InitialFits(s: Schema, distinctSlugs: bool) {
    && (PublicSlug in s.indexes || distinctSlugs)
    && (Votes in s.tables ==> VotesPoll in s.indexes || PollId in s.tables[Votes])
  }

  lemma InitialPolls(s: Schema, b: bool)
    requires Polls in s.tables && POLLS_V1 <= s.tables[Polls]
    ensures ExecFrom(s, b, INITIAL, 1) ==
              if PublicSlug in s.indexes || b then
                ExecFrom(WithIndexes(WithIndexes(s, {PublicSlug}), {TenantCreated}), b, INITIAL, 3)
              else None
  {
    hide ExecFrom;
    var s2 := WithIndexes(s, {PublicSlug});
    assert Slug in s.tables[Polls] && TenantId in s.tables[Polls] && CreatedAt in s.tables[Polls];
    assert HasColumns(s, Polls, [Slug]) && HasColumns(s2, Polls, [TenantId, CreatedAt]);
    Unrolled(s, b, INITIAL, 1);
    IndexMade(s, b, PublicSlug, Polls, [Slug], true);
    Unrolled(s2, b, INITIAL, 2);
    IndexMade(s2, b, TenantCreated, Polls, [TenantId, CreatedAt], false);
    hide Exec, HasColumns;
  }

  lemma InitialVotes(s: Schema, b: bool)
    ensures var s4 := WithTable(s, Votes, VOTES_V1);
            ExecFrom(s, b, INITIAL, 3) ==
              if VotesPoll in s.indexes || PollId in s4.tables[Votes] then Some(WithIndexes(s4, {VotesPoll})) else None
  {
    hide ExecFrom;
    var s4 := WithTable(s, Votes, VOTES_V1);
    assert Listed([PollId, OptionIndex, VoterId]) == VOTES_V1 && Listed([PollId]) == {PollId};
    Unrolled(s, b, INITIAL, 3);
    Unrolled(s4, b, INITIAL, 4);
    IndexMade(s4, b, VotesPoll, Votes, [PollId], false);
    Finished(WithIndexes(s4, {VotesPoll}), b, INITIAL);
  }

  lemma InitialBody(s: Schema, b: bool)
    requires Polls in s.tables ==> POLLS_V1 <= s.tables[Polls]
    ensures ExecFrom(s, b, INITIAL, 0) == if InitialFits(s, b) then Some(V1Of(s)) else None
  {
    var s1 := WithTable(s, Polls, POLLS_V1);
    var s3 := WithIndexes(WithIndexes(s1, {PublicSlug}), {TenantCreated});
    assert Listed(REQUIRED) == POLLS_V1;
    TableMade(s, b, Polls, REQUIRED);
    Unrolled(s, b, INITIAL, 0);
    assert INITIAL[0] == CreateTable(Polls, REQUIRED);
    hide ExecFrom, Exec, Listed;
    InitialPolls(s1, b);
    InitialVotes(s3, b);
    assert PollId in VOTES_V1;
    assert WithIndexes(WithTable(s3, Votes, VOTES_V1), {VotesPoll}).indexes == V1Of(s).indexes;
  }

  /** When the second body succeeds: none of the columns it adds may exist. */
  predicate LifecycleFits(s: Schema)
    requires Polls in s.tables && Votes in s.tables
  {
    s.tables[Polls] !! POLLS_ADDED && s.tables[Votes] !! VOTES_ADDED
  }

  lemma Filled(s: Schema, b: bool, rows: TableName, columns: seq<ColumnName>)
    requires HasColumns(s, rows, columns)
    ensures Exec(s, b, Fill(rows, columns)) == Some(s)
  {
  }

  lemma StatusListed(s: Schema)
    requires Polls in s.tables && POLLS_ADDED <= s.tables[Polls]
    ensures HasColumns(s, Polls, [Status, UpdatedAt])
  {
  }

  lemma LifecyclePolls(s: Schema, b: bool)
    requires Polls in s.tables
    ensures ExecFrom(s, b, LIFECYCLE, 0) ==
              if s.tables[Polls] !! POLLS_ADDED then ExecFrom(WithColumns(s, Polls, POLLS_ADDED), b, LIFECYCLE, 5)
                  else None
  {
    var added := [Description, Status, ClosesAt, UpdatedAt];
    assert Listed(added) == POLLS_ADDED;
    hide ExecFrom, Exec, Listed, HasColumns;
    ColumnsAdded(s, b, LIFECYCLE, 0, Polls, added);
    var s4 := WithColumns(s, Polls, POLLS_ADDED);
    StatusListed(s4);
    Filled(s4, b, Polls, [Status, UpdatedAt]);
    Unrolled(s4, b, LIFECYCLE, 4);
    hide WithColumns;
    assert LIFECYCLE[4] == Fill(Polls, [Status, UpdatedAt]);
  }

  lemma LifecycleVotes(s: Schema, b: bool)
    requires Votes in s.tables
    ensures ExecFrom(s, b, LIFECYCLE, 5) ==
              if s.tables[Votes] !! VOTES_ADDED then ExecFrom(WithColumns(s, Votes, VOTES_ADDED), b, LIFECYCLE, 8)
                  else None
  {
    hide ExecFrom;
    var added := [CreatedAt, UpdatedAt];
    assert Listed(added) == VOTES_ADDED;
    ColumnsAdded(s, b, LIFECYCLE, 5, Votes, added);
    var s7 := WithColumns(s, Votes, VOTES_ADDED);
    assert Listed([CreatedAt, UpdatedAt]) <= s7.tables[Votes];
    Unrolled(s7, b, LIFECYCLE, 7);
  }

  lemma LifecycleTables(s: Schema, b: bool)
    ensures ExecFrom(s, b, LIFECYCLE, 8) == Some(WithTable(WithTable(s, Settings, SETTINGS), AuditOutbox, OUTBOX))
  {
    assert Listed([Key, Value, CreatedAt]) == SETTINGS;
    assert Listed(OUTBOX_COLUMNS) == OUTBOX;
    var s9 := WithTable(s, Settings, SETTINGS);
    TableMade(s, b, Settings, [Key, Value, CreatedAt]);
    TableMade(s9, b, AuditOutbox, OUTBOX_COLUMNS);
    Unrolled(s, b, LIFECYCLE, 8);
    Unrolled(s9, b, LIFECYCLE, 9);
    Finished(WithTable(s9, AuditOutbox, OUTBOX), b, LIFECYCLE);
    hide ExecFrom, Exec, Listed, WithTable;
    assert LIFECYCLE[8] == CreateTable(Settings, [Key, Value, CreatedAt]);
    assert LIFECYCLE[9] == CreateTable(AuditOutbox, OUTBOX_COLUMNS);
  }

  lemma LifecycleBody(s: Schema, b: bool)
    requires Polls in s.tables && Votes in s.tables
    ensures ExecFrom(s, b, LIFECYCLE, 0) == if LifecycleFits(s) then Some(WithLifecycle(s)) else None
  {
    hide ExecFrom;
    LifecyclePolls(s, b);
    var s5 := WithColumns(s, Polls, POLLS_ADDED);
    LifecycleVotes(s5, b);
    LifecycleTables(WithColumns(s5, Votes, VOTES_ADDED), b);
  }

  /** When the third body succeeds. */
  predicate IndexesFit(s: Schema)
    requires AuditOutbox in s.tables
  {
    OutboxPending in s.indexes || (DeliveredAt in s.tables[AuditOutbox] && CreatedAt in s.tables[AuditOutbox])
  }

  lemma IndexesBody(s: Schema, b: bool)
    requires Polls in s.tables && POLLS_V1 + POLLS_ADDED <= s.tables[Polls] && AuditOutbox in s.tables
    ensures ExecFrom(s, b, INDEXES, 0) == if IndexesFit(s) then Some(WithIndexes(s, INDEXES_ADDED)) else None
  {
    hide ExecFrom;
    var s1 := WithIndexes(s, {TenantStatusCreated});
    var s2 := WithIndexes(s1, {PublicStatusSlug});
    var s3 := WithIndexes(s2, {OutboxPending});
    PollIndexKeys(s, s1);
    assert HasColumns(s2, AuditOutbox, [DeliveredAt, CreatedAt]) <==>
             DeliveredAt in s.tables[AuditOutbox] && CreatedAt in s.tables[AuditOutbox] by {
      assert Listed([DeliveredAt, CreatedAt]) == {DeliveredAt, CreatedAt};
    }
    IndexMade(s, b, TenantStatusCreated, Polls, [TenantId, Status, CreatedAt], false);
    IndexMade(s1, b, PublicStatusSlug, Polls, [Status, Slug], false);
    IndexMade(s2, b, OutboxPending, AuditOutbox, [DeliveredAt, CreatedAt], false);
    Unrolled(s, b, INDEXES, 0);
    Unrolled(s1, b, INDEXES, 1);
    Unrolled(s2, b, INDEXES, 2);
    Finished(s3, b, INDEXES);
    hide Exec, HasColumns;
    assert s3.indexes == WithIndexes(s, INDEXES_ADDED).indexes;
  }

  lemma PollIndexKeys(s: Schema, s1: Schema)
    requires Polls in s.tables && POLLS_V1 + POLLS_ADDED <= s.tables[Polls] && s1.tables == s.tables
    ensures HasColumns(s, Polls, [TenantId, Status, CreatedAt]) && HasColumns(s1, Polls, [Status, Slug])
  {
    assert Listed([TenantId, Status, CreatedAt]) == {TenantId, Status, CreatedAt};
    assert Listed([Status, Slug]) == {Status, Slug};
    assert {TenantId, Status, CreatedAt} <= POLLS_V1 + POLLS_ADDED && {Status, Slug} <= POLLS_V1 + POLLS_ADDED;
  }

  /** The second body fails on its own result: its ledger row must commit with it. */
  lemma LifecycleIsNotRepeatable(s: Schema, b: bool, b': bool)
    requires Polls in s.tables && Votes in s.tables && ExecFrom(s, b, LIFECYCLE, 0).Some?
    ensures ExecFrom(ExecFrom(s, b, LIFECYCLE, 0).value, b', LIFECYCLE, 0) == None
  {
    LifecycleBody(s, b);
    LifecycleBody(WithLifecycle(s), b');
    hide ExecFrom;
    assert Description in WithLifecycle(s).tables[Polls];
  }

  // ---- where the runs on a database end -------------------------------------------------

  /** A database that no migration was entered for: any schema, of any origin. */
  predicate Initial(s: System) {
    s.at == Started && s.entered == [] && Versions(s.d) == {}
  }

  /** The adoption check lets an old poll table through. */
  predicate Adopted(d: Database) {
    Polls in d.schema.tables && HasColumns(d.schema, Polls, REQUIRED) && d.distinctSlugs
  }

  predicate FirstFits(d: Database) {
    (Polls in d.schema.tables ==> Adopted(d)) && InitialFits(d.schema, d.distinctSlugs)
  }

  predicate SecondFits(s: Schema) {
    && (Polls in s.tables ==> s.tables[Polls] !! POLLS_ADDED)
    && (Votes in s.tables ==> s.tables[Votes] !! VOTES_ADDED)
  }

  predicate ThirdFits(s: Schema) {
    AuditOutbox in s.tables ==>
      OutboxPending in s.indexes || (DeliveredAt in s.tables[AuditOutbox] && CreatedAt in s.tables[AuditOutbox])
  }

  /** What an operator can check before the first run. */
  predicate Upgradable(d: Database) {
    FirstFits(d) && SecondFits(d.schema) && ThirdFits(d.schema)
  }

  /** The point at which runs on the database end, and the versions entered by then. */
  function EndOf(d: Database): (Point, seq<nat>) {
    if Polls in d.schema.tables && !HasColumns(d.schema, Polls, REQUIRED) then (Refused(MissingColumn), [])
    else if Polls in d.schema.tables && !d.distinctSlugs then (Refused(DuplicateSlugs), [])
    else if !FirstFits(d) then (Refused(SqlFailure), [])
    else if !SecondFits(d.schema) then (Refused(SqlFailure), [1])
    else if !ThirdFits(d.schema) then (Refused(SqlFailure), [1, 2])
    else (Done, [1, 2, 3])
  }

  lemma SecondFitsV1(s: Schema)
    ensures SecondFits(s) <==> LifecycleFits(V1Of(s))
  {
    assert POLLS_V1 !! POLLS_ADDED && VOTES_V1 !! VOTES_ADDED;
  }

  lemma ThirdFitsV2(s: Schema)
    ensures ThirdFits(s) <==> IndexesFit(V2Of(s))
  {
    assert OutboxPending !in INDEXES_V1 && {DeliveredAt, CreatedAt} <= OUTBOX;
  }

  // ---- every interrupted run ------------------------------------------------------------

  /** An adoption under way: it may have made the ballot table and some of the indexes. */
  predicate Between(old_: Schema, s: Schema) {
    && (s.tables == old_.tables || (Votes !in old_.tables && s.tables == old_.tables[Votes := VOTES_V1]))
    && old_.indexes <= s.indexes <= old_.indexes + INDEXES_V1
    && (VotesPoll in s.indexes - old_.indexes ==> Votes in s.tables && PollId in s.tables[Votes])
  }

  predicate SchemaSound(d0: Database, s: Schema, entered: seq<nat>) {
    || (entered == [] && (s == d0.schema || (Adopted(d0) && Between(d0.schema, s))))
    || (entered == [1] && FirstFits(d0) && s == V1Of(d0.schema))
    || (entered == [1, 2] && FirstFits(d0) && SecondFits(d0.schema) && s == V2Of(d0.schema))
    || (entered == [1, 2, 3] && Upgradable(d0) && s == V3Of(d0.schema))
  }

  predicate LedgerSound(d: Database, entered: seq<nat>) {
    || (entered == [] && Versions(d) == {})
    || (entered == [1] && Versions(d) == {1})
    || (entered == [1, 2] && Versions(d) == {1, 2})
    || (entered == [1, 2, 3] && Versions(d) == {1, 2, 3})
  }

  /** What the first n statements of the initial body have made sure of. */
  predicate InitialDone(s: Schema, n: nat) {
    && (2 <= n ==> PublicSlug in s.indexes) && (3 <= n ==> TenantCreated in s.indexes)
    && (4 <= n ==> Votes in s.tables) && (5 <= n ==> VotesPoll in s.indexes)
  }

  predicate PointSound(d0: Database, s: System) {
    match s.at
    case Started => true
    case LedgerReady => s.d.ledger.Some?
    case Read(applied) => s.d.ledger == Some(applied)
    case Accepted(applied) => s.d.ledger == Some(applied)
    case Adopting(applied, n) =>
      && s.d.ledger == Some(applied) && applied == {} && Adopted(d0)
      && n <= |INITIAL| && InitialDone(s.d.schema, n)
    case Running(applied, i) =>
      && s.d.ledger == Some(applied) && i <= |MIGRATIONS|
      && (applied == {} ==> Polls !in d0.schema.tables)
      && (1 <= i ==> 1 in applied) && (2 <= i ==> 2 in applied) && (3 <= i ==> 3 in applied)
    case Done => s.d.ledger == Some({1, 2, 3})
    case Refused(_) => EndOf(d0) == (s.at, s.entered)
  }

  predicate Sound(d0: Database, s: System) {
    && s.d.distinctSlugs == d0.distinctSlugs
    && SchemaSound(d0, s.d.schema, s.entered) && LedgerSound(s.d, s.entered) && PointSound(d0, s)
  }

  /** An adoption under way changes nothing that decides how it ends. */
  lemma BetweenSame(d0: Database, s: Schema)
    requires Adopted(d0) && Between(d0.schema, s)
    ensures Polls in s.tables && s.tables[Polls] == d0.schema.tables[Polls] && POLLS_V1 <= s.tables[Polls]
    ensures V1Of(s) == V1Of(d0.schema)
    ensures InitialFits(s, true) <==> InitialFits(d0.schema, true)
  {
    assert Listed(REQUIRED) == POLLS_V1;
    assert V1Of(s).tables == V1Of(d0.schema).tables;
    assert V1Of(s).indexes == V1Of(d0.schema).indexes;
  }

  lemma NoNewerVersion(d: Database, entered: seq<nat>, v: nat)
    requires LedgerSound(d, entered) && v in Versions(d)
    ensures v <= MaxKnown()
  {
  }

  lemma StartKeepsSound(d0: Database, s: System)
    requires Sound(d0, s) && (s.at.Started? || s.at.LedgerReady? || s.at.Read? || s.at.Done? || s.at.Refused?)
    ensures Sound(d0, Next(s, Advance))
  {
    hide SchemaSound, EndOf, MaxKnown;
    assert Next(s, Advance).entered == s.entered + [] == s.entered;
    if s.at.Read? {
      forall v | v in s.at.applied ensures v <= MaxKnown() {
        NoNewerVersion(s.d, s.entered, v);
      }
    }
    hide LedgerSound;
  }

  lemma AcceptedKeepsSound(d0: Database, s: System)
    requires Sound(d0, s) && s.at.Accepted?
    ensures Sound(d0, Next(s, Advance))
  {
    if s.entered == [] && s.d.schema != d0.schema {
      BetweenSame(d0, s.d.schema);
    }
    hide Between, V1Of, V2Of, V3Of, SecondFits, ThirdFits, InitialFits;
  }

  /** One statement of an adoption: only the ballot index can fail, and then for ever. */
  lemma AdoptionStep(d0: Database, s: Schema, n: nat)
    requires Adopted(d0) && Between(d0.schema, s) && n < |INITIAL| && InitialDone(s, n)
    ensures var s' := Exec(s, true, INITIAL[n]);
            if s'.Some? then Between(d0.schema, s'.value) && InitialDone(s'.value, n + 1)
            else EndOf(d0) == (Refused(SqlFailure), [])
  {
    BetweenSame(d0, s);
    assert Listed([PollId, OptionIndex, VoterId]) == VOTES_V1;
    assert Slug in s.tables[Polls] && TenantId in s.tables[Polls] && CreatedAt in s.tables[Polls];
    hide V1Of, HasColumns;
    if n == 1 {
      IndexMade(s, true, PublicSlug, Polls, [Slug], true);
    } else if n == 2 {
      IndexMade(s, true, TenantCreated, Polls, [TenantId, CreatedAt], false);
    } else if n == 4 {
      IndexMade(s, true, VotesPoll, Votes, [PollId], false);
    }
  }

  lemma AdoptedIsV1(d0: Database, s: Schema)
    requires Adopted(d0) && Between(d0.schema, s) && InitialDone(s, |INITIAL|)
    ensures s == V1Of(d0.schema) && FirstFits(d0)
  {
    assert s.tables == V1Of(d0.schema).tables;
    assert s.indexes == V1Of(d0.schema).indexes;
  }

  lemma AdoptingKeepsSound(d0: Database, s: System)
    requires Sound(d0, s) && s.at.Adopting?
    ensures Sound(d0, Next(s, Advance))
  {
    assert s.entered == [] && (Between(d0.schema, s.d.schema) || s.d.schema == d0.schema);
    assert Between(d0.schema, s.d.schema);
    if s.at.n < |INITIAL| {
      AdoptionStep(d0, s.d.schema, s.at.n);
    } else {
      AdoptedIsV1(d0, s.d.schema);
      assert {} + {1} == {1} && {1} - {} == {1} && [] + [1] == [1];
    }
    hide Between, Exec, V1Of, V2Of, V3Of, InitialDone, EndOf;
  }

  /** What applying a missing migration does, given what its body does. */
  lemma ApplyNext(s: System, applied: set<nat>, v: nat)
    requires 1 <= v <= |MIGRATIONS| && v !in applied && s.at == Running(applied, v - 1) && s.d.ledger == Some(applied)
    ensures var r := ExecFrom(s.d.schema, s.d.distinctSlugs, MIGRATIONS[v - 1].body, 0);
            Next(s, Advance) ==
              if r.None? then s.(at := Refused(SqlFailure))
              else System(Database(r.value, Some(applied + {v}), s.d.distinctSlugs), Running(applied + {v}, v),
                  s.entered + [v])
  {
    hide ExecFrom;
    assert MIGRATIONS[v - 1].version == v;
    assert s.entered + [] == s.entered && v in applied + {v};
    assert applied + {v} - applied == {v};
  }

  lemma FirstApplied(d0: Database, s: System)
    requires Sound(d0, s) && s.at.Running? && s.at.i == 0 && s.entered == []
    ensures Sound(d0, Next(s, Advance))
  {
    InitialBody(s.d.schema, s.d.distinctSlugs);
    ApplyNext(s, {}, 1);
    assert {} + {1} == {1} && [] + [1] == [1];
    hide ExecFrom, Next, Between, V1Of, V2Of, V3Of, InitialFits, SecondFits, ThirdFits;
  }

  lemma SecondApplied(d0: Database, s: System)
    requires Sound(d0, s) && s.at.Running? && s.at.i == 1 && s.entered == [1]
    ensures Sound(d0, Next(s, Advance))
  {
    LifecycleBody(V1Of(d0.schema), s.d.distinctSlugs);
    SecondFitsV1(d0.schema);
    ApplyNext(s, {1}, 2);
    assert {1} + {2} == {1, 2} && [1] + [2] == [1, 2];
    hide ExecFrom, Next, Between, WithLifecycle, V1Of, V3Of, FirstFits, SecondFits, ThirdFits, LifecycleFits;
  }

  lemma ThirdNext(d0: Database, s: System)
    requires FirstFits(d0) && s.d == Database(V2Of(d0.schema), Some({1, 2}), d0.distinctSlugs)
    requires s.at == Running({1, 2}, 2) && s.entered == [1, 2]
    ensures Next(s, Advance) ==
              if ThirdFits(d0.schema) then
                System(Database(V3Of(d0.schema), Some({1, 2, 3}), d0.distinctSlugs), Running({1, 2, 3}, 3), [1, 2, 3])
              else s.(at := Refused(SqlFailure))
  {
    assert V3Of(d0.schema) == WithIndexes(V2Of(d0.schema), INDEXES_ADDED);
    hide *;
    V2HasPolls(d0);
    IndexesBody(V2Of(d0.schema), s.d.distinctSlugs);
    ThirdFitsV2(d0.schema);
    ApplyNext(s, {1, 2}, 3);
    assert {1, 2} + {3} == {1, 2, 3} && [1, 2] + [3] == [1, 2, 3];
  }

  lemma ThirdApplied(d0: Database, s: System)
    requires Sound(d0, s) && s.at.Running? && s.at.i == 2 && s.entered == [1, 2]
    ensures Sound(d0, Next(s, Advance))
  {
    hide ExecFrom, Next, Between, V1Of, V2Of, V3Of, FirstFits, SecondFits, ThirdFits;
    ThirdNext(d0, s);
    if !ThirdFits(d0.schema) {
      EndThird(d0);
    }
    hide EndOf;
  }

  lemma EndThird(d0: Database)
    requires FirstFits(d0) && SecondFits(d0.schema) && !ThirdFits(d0.schema)
    ensures EndOf(d0) == (Refused(SqlFailure), [1, 2])
  {
    hide InitialFits, SecondFits, ThirdFits, HasColumns;
  }

  lemma V2HasPolls(d0: Database)
    requires FirstFits(d0)
    ensures var s := V2Of(d0.schema);
            Polls in s.tables && POLLS_V1 + POLLS_ADDED <= s.tables[Polls] && AuditOutbox in s.tables
  {
    assert Listed(REQUIRED) == POLLS_V1;
  }

  /** A migration that the ledger has is passed over. */
  lemma PassedOver(d0: Database, s: System)
    requires Sound(d0, s) && s.at.Running?
    requires s.at.i < |MIGRATIONS| ==> MIGRATIONS[s.at.i].version in Versions(s.d)
    ensures Sound(d0, Next(s, Advance))
  {
    assert Next(s, Advance).entered == s.entered + [] == s.entered;
    hide ExecFrom, SchemaSound, EndOf;
  }

  lemma RunningKeepsSound(d0: Database, s: System)
    requires Sound(d0, s) && s.at.Running?
    ensures Sound(d0, Next(s, Advance))
  {
    hide ExecFrom, SchemaSound, EndOf, Next;
    if s.at.i == |MIGRATIONS| || MIGRATIONS[s.at.i].version in Versions(s.d) {
      PassedOver(d0, s);
    } else if s.at.i == 0 {
      FirstApplied(d0, s);
    } else if s.at.i == 1 {
      SecondApplied(d0, s);
    } else {
      ThirdApplied(d0, s);
    }
  }

  lemma StepKeepsSound(d0: Database, s: System, step: Step)
    requires Sound(d0, s)
    ensures Sound(d0, Next(s, step))
  {
    if step == Advance {
      hide *;
      match s.at
      case Accepted(_) => AcceptedKeepsSound(d0, s);
      case Adopting(_, _) => AdoptingKeepsSound(d0, s);
      case Running(_, _) => RunningKeepsSound(d0, s);
      case _ => StartKeepsSound(d0, s);
    }
  }

  lemma {:induction false} RunKeepsSound(d0: Database, s: System, steps: seq<Step>)
    requires Sound(d0, s)
    ensures Sound(d0, Run(s, steps))
    decreases |steps|
  {
    if steps != [] {
      RunKeepsSound(d0, s, steps[..|steps| - 1]);
      StepKeepsSound(d0, Run(s, steps[..|steps| - 1]), steps[|steps| - 1]);
    }
  }

  lemma InitialIsSound(s: System)
    requires Initial(s)
    ensures Sound(s.d, s)
  {
  }

  lemma LedgerVersions(d: Database, entered: seq<nat>)
    requires LedgerSound(d, entered)
    ensures Versions(d) == set v | v in entered
    ensures d.ledger == Some({1, 2, 3}) ==> entered == [1, 2, 3]
  {
    if d.ledger == Some({1, 2, 3}) {
      assert 3 in Versions(d);
    }
  }

  lemma SchemaEnds(d0: Database, s: Schema, entered: seq<nat>)
    requires SchemaSound(d0, s, entered)
    ensures entered <= EndOf(d0).1 && (entered == [1, 2, 3] ==> EndOf(d0) == (Done, entered))
    ensures entered == [1] ==> s == V1Of(d0.schema)
    ensures entered == [1, 2] ==> s == V2Of(d0.schema)
    ensures entered == [1, 2, 3] ==> s == V3Of(d0.schema)
  {
    hide Between, V1Of, V2Of, V3Of, InitialFits, SecondFits, ThirdFits, HasColumns;
  }

  lemma SoundLedger(d0: Database, s: System)
    requires Sound(d0, s)
    ensures s.entered <= EndOf(d0).1 && Versions(s.d) == set v | v in s.entered
    ensures s.at.Refused? || s.at.Done? ==> (s.at, s.entered) == EndOf(d0)
    ensures s.entered == [1] ==> s.d.schema == V1Of(d0.schema)
    ensures s.entered == [1, 2] ==> s.d.schema == V2Of(d0.schema)
    ensures s.entered == [1, 2, 3] ==> s.d.schema == V3Of(d0.schema)
  {
    hide LedgerSound, SchemaSound, EndOf, Versions, V1Of, V2Of, V3Of, Adopted;
    LedgerVersions(s.d, s.entered);
    SchemaEnds(d0, s.d.schema, s.entered);
  }

  /** From any database without migrations, whatever interrupts the runs: the ledger is a
      prefix of the versions entered in the end, in order and each once, and the schema is
      exactly what those migrations make of the first one. A run that stops of itself stops
      where the first schema says. */
  lemma LedgerIsAPrefix(s: System, steps: seq<Step>)
    requires Initial(s)
    ensures var s' := Run(s, steps);
            && s'.entered <= EndOf(s.d).1 && Versions(s'.d) == set v | v in s'.entered
            && (s'.at.Refused? || s'.at.Done? ==> (s'.at, s'.entered) == EndOf(s.d))
            && (s'.entered == [1] ==> s'.d.schema == V1Of(s.d.schema))
            && (s'.entered == [1, 2] ==> s'.d.schema == V2Of(s.d.schema))
            && (s'.entered == [1, 2, 3] ==> s'.d.schema == V3Of(s.d.schema))
  {
    hide *;
    InitialIsSound(s);
    RunKeepsSound(s.d, s, steps);
    SoundLedger(s.d, Run(s, steps));
  }

  // ---- convergence ----------------------------------------------------------------------

  function Iterate(d: Database, at: Point, k: nat): (Database, Point)
    decreases k
  {
    if k == 0 then (d, at) else
      var (d', at') := Statement(d, at); Iterate(d', at', k - 1)
  }

  predicate Stopped(at: Point) {
    at.Done? || at.Refused?
  }

  /** After k more statements the run has stopped, as the first database d0 says. */
  predicate EndsAfter(d0: Database, d: Database, at: Point, k: nat) {
    var (d', at') := Iterate(d, at, k);
    && at' == EndOf(d0).0 && Versions(d') == (set v | v in EndOf(d0).1)
    && (at' == Done ==> d' == Database(V3Of(d0.schema), Some({1, 2, 3}), d0.distinctSlugs))
  }

  /** How far a point is from the end. */
  function Remaining(at: Point): nat {
    match at
    case Started => 20
    case LedgerReady => 19
    case Read(_) => 18
    case Accepted(_) => 17
    case Adopting(_, n) => 10 + if n < 6 then 6 - n else 0
    case Running(_, i) => if i < 4 then 5 - i else 1
    case Done => 0
    case Refused(_) => 0
  }

  lemma StatementGetsCloser(d: Database, at: Point)
    requires !Stopped(at)
    ensures Remaining(Statement(d, at).1) < Remaining(at)
  {
    hide ExecFrom, Exec, HasColumns;
  }

  lemma {:induction false} SoundEnds(d0: Database, s: System) returns (k: nat)
    requires Sound(d0, s)
    ensures EndsAfter(d0, s.d, s.at, k)
    decreases Remaining(s.at)
  {
    if Stopped(s.at) {
      k := 0;
      SoundLedger(d0, s);
      assert Iterate(s.d, s.at, 0) == (s.d, s.at);
    } else {
      StepKeepsSound(d0, s, Advance);
      StatementGetsCloser(s.d, s.at);
      hide Statement, Sound, EndOf, V3Of;
      k := SoundEnds(d0, Next(s, Advance));
      k := k + 1;
    }
  }

  lemma {:induction false} StoppedStays(d: Database, at: Point, k: nat, more: nat)
    requires Stopped(Iterate(d, at, k).1)
    ensures Iterate(d, at, k + more) == Iterate(d, at, k)
    decreases more
  {
    if 0 < more {
      StoppedStays(d, at, k, more - 1);
      IterateNext(d, at, k + more - 1);
    }
  }

  /** After any interruptions a run that is left alone stops, at the point and with the ledger
      that the first database decides. */
  lemma RunsEnd(s: System, steps: seq<Step>) returns (k: nat)
    requires Initial(s)
    ensures EndsAfter(s.d, Run(s, steps).d, Started, k)
  {
    hide *;
    InitialIsSound(s);
    RunKeepsSound(s.d, s, steps + [Interrupt]);
    assert (steps + [Interrupt])[..|steps|] == steps;
    Interrupted(s, steps);
    k := SoundEnds(s.d, Run(s, steps + [Interrupt]));
  }

  lemma Interrupted(s: System, steps: seq<Step>)
    ensures var s' := Run(s, steps + [Interrupt]); s'.d == Run(s, steps).d && s'.at == Started
  {
    assert (steps + [Interrupt])[..|steps|] == steps;
  }

  lemma StopsOnce(d: Database, at: Point, j: nat, k: nat)
    requires Stopped(Iterate(d, at, j).1) && Stopped(Iterate(d, at, k).1)
    ensures Iterate(d, at, j) == Iterate(d, at, k)
  {
    if j <= k {
      StoppedStays(d, at, j, k - j);
    } else {
      StoppedStays(d, at, k, j - k);
    }
  }

  lemma EndPoint(d0: Database, d: Database, at: Point, k: nat)
    requires EndsAfter(d0, d, at, k)
    ensures Iterate(d, at, k).1 == EndOf(d0).0 && Stopped(EndOf(d0).0)
    ensures EndOf(d0).0 == Done <==> Upgradable(d0)
  {
    hide Iterate, Versions, V3Of, HasColumns, InitialFits, SecondFits, ThirdFits;
  }

  /** Left alone after any interruptions, a run applies all migrations if and only if the
      first schema was upgradable. */
  lemma MigrationsConverge(s: System, steps: seq<Step>)
    requires Initial(s)
    ensures (exists k: nat :: Iterate(Run(s, steps).d, Started, k).1 == Done) <==> Upgradable(s.d)
  {
    assert Stopped(Done);
    hide *;
    var d := Run(s, steps).d;
    var k := RunsEnd(s, steps);
    EndPoint(s.d, d, Started, k);
    if j: nat :| Iterate(d, Started, j).1 == Done {
      StopsOnce(d, Started, j, k);
    }
  }

  // ---- particular databases -------------------------------------------------------------

  const POLLS_NOW := POLLS_V1 + POLLS_ADDED
  const VOTES_NOW := VOTES_V1 + VOTES_ADDED
  const CURRENT := Schema(
    map[Polls := POLLS_NOW, Votes := VOTES_NOW, Settings := SETTINGS, AuditOutbox := OUTBOX],
    INDEXES_V1 + INDEXES_ADDED)

  /** What a release before the ledger can have left behind. */
  predicate FirstRelease(s: Schema) {
    && Polls in s.tables && s.tables.Keys <= {Polls, Votes} && s.tables[Polls] == POLLS_V1
    && (Votes in s.tables ==> s.tables[Votes] == VOTES_V1)
    && s.indexes <= INDEXES_V1 && (VotesPoll in s.indexes ==> Votes in s.tables)
  }

  /** A fresh database and one of the first release both reach the one current schema. */
  lemma OldReleasesReachCurrent(s: System, steps: seq<Step>) returns (k: nat)
    requires Initial(s) && s.d.distinctSlugs && (s.d.schema == EMPTY_SCHEMA || FirstRelease(s.d.schema))
    ensures Iterate(Run(s, steps).d, Started, k) == (Database(CURRENT, Some({1, 2, 3}), true), Done)
  {
    k := RunsEnd(s, steps);
    hide Run, Iterate;
    OldReleasesUpgrade(s.d);
    CurrentOf(s.d.schema);
  }

  lemma OldReleasesUpgrade(d: Database)
    requires d.distinctSlugs && (d.schema == EMPTY_SCHEMA || FirstRelease(d.schema))
    ensures Upgradable(d) && EndOf(d).0 == Done
  {
    assert Listed(REQUIRED) == POLLS_V1 && POLLS_V1 !! POLLS_ADDED && VOTES_V1 !! VOTES_ADDED;
  }

  lemma CurrentOf(s: Schema)
    requires s == EMPTY_SCHEMA || FirstRelease(s)
    ensures V3Of(s) == CURRENT
  {
    FirstVersionOf(s);
    hide V1Of;
    LifecycleOf(V1Of(s), POLLS_V1, VOTES_V1);
    hide WithLifecycle;
  }

  lemma LifecycleOf(s: Schema, polls: set<ColumnName>, votes: set<ColumnName>)
    requires s.tables == map[Polls := polls, Votes := votes]
    ensures WithLifecycle(s) == Schema(
              map[Polls := polls + POLLS_ADDED, Votes := votes + VOTES_ADDED, Settings := SETTINGS,
                  AuditOutbox := OUTBOX],
              s.indexes)
  {
    var t := WithColumns(s, Polls, POLLS_ADDED);
    assert t.tables == map[Polls := polls + POLLS_ADDED, Votes := votes];
    var u := WithColumns(t, Votes, VOTES_ADDED);
    assert u.tables == map[Polls := polls + POLLS_ADDED, Votes := votes + VOTES_ADDED];
  }

  lemma FirstVersionOf(s: Schema)
    requires s == EMPTY_SCHEMA || FirstRelease(s)
    ensures V1Of(s) == Schema(map[Polls := POLLS_V1, Votes := VOTES_V1], INDEXES_V1)
  {
    assert V1Of(s).tables == map[Polls := POLLS_V1, Votes := VOTES_V1];
    assert V1Of(s).indexes == INDEXES_V1;
  }

  /** A poll table that the adoption check accepts and the second migration cannot extend: the
      first version is entered, and every run from then on fails. */
  lemma ExtraColumnIsStuck(s: System, steps: seq<Step>) returns (k: nat)
    requires Initial(s) && s.d.distinctSlugs && s.d.schema == Schema(map[Polls := POLLS_V1 + {Description}], {})
    ensures Adopted(s.d) && Iterate(Run(s, steps).d, Started, k).1 == Refused(SqlFailure)
    ensures Versions(Iterate(Run(s, steps).d, Started, k).0) == {1}
  {
    assert Listed(REQUIRED) == POLLS_V1;
    assert Description in s.d.schema.tables[Polls];
    k := RunsEnd(s, steps);
    assert EndOf(s.d) == (Refused(SqlFailure), [1]);
    hide Run, Iterate;
  }

  /** A database newer than the binary is refused, and no migration body touches it. */
  lemma {:induction false} NewerSchemaUntouched(d: Database, applied: set<nat>, v: nat, entered: seq<nat>,
          steps: seq<Step>)
    requires d.ledger == Some(applied) && v in applied && MaxKnown() < v
    ensures var s' := Run(System(d, Started, entered), steps);
            s'.d == d && s'.entered == entered
            && (s'.at.Started? || s'.at.LedgerReady? || s'.at == Read(applied) || s'.at == Refused(NewerSchema))
    decreases |steps|
  {
    if steps != [] {
      NewerSchemaUntouched(d, applied, v, entered, steps[..|steps| - 1]);
    }
  }

  // ---- the runner as it is written ------------------------------------------------------

  class Runner {
    var schema: Schema
    var ledger: Option<set<nat>>
    const distinctSlugs: bool

    ghost function Contents(): Database
      reads this
    {
      Database(schema, ledger, distinctSlugs)
    }

    constructor (d: Database)
      ensures Contents() == d
    {
      schema, ledger, distinctSlugs := d.schema, d.ledger, d.distinctSlugs;
    }

    /** One whole run: it ends where the statements above, one after the other, lead. */
    method Migrate() returns (end: Point, ghost k: nat)
      modifies this
      ensures end == Done || end.Refused?
      ensures (Contents(), end) == Iterate(old(Contents()), Started, k)
    {
      ghost var d0 := Contents();
      if ledger.None? {
        ledger := Some({});
      }
      var applied := ledger.value;
      IterateNext(d0, Started, 0);
      IterateNext(d0, Started, 1);
      IterateNext(d0, Started, 2);
      k := 3;
      if exists v :: v in applied && MaxKnown() < v {
        return Refused(NewerSchema), k;
      }
      var adoption := Adoption(Database(schema, ledger, distinctSlugs), applied);
      IterateNext(d0, Started, 3);
      k := 4;
      if adoption.Refused? {
        return adoption, k;
      }
      if adoption.Adopting? {
        var n := 0;
        while n < |INITIAL|
          invariant n <= |INITIAL|
          invariant (Contents(), Adopting(applied, n)) == Iterate(d0, Started, k)
        {
          var after := Exec(schema, distinctSlugs, INITIAL[n]);
          IterateNext(d0, Started, k);
          k := k + 1;
          if after.None? {
            return Refused(SqlFailure), k;
          }
          schema := after.value;
          n := n + 1;
        }
        IterateNext(d0, Started, k);
        k := k + 1;
        ledger := Some((if ledger.Some? then ledger.value else {}) + {1});
        applied := applied + {1};
      }
      end, k := ApplyAll(d0, k, applied);
    }

    method ApplyAll(ghost d0: Database, ghost before: nat, start: set<nat>) returns (end: Point, ghost k: nat)
      requires (Contents(), Running(start, 0)) == Iterate(d0, Started, before)
      modifies this
      ensures end == Done || end.Refused?
      ensures (Contents(), end) == Iterate(d0, Started, k)
    {
      hide ExecFrom, Exec, Iterate, Adoption;
      var applied, i := start, 0;
      k := before;
      while i < |MIGRATIONS|
        invariant i <= |MIGRATIONS|
        invariant (Contents(), Running(applied, i)) == Iterate(d0, Started, k)
      {
        IterateNext(d0, Started, k);
        k := k + 1;
        var m := MIGRATIONS[i];
        if m.version !in applied {
          var after := ExecFrom(schema, distinctSlugs, m.body, 0);
          if after.None? {
            return Refused(SqlFailure), k;
          }
          schema := after.value;
          ledger := Some((if ledger.Some? then ledger.value else {}) + {m.version});
          applied := applied + {m.version};
        }
        i := i + 1;
      }
      IterateNext(d0, Started, k);
      return Done, k + 1;
    }
  }

  lemma {:induction false} IterateNext(d: Database, at: Point, k: nat)
    ensures Iterate(d, at, k + 1) == Statement(Iterate(d, at, k).0, Iterate(d, at, k).1)
    decreases k
  {
    if 0 < k {
      IterateNext(Statement(d, at).0, Statement(d, at).1, k - 1);
    }
  }
}
