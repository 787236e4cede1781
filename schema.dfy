/** The storage gateway of code/db.py without SQLite: the five tables of
    `DB_SCHEMA`, schema initialisation with its one additive migration,
    and the constraints an INSERT must pass (declared columns, NOT NULL,
    primary-key uniqueness, column defaults). No foreign keys are declared,
    so nothing here relates one table to another. */
module Schema {
  import opened Wrappers
  import opened Models

  datatype SqlType = TextType | RealType

  /** A stored cell. REAL amounts are cents, as everywhere in the model. */
  datatype Value = Null | Text(text: string) | Real(cents: Money)

  /** `default` is `Null` for a column declared without DEFAULT. */
  datatype Column = Column(name: string, sqlType: SqlType, primaryKey: bool, notNull: bool, default: Value)

  datatype TableDef = TableDef(name: string, columns: seq<Column>)

  /** A row maps column names to cells. */
  type Row = map<string, Value>

  datatype Table = Table(columns: seq<Column>, rows: seq<Row>)

  datatype DbError =
    | NoSuchTable(table: string)
    | NoSuchColumn
    | NotNullFailed(column: string)
    | UniqueFailed(column: string)

  function Key(name: string): Column { Column(name, TextType, true, false, Null) }
  function TextColumn(name: string): Column { Column(name, TextType, false, false, Null) }
  function RequiredText(name: string): Column { Column(name, TextType, false, true, Null) }

  const CategoriesDef := TableDef("categories",
    [Key("category_id"), RequiredText("name"), TextColumn("icon"), TextColumn("color")])

  const BudgetsDef := TableDef("budgets",
    [Key("budget_id"), TextColumn("category_id"),
     Column("limit_value", RealType, false, true, Null), RequiredText("period")])

  const RecordsDef := TableDef("records",
    [Key("record_id"), Column("amount", RealType, false, true, Null), RequiredText("type"),
     RequiredText("date"), TextColumn("category_id"), TextColumn("account_id"),
     TextColumn("tags"), TextColumn("note"), TextColumn("attachments")])

  const NotificationsDef := TableDef("notifications",
    [Key("notif_id"), TextColumn("type"), TextColumn("message"), TextColumn("timestamp")])

  const AccountsDef := TableDef("accounts",
    [Key("account_id"), RequiredText("name"), TextColumn("type"),
     Column("balance", RealType, false, false, Real(0)),
     Column("currency", TextType, false, false, Text("CNY"))])

  /** `DB_SCHEMA`, in the order the statements are executed. */
  const DbSchema: seq<TableDef> := [CategoriesDef, BudgetsDef, RecordsDef, NotificationsDef, AccountsDef]

  /** The column the migration adds to `records`. */
  const AccountIdColumn := TextColumn("account_id")

  function ColumnNames(cols: seq<Column>): (names: set<string>)
    ensures forall c :: c in cols ==> c.name in names
  {
    set c | c in cols :: c.name
  }

  predicate HasAccountColumn(tables: map<string, Table>)
  {
    "records" in tables && "account_id" in ColumnNames(tables["records"].columns)
  }

  /** One `CREATE TABLE IF NOT EXISTS`: an existing table of that name is
      left alone, whatever its columns. */
  function CreateIfMissing(tables: map<string, Table>, d: TableDef): (r: map<string, Table>)
    ensures r.Keys == tables.Keys + {d.name}
    ensures forall n :: n in tables ==> r[n] == tables[n]
    ensures d.name !in tables ==> r[d.name] == Table(d.columns, [])
  {
    if d.name in tables then tables else tables[d.name := Table(d.columns, [])]
  }

  function Names(defs: seq<TableDef>): set<string>
  {
    set d | d in defs :: d.name
  }

  /** Executing the statements of `defs` in order. */
  function CreateAll(tables: map<string, Table>, defs: seq<TableDef>): (r: map<string, Table>)
    ensures r.Keys == tables.Keys + Names(defs)
    ensures forall n :: n in tables ==> r[n] == tables[n]
  {
    if defs == [] then tables
    else
      var init := defs[..|defs| - 1];
      assert defs == init + [defs[|defs| - 1]];
      assert Names(defs) == Names(init) + {defs[|defs| - 1].name};
      CreateIfMissing(CreateAll(tables, init), defs[|defs| - 1])
  }

  /** `ALTER TABLE ... ADD COLUMN`: every existing row gets the column's
      default (NULL for `account_id`), nothing else in a row changes. */
  function AddColumn(t: Table, c: Column): (r: Table)
    ensures r.columns == t.columns + [c]
    ensures |r.rows| == |t.rows|
    ensures forall i :: 0 <= i < |t.rows| ==> r.rows[i] == t.rows[i][c.name := c.default]
  {
    Table(t.columns + [c], seq(|t.rows|, i requires 0 <= i < |t.rows| => t.rows[i][c.name := c.default]))
  }

  /** The legacy-database step after the CREATE statements: when `records`
      lacks `account_id` the column is added; `alterFails` stands for an
      engine that refuses the ALTER, a failure that is swallowed and leaves
      the table as it was. */
  function Migrate(tables: map<string, Table>, alterFails: bool): (r: map<string, Table>)
    ensures r.Keys == tables.Keys
    ensures forall n :: n in tables && n != "records" ==> r[n] == tables[n]
    ensures HasAccountColumn(tables) || alterFails ==> r == tables
  {
    if "records" in tables && "account_id" !in ColumnNames(tables["records"].columns) && !alterFails
    then tables["records" := AddColumn(tables["records"], AccountIdColumn)]
    else tables
  }

  /** The tables after `_init_schema`. */
  function AfterInit(tables: map<string, Table>, alterFails: bool): map<string, Table>
  {
    Migrate(CreateAll(tables, DbSchema), alterFails)
  }

  lemma SchemaNames()
    ensures Names(DbSchema) == {"categories", "budgets", "records", "notifications", "accounts"}
  {
    assert DbSchema[0].name == "categories" && DbSchema[1].name == "budgets";
    assert DbSchema[2].name == "records" && DbSchema[3].name == "notifications";
    assert DbSchema[4].name == "accounts";
  }

  lemma CreateAllStep(tables: map<string, Table>, defs: seq<TableDef>, i: int)
    requires 0 <= i < |defs|
    ensures CreateAll(tables, defs[..i + 1]) == CreateIfMissing(CreateAll(tables, defs[..i]), defs[i])
  {
    assert defs[..i + 1][..i] == defs[..i];
  }

  /** CREATE IF NOT EXISTS of tables that all exist changes nothing. */
  lemma {:induction false} CreateAllPresent(tables: map<string, Table>, defs: seq<TableDef>)
    requires Names(defs) <= tables.Keys
    ensures CreateAll(tables, defs) == tables
  {
    if defs != [] {
      var init := defs[..|defs| - 1];
      assert defs == init + [defs[|defs| - 1]];
      assert Names(defs) == Names(init) + {defs[|defs| - 1].name};
      CreateAllPresent(tables, init);
    }
  }

  predicate DistinctNames(defs: seq<TableDef>)
  {
    forall i, j :: 0 <= i < j < |defs| ==> defs[i].name != defs[j].name
  }

  /** Creating tables none of which exists yet yields each as declared. */
  lemma {:induction false} CreateAllAbsent(tables: map<string, Table>, defs: seq<TableDef>)
    requires DistinctNames(defs) && Names(defs) !! tables.Keys
    ensures forall d :: d in defs ==> CreateAll(tables, defs)[d.name] == Table(d.columns, [])
  {
    if defs != [] {
      var init := defs[..|defs| - 1];
      var last := defs[|defs| - 1];
      AbsentSplit(tables, defs);
      CreateAllAbsent(tables, init);
      var before := CreateAll(tables, init);
      var after := CreateAll(tables, defs);
      assert after == CreateIfMissing(before, last);
      assert last.name !in before;
      forall d | d in defs ensures after[d.name] == Table(d.columns, []) {
        if d != last {
          assert d in init;
        }
      }
    }
  }

  /** The conditions of `CreateAllAbsent` carry over to all but the last
      definition, and the last one's table is not there before it runs. */
  lemma AbsentSplit(tables: map<string, Table>, defs: seq<TableDef>)
    requires defs != []
    requires DistinctNames(defs) && Names(defs) !! tables.Keys
    ensures var init := defs[..|defs| - 1];
      && DistinctNames(init) && Names(init) !! tables.Keys
      && defs == init + [defs[|defs| - 1]]
      && defs[|defs| - 1].name !in tables.Keys + Names(init)
  {
    var init := defs[..|defs| - 1];
    var last := defs[|defs| - 1];
    assert defs == init + [last];
    assert Names(defs) == Names(init) + {last.name};
    forall i, j | 0 <= i < j < |init| ensures init[i].name != init[j].name {
      assert init[i] == defs[i] && init[j] == defs[j];
    }
    forall d | d in init ensures d.name != last.name {
      var i :| 0 <= i < |init| && init[i] == d;
      assert defs[i] == d;
    }
  }

  lemma RecordsDeclaresAccountId()
    ensures "account_id" in ColumnNames(RecordsDef.columns)
  {
    assert RecordsDef.columns[5].name == "account_id";
  }

  lemma CreatedFresh(empty: map<string, Table>)
    requires empty == map[]
    ensures forall d :: d in DbSchema ==> CreateAll(empty, DbSchema)[d.name] == Table(d.columns, [])
  {
    assert DistinctNames(DbSchema);
    CreateAllAbsent(empty, DbSchema);
  }

  /** On a new file every table is created exactly as declared (the
      declared `records` already has `account_id`, so nothing is altered). */
  lemma InitFresh(alterFails: bool)
    ensures AfterInit(map[], alterFails).Keys == {"categories", "budgets", "records", "notifications", "accounts"}
    ensures forall d :: d in DbSchema ==> AfterInit(map[], alterFails)[d.name] == Table(d.columns, [])
    ensures HasAccountColumn(AfterInit(map[], alterFails))
  {
    var empty: map<string, Table> := map[];
    var created := CreateAll(empty, DbSchema);
    assert HasAccountColumn(created) by {
      CreatedFresh(empty);
      assert RecordsDef in DbSchema;
      assert created["records"] == Table(RecordsDef.columns, []);
      RecordsDeclaresAccountId();
    }
    assert AfterInit(empty, alterFails) == created;
    assert created.Keys == Names(DbSchema) by {
      assert empty.Keys == {};
    }
    SchemaNames();
    CreatedFresh(empty);
  }

  /** Initialising twice is initialising once, unless the first ALTER
      failed and the second one does not. */
  lemma InitIdempotent(tables: map<string, Table>, alterFails: bool, againFails: bool)
    requires HasAccountColumn(AfterInit(tables, alterFails)) || againFails
    ensures AfterInit(AfterInit(tables, alterFails), againFails) == AfterInit(tables, alterFails)
  {
    var once := AfterInit(tables, alterFails);
    CreateAllPresent(once, DbSchema);
  }

  /** Initialising never drops a table, a column or a row, never changes a
      stored cell, and touches no table other than `records`. */
  lemma InitPreservesData(tables: map<string, Table>, alterFails: bool)
    ensures forall n :: n in tables ==> n in AfterInit(tables, alterFails)
    ensures forall n :: n in tables && n != "records" ==> AfterInit(tables, alterFails)[n] == tables[n]
    ensures "records" in tables ==>
      var before := tables["records"];
      var after := AfterInit(tables, alterFails)["records"];
      && |after.rows| == |before.rows|
      && after.columns[..|before.columns|] == before.columns
      && forall i, k :: 0 <= i < |before.rows| && k in ColumnNames(before.columns) && k in before.rows[i] ==>
           k in after.rows[i] && after.rows[i][k] == before.rows[i][k]
  {
  }

  /** A legacy `records` table without `account_id` gains that column at
      the end, and every existing row reads NULL there. */
  lemma MigrationAddsAccountColumn(tables: map<string, Table>)
    requires "records" in tables && "account_id" !in ColumnNames(tables["records"].columns)
    ensures HasAccountColumn(AfterInit(tables, false))
    ensures AfterInit(tables, false)["records"].columns == tables["records"].columns + [AccountIdColumn]
    ensures forall i :: 0 <= i < |tables["records"].rows| ==>
      AfterInit(tables, false)["records"].rows[i] == tables["records"].rows[i]["account_id" := Null]
  {
    var created := CreateAll(tables, DbSchema);
    assert created["records"] == tables["records"];
    var after := AfterInit(tables, false)["records"];
    assert after == AddColumn(tables["records"], AccountIdColumn);
    assert after.columns[|after.columns| - 1] == AccountIdColumn;
  }

  /** When the ALTER fails, initialisation still completes with every
      table in place and `records` exactly as it was. */
  lemma MigrationFailureSwallowed(tables: map<string, Table>)
    ensures SchemaNamesIn(AfterInit(tables, true))
    ensures "records" in tables ==> AfterInit(tables, true)["records"] == tables["records"]
  {
    SchemaNames();
  }

  predicate SchemaNamesIn(tables: map<string, Table>)
  {
    Names(DbSchema) <= tables.Keys
  }

  /** The default of the first column called `name`. */
  function DefaultOf(cols: seq<Column>, name: string): (v: Value)
    ensures (forall i :: 0 <= i < |cols| ==> cols[i].name != name) ==> v == Null
    ensures forall i ::
      (0 <= i < |cols| && cols[i].name == name && forall j :: 0 <= j < i ==> cols[j].name != name) ==>
      v == cols[i].default
  {
    if cols == [] then Null
    else if cols[0].name == name then cols[0].default
    else DefaultOf(cols[1..], name)
  }

  /** The row an INSERT stores: given cells as given, omitted columns at
      their default (an explicit NULL is kept, not defaulted). */
  function Complete(cols: seq<Column>, values: Row): (row: Row)
    ensures row.Keys == ColumnNames(cols)
    ensures forall k :: k in values && k in row ==> row[k] == values[k]
    ensures forall k :: k in row && k !in values ==> row[k] == DefaultOf(cols, k)
  {
    map n | n in ColumnNames(cols) :: if n in values then values[n] else DefaultOf(cols, n)
  }

  datatype InsertResult = Inserted(table: Table) | Failed(error: DbError)

  /** The first NOT NULL column of `cols` whose cell in `row` is NULL. */
  function FirstNullViolation(cols: seq<Column>, row: Row): (r: Option<string>)
    requires ColumnNames(cols) <= row.Keys
    ensures r.None? <==> forall c :: c in cols && c.notNull ==> row[c.name] != Null
  {
    if cols == [] then None
    else if cols[0].notNull && row[cols[0].name] == Null then Some(cols[0].name)
    else
      assert ColumnNames(cols[1..]) <= ColumnNames(cols);
      FirstNullViolation(cols[1..], row)
  }

  /** `row` repeats the non-NULL key cell of one of `rows`. */
  predicate KeyTaken(c: Column, row: Row, rows: seq<Row>)
  {
    c.primaryKey && c.name in row && row[c.name] != Null &&
    exists i :: 0 <= i < |rows| && c.name in rows[i] && rows[i][c.name] == row[c.name]
  }

  /** The first primary-key column of `cols` whose value is already taken. */
  function FirstKeyClash(cols: seq<Column>, row: Row, rows: seq<Row>): (r: Option<string>)
    ensures r.None? <==> forall c :: c in cols ==> !KeyTaken(c, row, rows)
  {
    if cols == [] then None
    else if KeyTaken(cols[0], row, rows) then Some(cols[0].name)
    else FirstKeyClash(cols[1..], row, rows)
  }

  /** `INSERT INTO t(...) VALUES (...)`. A TEXT PRIMARY KEY column is not
      implicitly NOT NULL in SQLite, so only non-NULL keys must be unique. */
  function Insert(t: Table, values: Row): (r: InsertResult)
    ensures r.Inserted? <==>
      && values.Keys <= ColumnNames(t.columns)
      && (forall c :: c in t.columns && c.notNull ==> Complete(t.columns, values)[c.name] != Null)
      && (forall c :: c in t.columns ==> !KeyTaken(c, Complete(t.columns, values), t.rows))
    ensures r.Inserted? ==> r.table == Table(t.columns, t.rows + [Complete(t.columns, values)])
  {
    var row := Complete(t.columns, values);
    if !(values.Keys <= ColumnNames(t.columns)) then Failed(NoSuchColumn)
    else match FirstNullViolation(t.columns, row)
      case Some(c) => Failed(NotNullFailed(c))
      case None =>
        match FirstKeyClash(t.columns, row, t.rows)
        case Some(c) => Failed(UniqueFailed(c))
        case None => Inserted(Table(t.columns, t.rows + [row]))
  }

  /** Inserting a second row with the same non-NULL primary key fails. */
  lemma DuplicateKeyFails(t: Table, values: Row, c: Column, i: int)
    requires c in t.columns && c.primaryKey && 0 <= i < |t.rows|
    requires c.name in values && values[c.name] != Null
    requires c.name in t.rows[i] && t.rows[i][c.name] == values[c.name]
    ensures Insert(t, values).Failed?
  {
    var row := Complete(t.columns, values);
    assert row[c.name] == values[c.name];
  }

  /** A record row without a date (omitted or NULL) is refused. */
  lemma RecordNeedsDate(t: Table, values: Row)
    requires t.columns == RecordsDef.columns
    requires "date" !in values || values["date"] == Null
    ensures Insert(t, values).Failed?
  {
    var cols := t.columns;
    assert cols[3].name == "date" && cols[3].notNull;
    assert DefaultOf(cols, "date") == Null;
  }

  function AccountColumnNames(): set<string>
  {
    {"account_id", "name", "type", "balance", "currency"}
  }

  lemma AccountsColumns()
    ensures ColumnNames(AccountsDef.columns) == AccountColumnNames()
    ensures forall c :: c in AccountsDef.columns && c.notNull ==> c.name == "name"
    ensures forall c :: c in AccountsDef.columns && c.primaryKey ==> c.name == "account_id"
    ensures DefaultOf(AccountsDef.columns, "type") == Null
    ensures DefaultOf(AccountsDef.columns, "balance") == Real(0)
    ensures DefaultOf(AccountsDef.columns, "currency") == Text("CNY")
  {
    AccountsConstraints();
    AccountsDefaultValues();
  }

  lemma AccountsConstraints()
    ensures ColumnNames(AccountsDef.columns) == AccountColumnNames()
    ensures forall c :: c in AccountsDef.columns && c.notNull ==> c.name == "name"
    ensures forall c :: c in AccountsDef.columns && c.primaryKey ==> c.name == "account_id"
  {
    var cols := AccountsDef.columns;
    assert cols[0].name == "account_id" && cols[1].name == "name" && cols[2].name == "type";
    assert cols[3].name == "balance" && cols[4].name == "currency";
  }

  lemma AccountsDefaultValues()
    ensures DefaultOf(AccountsDef.columns, "type") == Null
    ensures DefaultOf(AccountsDef.columns, "balance") == Real(0)
    ensures DefaultOf(AccountsDef.columns, "currency") == Text("CNY")
  {
    var cols := AccountsDef.columns;
    assert cols[0].name == "account_id" && cols[1].name == "name" && cols[2].name == "type";
    assert cols[3].name == "balance" && cols[4].name == "currency";
  }

  lemma AccountRowDefaults(values: Row, id: string, name: string)
    requires values == map["account_id" := Text(id), "name" := Text(name)]
    ensures var row := Complete(AccountsDef.columns, values);
      && row.Keys == AccountColumnNames()
      && row["account_id"] == Text(id) && row["name"] == Text(name)
      && row["type"] == Null && row["balance"] == Real(0) && row["currency"] == Text("CNY")
  {
    var cols := AccountsDef.columns;
    var row := Complete(cols, values);
    AccountsColumns();
    AccountValuesOmit(values, id, name);
  }

  /** Such an insert leaves out the columns that have defaults. */
  lemma AccountValuesOmit(values: Row, id: string, name: string)
    requires values == map["account_id" := Text(id), "name" := Text(name)]
    ensures values.Keys == {"account_id", "name"}
    ensures "type" !in values && "balance" !in values && "currency" !in values
  {
    assert values.Keys == {"account_id", "name"};
    assert "type" != "account_id" && "type" != "name";
    assert "balance" != "account_id" && "balance" != "name";
    assert "currency" != "account_id" && "currency" != "name";
  }

  /** An account insert naming only id and name names declared columns. */
  lemma AccountValuesDeclared(values: Row, id: string, name: string)
    requires values == map["account_id" := Text(id), "name" := Text(name)]
    ensures values.Keys <= ColumnNames(AccountsDef.columns)
  {
    var cols := AccountsDef.columns;
    assert cols[0] in cols && cols[1] in cols;
    assert cols[0].name == "account_id" && cols[1].name == "name";
    assert values.Keys == {"account_id", "name"};
  }

  /** Such a row fills the one NOT NULL column of `accounts`. */
  lemma AccountRowNotNull(values: Row, id: string, name: string)
    requires values == map["account_id" := Text(id), "name" := Text(name)]
    ensures forall c :: c in AccountsDef.columns && c.notNull ==> Complete(AccountsDef.columns, values)[c.name] != Null
  {
    AccountsColumns();
    AccountRowDefaults(values, id, name);
  }

  /** Such a row with a new id clashes with no stored key. */
  lemma AccountKeyFree(rows: seq<Row>, values: Row, id: string, name: string)
    requires values == map["account_id" := Text(id), "name" := Text(name)]
    requires forall i :: 0 <= i < |rows| ==> "account_id" in rows[i] ==> rows[i]["account_id"] != Text(id)
    ensures forall c :: c in AccountsDef.columns ==> !KeyTaken(c, Complete(AccountsDef.columns, values), rows)
  {
    var row := Complete(AccountsDef.columns, values);
    assert row["account_id"] == Text(id) by {
      AccountRowDefaults(values, id, name);
    }
    AccountsColumns();
    forall c | c in AccountsDef.columns && c.primaryKey ensures !KeyTaken(c, row, rows) {
      assert c.name == "account_id";
    }
  }

  lemma AccountInsertAccepted(t: Table, values: Row, id: string, name: string)
    requires t.columns == AccountsDef.columns
    requires values == map["account_id" := Text(id), "name" := Text(name)]
    requires forall i :: 0 <= i < |t.rows| ==> "account_id" in t.rows[i] ==> t.rows[i]["account_id"] != Text(id)
    ensures Insert(t, values).Inserted?
  {
    AccountValuesDeclared(values, id, name);
    AccountRowNotNull(values, id, name);
    AccountKeyFree(t.rows, values, id, name);
  }

  /** An account inserted with only its id and name is accepted (when the
      id is new), and the stored row reads balance 0.0, currency 'CNY' and
      a NULL type. */
  lemma AccountDefaults(t: Table, values: Row, id: string, name: string)
    requires t.columns == AccountsDef.columns
    requires values == map["account_id" := Text(id), "name" := Text(name)]
    requires forall i :: 0 <= i < |t.rows| ==> "account_id" in t.rows[i] ==> t.rows[i]["account_id"] != Text(id)
    ensures Insert(t, values).Inserted? && Insert(t, values).table.rows == t.rows + [Complete(t.columns, values)]
    ensures "account_id" in Complete(t.columns, values) && Complete(t.columns, values)["account_id"] == Text(id)
    ensures "name" in Complete(t.columns, values) && Complete(t.columns, values)["name"] == Text(name)
    ensures "type" in Complete(t.columns, values) && Complete(t.columns, values)["type"] == Null
    ensures "balance" in Complete(t.columns, values) && Complete(t.columns, values)["balance"] == Real(0)
    ensures "currency" in Complete(t.columns, values) && Complete(t.columns, values)["currency"] == Text("CNY")
  {
    AccountInsertAccepted(t, values, id, name);
    AccountRowDefaults(values, id, name);
  }

  /** The database object: its tables, created or migrated on open. */
  class Database {
    var tables: map<string, Table>

    /** `Database(path)`: opening a file whose tables are `existing`. */
    constructor Open(existing: map<string, Table>, alterFails: bool)
      ensures tables == AfterInit(existing, alterFails)
    {
      tables := existing;
      new;
      InitSchema(alterFails);
    }

    /** `_init_schema`: every statement of `DB_SCHEMA` in turn, then the
        `account_id` migration. */
    method InitSchema(alterFails: bool)
      modifies this
      ensures tables == AfterInit(old(tables), alterFails)
    {
      var i := 0;
      while i < |DbSchema|
        invariant 0 <= i <= |DbSchema|
        invariant tables == CreateAll(old(tables), DbSchema[..i])
      {
        CreateAllStep(old(tables), DbSchema, i);
        if DbSchema[i].name !in tables {
          tables := tables[DbSchema[i].name := Table(DbSchema[i].columns, [])];
        }
        i := i + 1;
      }
      assert DbSchema[..i] == DbSchema;
      ghost var created := tables;
      assert "records" in created by {
        SchemaNames();
      }
      if "account_id" !in ColumnNames(tables["records"].columns) {
        if !alterFails {
          tables := tables["records" := AddColumn(tables["records"], AccountIdColumn)];
        }
      }
      assert tables == Migrate(created, alterFails);
    }

    /** `execute("INSERT INTO name ...")`: an error leaves every table as
        it was. */
    method InsertInto(name: string, values: Row) returns (err: Option<DbError>)
      modifies this
      ensures name !in old(tables) ==> err == Some(NoSuchTable(name)) && tables == old(tables)
      ensures name in old(tables) ==> match Insert(old(tables)[name], values)
        case Inserted(t) => err.None? && tables == old(tables)[name := t]
        case Failed(e) => err == Some(e) && tables == old(tables)
    {
      if name !in tables {
        return Some(NoSuchTable(name));
      }
      match Insert(tables[name], values)
      case Inserted(t) =>
        tables := tables[name := t];
        err := None;
      case Failed(e) =>
        err := Some(e);
    }
  }
}
