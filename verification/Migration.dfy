/**
 Schema migration: a version table for each chain of scripts, moved one version at a time inside a
 transaction. The database is an abstract transactional store whose statements may fail.
 */
module Migration {
  import opened Wrappers
  import opened ResultCursor

  newtype int64 = x: int | -0x8000_0000_0000_0000 <= x <= 0x7FFF_FFFF_FFFF_FFFF

  // ---------- Version tables ----------

  function TableName(suffix: Option<string>): string {
    "oatpp_schema_version" + if suffix.Some? && |suffix.value| > 0 then "_" + suffix.value else ""
  }

  function LowerChar(c: char): char {
    if 'A' <= c <= 'Z' then c - 'A' + 'a' else c
  }

  function Lower(s: string): string {
    seq(|s|, i requires 0 <= i < |s| => LowerChar(s[i]))
  }

  // SQLite tells table names apart without regard to ASCII case.
  function Chain(suffix: Option<string>): string {
    Lower(TableName(suffix))
  }

  // ---------- The database ----------

  // What the one column of a version table may hold.
  datatype Row = Number(version: int64) | NullVersion | NotInteger

  // A script that ran to its end, or one that failed somewhere inside.
  datatype Entry = Applied(chain: string, script: string) | Torn(chain: string, script: string)

  // The version tables, and the scripts the rest of the schema results from.
  datatype Store = Store(tables: map<string, seq<Row>>, log: seq<Entry>)

  // A connection: what it sees, and what an open transaction would roll back to.
  datatype Connection = Connection(store: Store, saved: Option<Store>)

  function Durable(c: Connection): Store {
    if c.saved.Some? then c.saved.value else c.store
  }

  datatype Sql =
    | CreateTable(name: string)
    | SelectAll(name: string)
    | InsertZero(name: string)
    | SetVersion(name: string, version: int64)
    | Begin
    | Commit
    | Rollback

  datatype Effect = Effect(next: Connection, rows: seq<Row>, end: End)

  function SetAll(rows: seq<Row>, version: int64): seq<Row> {
    seq(|rows|, i => Number(version))
  }

  // What a statement does, and the rows it yields. A fault makes it fail after that many rows.
  function Perform(c: Connection, sql: Sql, fault: Option<nat>): Effect {
    var failed := Effect(c, [], Failed);
    var tables := c.store.tables;
    match sql
    case SelectAll(name) =>
      var table := Lower(name);
      if table !in tables then failed
      else if fault.None? then Effect(c, tables[table], Done)
      else Effect(c, if fault.value < |tables[table]| then tables[table][..fault.value] else tables[table], Failed)
    case Rollback =>
      if c.saved.None? then failed else Effect(Connection(c.saved.value, None), [], Done)
    case Begin =>
      if c.saved.Some? then failed else Effect(Connection(c.store, Some(c.store)), [], Done)
    case Commit =>
      if c.saved.None? || fault.Some? then failed else Effect(Connection(c.store, None), [], Done)
    case CreateTable(name) =>
      if fault.Some? then failed
      else if Lower(name) in tables then Effect(c, [], Done)
      else Effect(c.(store := c.store.(tables := tables[Lower(name) := []])), [], Done)
    case InsertZero(name) =>
      var table := Lower(name);
      if table !in tables || fault.Some? then failed
      else Effect(c.(store := c.store.(tables := tables[table := tables[table] + [Number(0)]])), [], Done)
    case SetVersion(name, version) =>
      var table := Lower(name);
      if table !in tables || fault.Some? then failed
      else Effect(c.(store := c.store.(tables := tables[table := SetAll(tables[table], version)])), [], Done)
  }

  // Which of the statements of one migration fail.
  datatype Faults = Faults(create: Option<nat>, select: Option<nat>, insert: Option<nat>, script: bool,
                           update: Option<nat>, commit: Option<nat>)

  class Database {
    var connection: Connection
    // What was durable after each statement, that is, what a crash then would leave.
    ghost var trail: seq<Store>

    constructor (store: Store)
      ensures connection == Connection(store, None)
    {
      connection := Connection(store, None);
      trail := [];
    }

    method Exec(sql: Sql, fault: Option<nat>) returns (result: ResultData<Row>)
      modifies this
      ensures var e := Perform(old(connection), sql, fault);
              && connection == e.next && result.stmt.rows == e.rows && result.stmt.end == e.end
      ensures fresh(result) && fresh(result.stmt) && result.Valid() && result.rowIndex == 0
      ensures trail == old(trail) + [Durable(connection)]
    {
      var e := Perform(connection, sql, fault);
      connection := e.next;
      trail := trail + [Durable(connection)];
      var stmt := new SqliteStatement(e.rows, e.end);
      result := new ResultData(stmt);
    }

    // Runs the statements of a script; they change neither version tables nor transactions.
    method ExecScript(chain: string, script: string, fault: bool) returns (failed: bool)
      modifies this
      ensures failed == fault && connection.saved == old(connection.saved)
      ensures connection.store.tables == old(connection.store.tables)
      ensures connection.store.log ==
              old(connection.store.log) + [if fault then Torn(chain, script) else Applied(chain, script)]
      ensures trail == old(trail) + [Durable(connection)]
    {
      var entry := if fault then Torn(chain, script) else Applied(chain, script);
      var store := connection.store;
      connection := connection.(store := store.(log := store.log + [entry]));
      trail := trail + [Durable(connection)];
      failed := fault;
    }
  }

  datatype MigrationError =
    | NullScript
    | NullConnection
    | CantCreateTable
    | CantGetVersion
    | CantInitVersion
    | VersionNotInteger
    | VersionIsNull
    | MultipleRows
    | NotNextVersion
    | ScriptFailed
    | CantSetVersion
    | CantCommit

  // ---------- What migration does to the store ----------

  function Rows(store: Store, chain: string): seq<Row> {
    if chain in store.tables then store.tables[chain] else []
  }

  function WithRows(store: Store, chain: string, rows: seq<Row>): Store {
    store.(tables := store.tables[chain := rows])
  }

  datatype Outcome<T> = Outcome(store: Store, result: Result<T, MigrationError>)

  predicate AllIntegers(rows: seq<Row>) {
    forall row :: row in rows ==> row != NotInteger
  }

  // The version of a chain. Its table is made, and given its first row, if it is not there yet.
  function ReadVersion(store: Store, chain: string, faults: Faults): Outcome<int64> {
    if faults.create.Some? then
      Outcome(store, Threw(CantCreateTable))
    else
      var rows := Rows(store, chain);
      var created := WithRows(store, chain, rows);
      var seen := if faults.select.Some? && faults.select.value < |rows| then rows[..faults.select.value] else rows;
      if |seen| == 0 then
        if faults.select.Some? then Outcome(created, Threw(CantGetVersion))
        else if faults.insert.Some? then Outcome(created, Threw(CantInitVersion))
        else Outcome(WithRows(store, chain, [Number(0)]), Ok(0))
      else if !AllIntegers(seen) then
        Outcome(created, Threw(VersionNotInteger))
      else if |seen| > 1 then
        Outcome(created, Threw(MultipleRows))
      else if seen[0].Number? then
        Outcome(created, Ok(seen[0].version))
      else
        Outcome(created, Threw(VersionIsNull))
  }

  const READ_VERSION: Reader<Row, Row> := row => if row == NotInteger then None else Some(row)

  lemma FetchesVersions(rows: seq<Row>)
    ensures var r := Fetch(rows, 0, -1, READ_VERSION).result;
            (r.Ok? <==> AllIntegers(rows)) && (r.Ok? ==> r.value == rows)
  {
    FetchReads(rows, 0, -1, READ_VERSION);
    var r := Fetch(rows, 0, -1, READ_VERSION).result;
    assert (forall k :: 0 <= k < |rows| ==> READ_VERSION(rows[k]).Some?) <==> AllIntegers(rows) by {
      if AllIntegers(rows) {
        forall k | 0 <= k < |rows| ensures READ_VERSION(rows[k]).Some? {
          assert rows[k] in rows;
        }
      } else {
        var k :| 0 <= k < |rows| && rows[k] == NotInteger;
        assert READ_VERSION(rows[k]).None?;
      }
    }
    if r.Ok? {
      forall k | 0 <= k < |rows| ensures r.value[k] == rows[k] {
        assert READ_VERSION(rows[0 + k]) == Some(r.value[k]);
      }
      assert r.value == rows;
    }
  }

  // The store, or the store with the version table of the chain made ready at version zero.
  ghost predicate Unmoved(s: Store, store: Store, chain: string) {
    || s == store
    || s == WithRows(store, chain, Rows(store, chain))
    || (Rows(store, chain) == [] && s == WithRows(store, chain, [Number(0)]))
  }

  method GetSchemaVersion(db: Database, suffix: Option<string>, faults: Faults)
    returns (r: Result<int64, MigrationError>)
    requires db.connection.saved.None?
    modifies db
    ensures db.connection.saved.None?
    ensures Outcome(db.connection.store, r) == ReadVersion(old(db.connection.store), Chain(suffix), faults)
    ensures old(db.trail) <= db.trail
    ensures forall k :: |old(db.trail)| <= k < |db.trail| ==>
              Unmoved(db.trail[k], old(db.connection.store), Chain(suffix))
  {
    ghost var chain, store := Chain(suffix), db.connection.store;
    var result := db.Exec(CreateTable(TableName(suffix)), faults.create);
    if !result.isSuccess {
      return Threw(CantCreateTable);
    }
    assert db.connection.store == WithRows(store, chain, Rows(store, chain));
    result := db.Exec(SelectAll(TableName(suffix)), faults.select);
    if !result.isSuccess {
      return Threw(CantGetVersion);
    }
    FetchesVersions(result.stmt.rows);
    var fetched := ReadRowsAsCollection(result, -1, READ_VERSION);
    if fetched.Threw? {
      return Threw(VersionNotInteger);
    }
    var rows := fetched.value;
    if |rows| == 0 {
      result := db.Exec(InsertZero(TableName(suffix)), faults.insert);
      if result.isSuccess {
        assert [] + [Number(0)] == [Number(0)];
        assert store.tables[chain := []][chain := [Number(0)]] == store.tables[chain := [Number(0)]];
        return Ok(0);
      }
      return Threw(CantInitVersion);
    } else if |rows| == 1 {
      if rows[0].Number? {
        return Ok(rows[0].version);
      }
      return Threw(VersionIsNull);
    }
    return Threw(MultipleRows);
  }

  datatype Call = Call(script: Option<string>, newVersion: int64, suffix: Option<string>, connected: bool,
                       faults: Faults)

  // A whole call, of which only a commit moves the chain.
  function Migrate(store: Store, call: Call): Outcome<()> {
    var chain := Chain(call.suffix);
    if call.script.None? then
      Outcome(store, Threw(NullScript))
    else if !call.connected then
      Outcome(store, Threw(NullConnection))
    else
      var read := ReadVersion(store, chain, call.faults);
      if read.result.Threw? then Outcome(read.store, Threw(read.result.error))
      else if call.newVersion <= read.result.value then Outcome(read.store, Ok(()))
      else if call.newVersion > read.result.value + 1 then Outcome(read.store, Threw(NotNextVersion))
      else if call.faults.script then Outcome(read.store, Threw(ScriptFailed))
      else if call.faults.update.Some? then Outcome(read.store, Threw(CantSetVersion))
      else if call.faults.commit.Some? then Outcome(read.store, Threw(CantCommit))
      else
        var moved := WithRows(read.store, chain, SetAll(Rows(read.store, chain), call.newVersion));
        Outcome(moved.(log := moved.log + [Applied(chain, call.script.value)]), Ok(()))
  }

  // What a call leaves durable, whether it goes on to its end or is cut short after any statement.
  ghost predicate Leaves(store: Store, call: Call, after: Store) {
    || Unmoved(after, store, Chain(call.suffix))
    || (Migrate(store, call).result.Ok? && after == Migrate(store, call).store)
  }

  method MigrateSchema(db: Database, call: Call) returns (r: Result<(), MigrationError>)
    requires db.connection.saved.None?
    modifies db
    ensures db.connection.saved.None?
    ensures Outcome(db.connection.store, r) == Migrate(old(db.connection.store), call)
    ensures old(db.trail) <= db.trail
    ensures forall k :: |old(db.trail)| <= k < |db.trail| ==> Leaves(old(db.connection.store), call, db.trail[k])
  {
    if call.script.None? {
      return Threw(NullScript);
    }
    if !call.connected {
      return Threw(NullConnection);
    }
    var currVersion := GetSchemaVersion(db, call.suffix, call.faults);
    if currVersion.Threw? {
      return Threw(currVersion.error);
    }
    if call.newVersion <= currVersion.value {
      return Ok(());
    }
    // The version read is below another, so adding one stays within 64 bits.
    if call.newVersion > currVersion.value + 1 {
      return Threw(NotNextVersion);
    }
    var _ := db.Exec(Begin, None);
    r := InTransaction(db, call);
    // Ending the scope of a transaction that was not committed rolls it back.
    if r.Threw? {
      var _ := db.Exec(Rollback, None);
    }
  }

  method InTransaction(db: Database, call: Call) returns (r: Result<(), MigrationError>)
    requires db.connection.saved.Some? && call.script.Some? && Chain(call.suffix) in db.connection.store.tables
    modifies db
    ensures var f := call.faults;
            r == if f.script then Threw(ScriptFailed)
                 else if f.update.Some? then Threw(CantSetVersion)
                 else if f.commit.Some? then Threw(CantCommit)
                 else Ok(())
    ensures r.Threw? ==> db.connection.saved == old(db.connection.saved)
    ensures old(db.trail) <= db.trail
    ensures forall k :: |old(db.trail)| <= k < |db.trail| ==>
              || Some(db.trail[k]) == old(db.connection.saved)
              || (r.Ok? && db.trail[k] == db.connection.store)
    ensures r.Ok? ==>
              var chain, store := Chain(call.suffix), old(db.connection.store);
              && db.connection.saved.None?
              && db.connection.store ==
                 WithRows(store, chain, SetAll(Rows(store, chain), call.newVersion))
                 .(log := store.log + [Applied(chain, call.script.value)])
  {
    var failed := db.ExecScript(Chain(call.suffix), call.script.value, call.faults.script);
    if failed {
      return Threw(ScriptFailed);
    }
    var result := db.Exec(SetVersion(TableName(call.suffix), call.newVersion), call.faults.update);
    if !result.isSuccess || result.hasMore {
      return Threw(CantSetVersion);
    }
    result := db.Exec(Commit, call.faults.commit);
    if !result.isSuccess {
      return Threw(CantCommit);
    }
    return Ok(());
  }
}
