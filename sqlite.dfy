/** The SQLite backend. Its integer columns hold signed 64-bit numbers. The driver opens a
    transaction before a row is inserted or deleted; running a script (`executescript`) first
    commits whatever is pending and then runs the script's statements one by one, each
    committed as it completes, so a script that fails part-way leaves the statements before
    the failing one in place. `with conn` commits when its block completes and rolls back
    what is still pending when the block raises. */
module Sqlite {
  import opened Errors
  import opened Text
  import opened Hashing
  import opened Changesets
  import opened AdapterBase

  class SqliteAdapter {
    /** The path of the database file. */
    const host: string
    const tablename: string
    const engine: Engine
    const sha1: Sha1
    /** The database file's contents: what has been committed. */
    var db: DbState
    /** The database as the adapter's connection sees it, uncommitted work included. */
    var pending: DbState
    var link: Link

    /** Keeps the settings, which `NewSqliteAdapter` has checked; does not connect. */
    constructor (host: string, ternTable: string, engine: Engine, sha1: Sha1, db: DbState)
      ensures this.host == host && this.tablename == ternTable
      ensures this.engine == engine && this.sha1 == sha1
      ensures this.db == db && pending == db && link == Unopened
    {
      this.host := host;
      this.tablename := ternTable;
      this.engine := engine;
      this.sha1 := sha1;
      this.db := db;
      this.pending := db;
      this.link := Unopened;
    }

    /** `open`: connects to the file, seeing what is committed. */
    method Open()
      modifies this`link, this`pending
      ensures link == Connected && pending == db
    {
      link := Connected;
      pending := db;
    }

    /** `close`: uncommitted work is discarded; closing a closed connection does nothing. */
    method Close() returns (r: Outcome)
      modifies this`link, this`pending
      ensures old(link).Unopened? ==> r == Fail(NotOpened) && link == old(link) && pending == old(pending)
      ensures !old(link).Unopened? ==> r == Pass && link == Closed && pending == db
    {
      if link.Unopened? {
        return Fail(NotOpened);
      }
      link := Closed;
      pending := db;
      r := Pass;
    }

    /** `_changeset_exists`: whether the connection sees a row keyed by the changeset's hash. */
    function ChangesetExists(cs: Changeset): (r: Result<bool>)
      reads this, cs
      ensures r.Err? <==> !link.Connected? || pending.table.None?
      ensures r.Ok? ==> (r.value <==> HexHash(cs.Value(), sha1) in pending.table.value)
    {
      if !link.Connected? then Err(LinkError(link)) else Exists(pending, HexHash(cs.Value(), sha1))
    }

    /** `executescript`: commits what is pending, then runs the script; what the script did
        up to a failing statement stays committed. */
    method ExecuteScript(script: string) returns (succeeded: bool)
      modifies this`pending, this`db
      ensures var run := engine(old(pending).schema, script);
        succeeded == run.succeeded && db == old(pending).(schema := run.schema) && pending == db
    {
      db := pending;
      var run := engine(pending.schema, script);
      db := db.(schema := run.schema);
      pending := db;
      succeeded := run.succeeded;
    }

    /** `_save_changeset`: inserts the changeset's row without committing. A row already
        keyed by its hash makes it return a ValueError rather than raise one, and insert
        nothing. */
    method SaveChangeset(cs: Changeset) returns (r: Result<Option<Error>>)
      modifies this`pending
      ensures old(ChangesetExists(cs)).Err? ==> r == Err(old(ChangesetExists(cs)).error) && pending == old(pending)
      ensures old(ChangesetExists(cs)) == Ok(true) ==>
        r == Ok(Some(ValueError("Changeset already exists in database."))) && pending == old(pending)
      ensures old(ChangesetExists(cs)) == Ok(false) ==>
        var problem := InsertProblem(cs.Value(), FitsInt64);
        (problem.Some? ==> r == Err(TrackingTableError(problem.value)) && pending == old(pending))
        && (problem.None? ==>
              r == Ok(None)
              && pending == old(pending).(table := Some(Record(old(pending).table.value, cs.Value(), sha1))))
    {
      var tracked := ChangesetExists(cs);
      if tracked.Err? {
        return Err(tracked.error);
      }
      if tracked.value {
        return Ok(Some(ValueError("Changeset already exists in database.")));
      }
      var problem := InsertProblem(cs.Value(), FitsInt64);
      if problem.Some? {
        return Err(TrackingTableError(problem.value));
      }
      pending := pending.(table := Some(Record(pending.table.value, cs.Value(), sha1)));
      r := Ok(None);
    }

    /** `_delete_changeset`: deletes the changeset's row without committing; raises when
        there is none. */
    method DeleteChangeset(cs: Changeset) returns (r: Outcome)
      modifies this`pending
      ensures old(ChangesetExists(cs)).Err? ==> r == Fail(old(ChangesetExists(cs)).error) && pending == old(pending)
      ensures old(ChangesetExists(cs)) == Ok(false) ==>
        r == Fail(ValueError("Changeset does not exist in database.")) && pending == old(pending)
      ensures old(ChangesetExists(cs)) == Ok(true) ==>
        r == Pass && pending == old(pending).(table := Some(old(pending).table.value - {HexHash(cs.Value(), sha1)}))
    {
      var tracked := ChangesetExists(cs);
      if tracked.Err? {
        return Fail(tracked.error);
      }
      if !tracked.value {
        return Fail(ValueError("Changeset does not exist in database."));
      }
      pending := pending.(table := Some(pending.table.value - {HexHash(cs.Value(), sha1)}));
      r := Pass;
    }

    /** `initialize_tern`: creates the empty tracking table and commits; the database
        refuses to create it twice. */
    method InitializeTern() returns (r: Outcome)
      modifies this`pending, this`db
      ensures !link.Connected? ==> r == Fail(LinkError(link)) && db == old(db) && pending == old(pending)
      ensures link.Connected? && old(pending).table.Some? ==>
        r == Fail(TrackingTableError(AlreadyExists)) && db == old(db) && pending == db
      ensures link.Connected? && old(pending).table.None? ==>
        r == Pass && db == pending && db == old(pending).(table := Some(map[]))
    {
      if !link.Connected? {
        return Fail(LinkError(link));
      }
      var created := CreateTable(pending);
      if created.Err? {
        pending := db;
        return Fail(created.error);
      }
      pending := created.value;
      db := pending;
      r := Pass;
    }

    /** `verify_tern`: raises NotInitialized when the database has no tracking table. */
    method VerifyTern() returns (r: Outcome)
      ensures r.Pass? <==> link.Connected? && pending.table.Some?
      ensures !link.Connected? ==> r == Fail(LinkError(link))
      ensures link.Connected? && pending.table.None? ==> r == Fail(NotInitialized)
    {
      if !link.Connected? {
        return Fail(LinkError(link));
      }
      r := if pending.table.None? then Fail(NotInitialized) else Pass;
    }

    /** `apply`. The duplicate guard runs first and changes nothing. Then an unset order is
        assigned, in place. Then the setup script runs, committing what was pending and each
        of its statements; a failing script leaves its earlier statements committed and the
        changeset untracked. Then the row is inserted and committed; when the insert fails
        the setup stays committed. The order just assigned changes the hash, and a row
        already keyed by the new hash makes the insert return its error unnoticed. */
    method Apply(cs: Changeset) returns (r: Outcome)
      requires cs.Valid()
      modifies this`pending, this`db, cs`order
      ensures cs.Valid()
      ensures old(ChangesetExists(cs)).Err? ==>
        r == Fail(old(ChangesetExists(cs)).error) && cs.order == old(cs.order)
        && db == old(db) && pending == old(pending)
      ensures old(ChangesetExists(cs)) == Ok(true) ==>
        r == Fail(ValueError("Changeset has already been applied.")) && cs.order == old(cs.order)
        && db == old(db) && pending == old(pending)
      ensures old(ChangesetExists(cs)) == Ok(false) ==>
        var table := old(pending).table.value;
        var run := engine(old(pending).schema, cs.setup);
        var key := HexHash(cs.Value(), sha1);
        var problem := InsertProblem(cs.Value(), FitsInt64);
        cs.order == Some(AssignedOrder(old(cs.order), table))
        && (r.Pass? <==> run.succeeded && (key in table || problem.None?))
        && (r.Fail? ==>
              db == DbState(run.schema, Some(table)) && pending == db
              && r.error == if !run.succeeded then SqlError(cs.setup) else TrackingTableError(problem.value))
        && (r.Pass? ==>
              db == pending
              && db == DbState(run.schema, Some(if key in table then table else Record(table, cs.Value(), sha1))))
    {
      var tracked := ChangesetExists(cs);
      if tracked.Err? {
        return Fail(tracked.error);
      }
      if tracked.value {
        return Fail(ValueError("Changeset has already been applied."));
      }
      if cs.order.None? {
        cs.order := Some(AssignedOrder(cs.order, pending.table.value));
      }
      // with self.conn: the setup script, then the row
      var succeeded := ExecuteScript(cs.setup);
      if !succeeded {
        return Fail(SqlError(cs.setup));
      }
      var saved := SaveChangeset(cs);
      if saved.Err? {
        pending := db;
        return Fail(saved.error);
      }
      db := pending;
      r := Pass;
    }

    /** `revert`. The missing-row guard runs first and changes nothing. Then the teardown
        script runs, even when empty, committing as it goes; then the row is deleted and
        the deletion committed. */
    method Revert(cs: Changeset) returns (r: Outcome)
      modifies this`pending, this`db
      ensures old(ChangesetExists(cs)).Err? ==>
        r == Fail(old(ChangesetExists(cs)).error) && db == old(db) && pending == old(pending)
      ensures old(ChangesetExists(cs)) == Ok(false) ==>
        r == Fail(ValueError("Changeset has not yet been applied.")) && db == old(db) && pending == old(pending)
      ensures old(ChangesetExists(cs)) == Ok(true) ==>
        var table := old(pending).table.value;
        var run := engine(old(pending).schema, cs.teardown);
        (r.Pass? <==> run.succeeded)
        && (r.Fail? ==> r.error == SqlError(cs.teardown) && db == DbState(run.schema, Some(table)) && pending == db)
        && (r.Pass? ==> db == pending && db == DbState(run.schema, Some(table - {HexHash(cs.Value(), sha1)})))
    {
      var tracked := ChangesetExists(cs);
      if tracked.Err? {
        return Fail(tracked.error);
      }
      if !tracked.value {
        return Fail(ValueError("Changeset has not yet been applied."));
      }
      // with self.conn: the teardown script, then the deletion
      var succeeded := ExecuteScript(cs.teardown);
      if !succeeded {
        return Fail(SqlError(cs.teardown));
      }
      var deleted := DeleteChangeset(cs);
      assert deleted.Pass?;
      db := pending;
      r := Pass;
    }

    /** `test` is a stub: it does nothing and raises nothing. */
    method Test(cs: Changeset) returns (r: Outcome)
      ensures r == Pass
    {
      r := Pass;
    }

    /** `get_applied` is a stub: it returns None. */
    method GetApplied() returns (r: Result<Option<seq<Quintessence>>>)
      ensures r == Ok(None)
    {
      r := Ok(None);
    }
  }

  /** `SQLiteAdapter(host, dbname, username, password, tern_table)`: only the file path is
      supported; each other setting raises ValueError when given, checked in this order. */
  method NewSqliteAdapter(host: string, dbname: Option<string>, username: Option<string>,
                          password: Option<string>, ternTable: string,
                          engine: Engine, sha1: Sha1, db: DbState)
    returns (r: Result<SqliteAdapter>)
    ensures r.Ok? <==> dbname.None? && username.None? && password.None?
    ensures dbname.Some? ==> r == Err(ValueError("``dbname`` is not supported."))
    ensures dbname.None? && username.Some? ==> r == Err(ValueError("``username`` is not supported."))
    ensures dbname.None? && username.None? && password.Some? ==>
      r == Err(ValueError("``password`` is not supported."))
    ensures r.Ok? ==>
      fresh(r.value) && r.value.host == host && r.value.tablename == ternTable
      && r.value.engine == engine && r.value.sha1 == sha1
      && r.value.db == db && r.value.pending == db && r.value.link == Unopened
  {
    if dbname.Some? {
      return Err(ValueError("``dbname`` is not supported."));
    }
    if username.Some? {
      return Err(ValueError("``username`` is not supported."));
    }
    if password.Some? {
      return Err(ValueError("``password`` is not supported."));
    }
    var adapter := new SqliteAdapter(host, ternTable, engine, sha1, db);
    r := Ok(adapter);
  }
}
