/** The PostgreSQL backend. Its columns `created_at` and `order` are 32-bit `integer`s. Every
    change runs in the connection's transaction: `with conn` commits it when the block
    completes and rolls it back when the block raises, and `test` always rolls back. */
module PostgreSql {
  import opened Errors
  import opened Text
  import opened Hashing
  import opened Changesets
  import opened AdapterBase

  /** Python's `value or None` on a text setting: an empty text means unset. */
  function OrNone(s: Option<string>): (r: Option<string>)
    ensures r.Some? <==> s.Some? && s.value != ""
    ensures r.Some? ==> r == s
  {
    if s.Some? && s.value == "" then None else s
  }

  /** Python's `port or None`: port 0 means unset. */
  function PortOrNone(port: Option<int>): (r: Option<int>)
    ensures r.Some? <==> port.Some? && port.value != 0
    ensures r.Some? ==> r == port
  {
    if port.Some? && port.value == 0 then None else port
  }

  class PostgresAdapter {
    const host: Option<string>
    const port: Option<int>
    const dbname: Option<string>
    const username: Option<string>
    const password: Option<string>
    const tablename: string
    /** The server running SQL. */
    const engine: Engine
    const sha1: Sha1
    /** The database as every connection sees it: what has been committed. */
    var db: DbState
    /** The database as the adapter's connection sees it, uncommitted work included. */
    var pending: DbState
    var link: Link

    /** `PostgreSQLAdapter(host, dbname, username, password, port, tern_table)`: keeps the
        settings and does not connect; `db` is the database the settings lead to. */
    constructor (host: Option<string>, dbname: Option<string>, username: Option<string>,
                 password: Option<string>, port: Option<int>, ternTable: string,
                 engine: Engine, sha1: Sha1, db: DbState)
      ensures this.host == OrNone(host) && this.port == PortOrNone(port)
      ensures this.dbname == OrNone(dbname) && this.username == OrNone(username)
      ensures this.password == OrNone(password) && this.tablename == ternTable
      ensures this.engine == engine && this.sha1 == sha1
      ensures this.db == db && pending == db && link == Unopened
    {
      this.host := OrNone(host);
      this.port := PortOrNone(port);
      this.dbname := OrNone(dbname);
      this.username := OrNone(username);
      this.password := OrNone(password);
      this.tablename := ternTable;
      this.engine := engine;
      this.sha1 := sha1;
      this.db := db;
      this.pending := db;
      this.link := Unopened;
    }

    /** `open`: a new connection, which sees what is committed. */
    method Open()
      modifies this`link, this`pending
      ensures link == Connected && pending == db
    {
      link := Connected;
      pending := db;
    }

    /** `close`: uncommitted work is discarded. Closing a closed connection does nothing;
        an adapter never opened has no connection to close. */
    method Close() returns (r: Outcome)
      modifies this`link, this`pending
      ensures old(link).Unopened? ==> r == Fail(NotOpened) && link == old(link) && pending == old(pending)
      ensures !old(link).Unopened? ==> r == Pass && link == Closed && pending == db
    {
      if link.Unopened? {
        return Fail(NotOpened);
      }
      link := Closed;
      pending := db;
      r := Pass;
    }

    /** `_changeset_exists`: whether the connection sees a row keyed by the changeset's hash. */
    function ChangesetExists(cs: Changeset): (r: Result<bool>)
      reads this, cs
      ensures r.Err? <==> !link.Connected? || pending.table.None?
      ensures r.Ok? ==> (r.value <==> HexHash(cs.Value(), sha1) in pending.table.value)
    {
      if !link.Connected? then Err(LinkError(link)) else Exists(pending, HexHash(cs.Value(), sha1))
    }

    /** `_save_changeset`: inserts the changeset's row without committing. A row already
        keyed by its hash makes it return a ValueError rather than raise one, and insert
        nothing. */
    method SaveChangeset(cs: Changeset) returns (r: Result<Option<Error>>)
      modifies this`pending
      ensures old(ChangesetExists(cs)).Err? ==> r == Err(old(ChangesetExists(cs)).error) && pending == old(pending)
      ensures old(ChangesetExists(cs)) == Ok(true) ==>
        r == Ok(Some(ValueError("Changeset already exists in database."))) && pending == old(pending)
      ensures old(ChangesetExists(cs)) == Ok(false) ==>
        var problem := InsertProblem(cs.Value(), FitsInt32);
        (problem.Some? ==> r == Err(TrackingTableError(problem.value)) && pending == old(pending))
        && (problem.None? ==>
              r == Ok(None)
              && pending == old(pending).(table := Some(Record(old(pending).table.value, cs.Value(), sha1))))
    {
      var tracked := ChangesetExists(cs);
      if tracked.Err? {
        return Err(tracked.error);
      }
      if tracked.value {
        return Ok(Some(ValueError("Changeset already exists in database.")));
      }
      var problem := InsertProblem(cs.Value(), FitsInt32);
      if problem.Some? {
        return Err(TrackingTableError(problem.value));
      }
      pending := pending.(table := Some(Record(pending.table.value, cs.Value(), sha1)));
      r := Ok(None);
    }

    /** `_delete_changeset`: deletes the changeset's row without committing; raises when
        there is none. */
    method DeleteChangeset(cs: Changeset) returns (r: Outcome)
      modifies this`pending
      ensures old(ChangesetExists(cs)).Err? ==> r == Fail(old(ChangesetExists(cs)).error) && pending == old(pending)
      ensures old(ChangesetExists(cs)) == Ok(false) ==>
        r == Fail(ValueError("Changeset does not exist in database.")) && pending == old(pending)
      ensures old(ChangesetExists(cs)) == Ok(true) ==>
        r == Pass && pending == old(pending).(table := Some(old(pending).table.value - {HexHash(cs.Value(), sha1)}))
    {
      var tracked := ChangesetExists(cs);
      if tracked.Err? {
        return Fail(tracked.error);
      }
      if !tracked.value {
        return Fail(ValueError("Changeset does not exist in database."));
      }
      pending := pending.(table := Some(pending.table.value - {HexHash(cs.Value(), sha1)}));
      r := Pass;
    }

    /** `initialize_tern`: creates the empty tracking table and commits; the database
        refuses to create it twice. */
    method InitializeTern() returns (r: Outcome)
      modifies this`pending, this`db
      ensures !link.Connected? ==> r == Fail(LinkError(link)) && db == old(db) && pending == old(pending)
      ensures link.Connected? && old(pending).table.Some? ==>
        r == Fail(TrackingTableError(AlreadyExists)) && db == old(db) && pending == db
      ensures link.Connected? && old(pending).table.None? ==>
        r == Pass && db == pending && db == old(pending).(table := Some(map[]))
    {
      if !link.Connected? {
        return Fail(LinkError(link));
      }
      var created := CreateTable(pending);
      if created.Err? {
        pending := db;
        return Fail(created.error);
      }
      pending := created.value;
      db := pending;
      r := Pass;
    }

    /** `verify_tern`: raises NotInitialized when the tracking table does not exist. */
    method VerifyTern() returns (r: Outcome)
      ensures r.Pass? <==> link.Connected? && pending.table.Some?
      ensures !link.Connected? ==> r == Fail(LinkError(link))
      ensures link.Connected? && pending.table.None? ==> r == Fail(NotInitialized)
    {
      if !link.Connected? {
        return Fail(LinkError(link));
      }
      r := if pending.table.None? then Fail(NotInitialized) else Pass;
    }

    /** `apply`. The duplicate guard runs first and changes nothing. Then an unset order is
        assigned, in place, and stays assigned whatever follows. Then the setup SQL and the
        row are committed together or, when either fails, not at all. */
    method Apply(cs: Changeset) returns (r: Outcome)
      requires cs.Valid()
      modifies this`pending, this`db, cs`order
      ensures cs.Valid()
      ensures old(ChangesetExists(cs)).Err? ==>
        r == Fail(old(ChangesetExists(cs)).error) && cs.order == old(cs.order)
        && db == old(db) && pending == old(pending)
      ensures old(ChangesetExists(cs)) == Ok(true) ==>
        r == Fail(ValueError("Changeset has already been applied.")) && cs.order == old(cs.order)
        && db == old(db) && pending == old(pending)
      ensures old(ChangesetExists(cs)) == Ok(false) ==>
        var table := old(pending).table.value;
        var run := engine(old(pending).schema, cs.setup);
        var key := HexHash(cs.Value(), sha1);
        var problem := InsertProblem(cs.Value(), FitsInt32);
        cs.order == Some(AssignedOrder(old(cs.order), table))
        && (r.Pass? <==> run.succeeded && (key in table || problem.None?))
        && (r.Fail? ==>
              db == old(db) && pending == db
              && r.error == if !run.succeeded then SqlError(cs.setup) else TrackingTableError(problem.value))
        && (r.Pass? ==>
              db == pending
              && db == DbState(run.schema, Some(if key in table then table else Record(table, cs.Value(), sha1))))
    {
      var tracked := ChangesetExists(cs);
      if tracked.Err? {
        return Fail(tracked.error);
      }
      if tracked.value {
        return Fail(ValueError("Changeset has already been applied."));
      }
      if cs.order.None? {
        cs.order := Some(AssignedOrder(cs.order, pending.table.value));
      }
      // with self.conn: the setup, then the row
      var run := engine(pending.schema, cs.setup);
      if !run.succeeded {
        pending := db;
        return Fail(SqlError(cs.setup));
      }
      pending := pending.(schema := run.schema);
      var saved := SaveChangeset(cs);
      if saved.Err? {
        pending := db;
        return Fail(saved.error);
      }
      db := pending;
      r := Pass;
    }

    /** `revert`. The missing-row guard runs first and changes nothing. Then the teardown
        SQL, skipped when empty, and the deletion of the row are committed together or not
        at all. */
    method Revert(cs: Changeset) returns (r: Outcome)
      modifies this`pending, this`db
      ensures old(ChangesetExists(cs)).Err? ==>
        r == Fail(old(ChangesetExists(cs)).error) && db == old(db) && pending == old(pending)
      ensures old(ChangesetExists(cs)) == Ok(false) ==>
        r == Fail(ValueError("Changeset has not yet been applied.")) && db == old(db) && pending == old(pending)
      ensures old(ChangesetExists(cs)) == Ok(true) ==>
        var run := if cs.teardown == "" then Execution(old(pending).schema, true)
                   else engine(old(pending).schema, cs.teardown);
        (r.Pass? <==> run.succeeded)
        && (r.Fail? ==> r.error == SqlError(cs.teardown) && db == old(db) && pending == db)
        && (r.Pass? ==>
              db == pending
              && db == DbState(run.schema, Some(old(pending).table.value - {HexHash(cs.Value(), sha1)})))
    {
      var tracked := ChangesetExists(cs);
      if tracked.Err? {
        return Fail(tracked.error);
      }
      if !tracked.value {
        return Fail(ValueError("Changeset has not yet been applied."));
      }
      // with self.conn: the teardown, then the deletion
      if cs.teardown != "" {
        var run := engine(pending.schema, cs.teardown);
        if !run.succeeded {
          pending := db;
          return Fail(SqlError(cs.teardown));
        }
        pending := pending.(schema := run.schema);
      }
      var deleted := DeleteChangeset(cs);
      assert deleted.Pass?;
      db := pending;
      r := Pass;
    }

    /** `test`: the setup SQL, then the teardown SQL when it is not empty, then a rollback
        whatever happened, so the database is as it was committed; an error is raised
        after the rollback. */
    method Test(cs: Changeset) returns (r: Outcome)
      modifies this`pending
      ensures db == old(db)
      ensures !link.Connected? ==> r == Fail(LinkError(link)) && pending == old(pending)
      ensures link.Connected? ==>
        var first := engine(old(pending).schema, cs.setup);
        pending == db
        && (r.Pass? <==> first.succeeded && (cs.teardown != "" ==> engine(first.schema, cs.teardown).succeeded))
        && (r.Fail? ==> r.error == SqlError(if first.succeeded then cs.teardown else cs.setup))
    {
      if !link.Connected? {
        return Fail(LinkError(link));
      }
      var first := engine(pending.schema, cs.setup);
      if !first.succeeded {
        r := Fail(SqlError(cs.setup));
      } else if cs.teardown != "" {
        var second := engine(first.schema, cs.teardown);
        r := if second.succeeded then Pass else Fail(SqlError(cs.teardown));
      } else {
        r := Pass;
      }
      pending := db;
    }

    /** `get_applied`: one changeset per row of the tracking table, rebuilt from the row's
        four columns; the rows come in no particular order. */
    method GetApplied() returns (r: Result<Option<seq<Quintessence>>>)
      ensures !link.Connected? ==> r == Err(LinkError(link))
      ensures link.Connected? && pending.table.None? ==> r == Err(TrackingTableError(Missing))
      ensures link.Connected? && pending.table.Some? ==>
        r.Ok? && r.value.Some? && |r.value.value| == |pending.table.value|
        && forall q :: q in r.value.value <==> q in RowValues(pending.table.value)
    {
      if !link.Connected? {
        return Err(LinkError(link));
      }
      if pending.table.None? {
        return Err(TrackingTableError(Missing));
      }
      var applied := ReadRows(pending.table.value);
      r := Ok(Some(applied));
    }
  }

  /** The loop of `get_applied` over the rows a query returns, in whatever order it returns
      them: each row becomes a changeset. */
  method ReadRows(table: Table) returns (applied: seq<Quintessence>)
    ensures |applied| == |table|
    ensures forall q :: q in applied <==> q in RowValues(table)
  {
    applied := [];
    var rest := table;
    while rest != map[]
      invariant rest.Keys <= table.Keys
      invariant forall key | key in rest :: rest[key] == table[key]
      invariant |applied| + |rest| == |table|
      invariant forall q | q in applied :: q in RowValues(table)
      invariant forall key | key in table && key !in rest :: RowValue(table[key]) in applied
      decreases |rest|
    {
      var key :| key in rest;
      applied := applied + [RowValue(rest[key])];
      rest := rest - {key};
    }
  }
}
