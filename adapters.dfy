/** The adapter contract (`AdapterBase`) over the three backends the configuration can
    select. Each operation dispatches to the backend and states what every backend, or every
    backend with a database, promises: `open` makes the adapter usable and `close` unusable,
    `apply` leaves the changeset with an order (the given one, or for a database one more
    than the largest stored order) and tracked, `revert` leaves it untracked, `test` commits
    nothing, and `verify_tern` raises NotInitialized when the tracking table is missing. */
module Adapters {
  import opened Errors
  import opened Changesets
  import opened AdapterBase
  import opened PostgreSql
  import opened Sqlite
  import opened Mock

  datatype Adapter =
    | PostgresBackend(pg: PostgresAdapter)
    | SqliteBackend(lite: SqliteAdapter)
    | MockBackend(mock: MockAdapter)

  /** The object holding the adapter's state. */
  function Objects(a: Adapter): set<object> {
    match a
    case PostgresBackend(pg) => {pg}
    case SqliteBackend(lite) => {lite}
    case MockBackend(mock) => {mock}
  }

  /** Whether the adapter has an open connection (the mock: its open flag). */
  predicate IsOpen(a: Adapter)
    reads Objects(a)
  {
    match a
    case PostgresBackend(pg) => pg.link.Connected?
    case SqliteBackend(lite) => lite.link.Connected?
    case MockBackend(mock) => mock.isOpen
  }

  /** What the database holds committed; the mock has no database. */
  function Committed(a: Adapter): (r: Option<DbState>)
    reads Objects(a)
    ensures r.None? <==> a.MockBackend?
  {
    match a
    case PostgresBackend(pg) => Some(pg.db)
    case SqliteBackend(lite) => Some(lite.db)
    case MockBackend(_) => None
  }

  /** The tracking table as the adapter's connection sees it, uncommitted work included. */
  function PendingTable(a: Adapter): (r: Option<Table>)
    reads Objects(a)
    ensures a.MockBackend? ==> r.None?
  {
    match a
    case PostgresBackend(pg) => pg.pending.table
    case SqliteBackend(lite) => lite.pending.table
    case MockBackend(_) => None
  }

  /** The committed tracking table has a row keyed by the hash of `q`. */
  predicate Tracks(a: Adapter, q: Quintessence)
    reads Objects(a)
  {
    match a
    case PostgresBackend(pg) => pg.db.table.Some? && HexHash(q, pg.sha1) in pg.db.table.value
    case SqliteBackend(lite) => lite.db.table.Some? && HexHash(q, lite.sha1) in lite.db.table.value
    case MockBackend(_) => false
  }

  /** The tracking table as the connection sees it has a row keyed by the hash of `q`. */
  predicate Sees(a: Adapter, q: Quintessence)
    reads Objects(a)
  {
    match a
    case PostgresBackend(pg) => pg.pending.table.Some? && HexHash(q, pg.sha1) in pg.pending.table.value
    case SqliteBackend(lite) => lite.pending.table.Some? && HexHash(q, lite.sha1) in lite.pending.table.value
    case MockBackend(_) => false
  }

  /** `open`, which entering the adapter as a context (`__enter__`) calls. */
  method Open(a: Adapter)
    modifies Objects(a)
    ensures IsOpen(a)
    ensures Committed(a) == old(Committed(a))
  {
    match a
    case PostgresBackend(pg) => pg.Open();
    case SqliteBackend(lite) => lite.Open();
    case MockBackend(mock) => mock.Open();
  }

  /** `close`, which leaving the context (`__exit__`) calls whether or not its body raised. */
  method Close(a: Adapter) returns (r: Outcome)
    modifies Objects(a)
    ensures !IsOpen(a)
    ensures old(IsOpen(a)) ==> r == Pass
    ensures Committed(a) == old(Committed(a))
  {
    match a
    case PostgresBackend(pg) => r := pg.Close();
    case SqliteBackend(lite) => r := lite.Close();
    case MockBackend(mock) => r := mock.Close();
  }

  /** `initialize_tern`: on a database, success leaves an empty tracking table committed. */
  method InitializeTern(a: Adapter) returns (r: Outcome)
    modifies Objects(a)
    ensures a.MockBackend? ==> r == Pass
    ensures r.Pass? && !a.MockBackend? ==> Committed(a).value.table == Some(map[])
    ensures !a.MockBackend? && IsOpen(a) && old(PendingTable(a)).Some? ==>
      r == Fail(TrackingTableError(AlreadyExists))
  {
    match a
    case PostgresBackend(pg) => r := pg.InitializeTern();
    case SqliteBackend(lite) => r := lite.InitializeTern();
    case MockBackend(mock) => r := mock.InitializeTern();
  }

  /** `verify_tern`: on a database, raises NotInitialized exactly when the connection is
      open and sees no tracking table. */
  method VerifyTern(a: Adapter) returns (r: Outcome)
    ensures a.MockBackend? ==> r == Pass
    ensures !a.MockBackend? ==> (r.Pass? <==> IsOpen(a) && PendingTable(a).Some?)
    ensures !a.MockBackend? && IsOpen(a) && PendingTable(a).None? ==> r == Fail(NotInitialized)
  {
    match a
    case PostgresBackend(pg) => r := pg.VerifyTern();
    case SqliteBackend(lite) => r := lite.VerifyTern();
    case MockBackend(mock) => r := mock.VerifyTern();
  }

  /** `apply`: it succeeds only for a changeset the connection does not yet see tracked,
      and afterwards the changeset has an order. A given order is never replaced;
      a database gives an unset one the largest order stored plus one (1 on an empty table)
      and tracks the changeset under its hash, computed with that order. The mock succeeds
      exactly when open. */
  method Apply(a: Adapter, cs: Changeset) returns (r: Outcome)
    requires cs.Valid()
    modifies Objects(a), cs`order
    ensures cs.Valid() && IsOpen(a) == old(IsOpen(a))
    ensures r.Pass? ==> cs.order.Some?
    ensures old(cs.order).Some? ==> cs.order == old(cs.order)
    ensures r.Pass? && !a.MockBackend? ==> !old(Sees(a, cs.Value())) && Tracks(a, cs.Value())
    ensures r.Pass? && !a.MockBackend? && old(cs.order).None? ==>
      old(PendingTable(a)).Some? && cs.order == Some(AssignedOrder(None, old(PendingTable(a)).value))
    ensures a.MockBackend? ==> (r.Pass? <==> old(IsOpen(a)))
  {
    match a
    case PostgresBackend(pg) => r := pg.Apply(cs);
    case SqliteBackend(lite) => r := lite.Apply(cs);
    case MockBackend(mock) => r := mock.Apply(cs);
  }

  /** `revert`: on a database it succeeds only for a changeset the connection sees tracked,
      and afterwards the changeset is no longer tracked. */
  method Revert(a: Adapter, cs: Changeset) returns (r: Outcome)
    modifies Objects(a)
    ensures a.MockBackend? ==> r == Pass
    ensures r.Pass? && !a.MockBackend? ==> old(Sees(a, cs.Value())) && !Tracks(a, cs.Value())
  {
    match a
    case PostgresBackend(pg) => r := pg.Revert(cs);
    case SqliteBackend(lite) => r := lite.Revert(cs);
    case MockBackend(mock) => r := mock.Revert(cs);
  }

  /** `test`: whatever it runs, nothing is committed. */
  method Test(a: Adapter, cs: Changeset) returns (r: Outcome)
    modifies Objects(a)
    ensures Committed(a) == old(Committed(a))
    ensures !a.PostgresBackend? ==> r == Pass
  {
    match a
    case PostgresBackend(pg) => r := pg.Test(cs);
    case SqliteBackend(lite) => r := lite.Test(cs);
    case MockBackend(mock) => r := mock.Test(cs);
  }

  /** `get_applied`: PostgreSQL gives one changeset per row it sees; the other backends
      return None. */
  method GetApplied(a: Adapter) returns (r: Result<Option<seq<Quintessence>>>)
    ensures !a.PostgresBackend? ==> r == Ok(None)
    ensures a.PostgresBackend? && IsOpen(a) && PendingTable(a).Some? ==>
      r.Ok? && r.value.Some? && forall q :: q in r.value.value <==> q in RowValues(PendingTable(a).value)
  {
    match a
    case PostgresBackend(pg) => r := pg.GetApplied();
    case SqliteBackend(lite) => r := lite.GetApplied();
    case MockBackend(mock) => r := mock.GetApplied();
  }
}
