/** What every storage backend works on and promises (`AdapterBase`): a database holding a
    tracking table of applied changesets next to whatever the changesets' own SQL builds, a
    connection to it, and the rules for assigning an order to a changeset that has none. */
module AdapterBase {
  import opened Errors
  import opened Text
  import opened Hashing
  import opened Changesets

  // ---- the database -------------------------------------------------------------------------

  /** Everything in the database apart from the tracking table: the tables, rows and other
      objects that changesets create and change. Its structure is not modelled. */
  type Schema(==)

  /** The outcome of running SQL text: the schema afterwards and whether every statement
      succeeded. When a statement fails, `schema` holds what the statements before it did. */
  datatype Execution = Execution(schema: Schema, succeeded: bool)

  /** The database engine running SQL text on a schema. */
  type Engine = (Schema, string) -> Execution

  /** A row of the tracking table, apart from its key, the `hash` column. */
  datatype Row = Row(createdAt: int, setup: string, teardown: string, order: int)

  /** The tracking table: rows keyed by the hexadecimal hash of the changeset they record. */
  type Table = map<string, Row>

  /** The database; `table` is None until the tracking table has been created. */
  datatype DbState = DbState(schema: Schema, table: Option<Table>)

  /** `initialize_tern`: creating the tracking table, empty; creating it a second time is
      an error of the database. */
  function CreateTable(state: DbState): (r: Result<DbState>)
    ensures r.Ok? <==> state.table.None?
    ensures r.Ok? ==> r.value == state.(table := Some(map[]))
    ensures r.Err? ==> r.error == TrackingTableError(AlreadyExists)
  {
    if state.table.Some? then Err(TrackingTableError(AlreadyExists))
    else Ok(state.(table := Some(map[])))
  }

  /** `_changeset_exists`: whether a row is keyed by `key`; counting the rows of a table that
      does not exist is an error of the database. */
  function Exists(state: DbState, key: string): (r: Result<bool>)
    ensures r.Err? <==> state.table.None?
    ensures r.Err? ==> r.error == TrackingTableError(Missing)
    ensures r.Ok? ==> (r.value <==> key in state.table.value)
  {
    if state.table.None? then Err(TrackingTableError(Missing)) else Ok(key in state.table.value)
  }

  // ---- rows and changesets ------------------------------------------------------------------

  /** The row `_save_changeset` inserts for a changeset whose order is set. */
  function RowOf(q: Quintessence): Row
    requires q.order.Some?
  {
    Row(q.createdAt, q.setup, q.teardown, q.order.value)
  }

  /** The changeset `get_applied` rebuilds from a row: through the constructor, so with
      both texts stripped by the setters. */
  function RowValue(row: Row): (q: Quintessence)
    ensures q.order == Some(row.order) && q.createdAt == row.createdAt
    ensures IsStripped(q.setup) && IsStripped(q.teardown)
  {
    StripIsSurroundedSlice(row.setup);
    StripIsSurroundedSlice(row.teardown);
    Quintessence(row.createdAt, Some(row.order), Strip(row.setup), Strip(row.teardown))
  }

  /** A changeset with an order and stripped texts, as the setters leave them, is what its
      row reads back as. */
  lemma RowRoundTrip(q: Quintessence)
    requires q.order.Some? && IsStripped(q.setup) && IsStripped(q.teardown)
    ensures RowValue(RowOf(q)) == q
  {
    StrippedIsFixed(q.setup);
    StrippedIsFixed(q.teardown);
  }

  /** Every row is keyed by the hexadecimal hash of the changeset it records. */
  predicate Keyed(table: Table, sha1: Sha1) {
    forall key | key in table :: key == HexHash(RowValue(table[key]), sha1)
  }

  /** The changesets the rows of the table record. */
  function RowValues(table: Table): set<Quintessence> {
    set key | key in table :: RowValue(table[key])
  }

  /** Recording a changeset: its row, under its hexadecimal hash. */
  function Record(table: Table, q: Quintessence, sha1: Sha1): Table
    requires q.order.Some?
  {
    table[HexHash(q, sha1) := RowOf(q)]
  }

  /** Recording a changeset keeps every row keyed by its hash. */
  lemma RecordKeepsKeyed(table: Table, q: Quintessence, sha1: Sha1)
    requires Keyed(table, sha1)
    requires q.order.Some? && IsStripped(q.setup) && IsStripped(q.teardown)
    ensures Keyed(Record(table, q, sha1), sha1)
  {
    RowRoundTrip(q);
    var h := HexHash(q, sha1);
    var t := Record(table, q, sha1);
    forall key | key in t
      ensures key == HexHash(RowValue(t[key]), sha1)
    {
      if key != h {
        assert t[key] == table[key];
      }
    }
  }

  lemma AddRow(table: Table, key: string, row: Row)
    requires key !in table
    ensures RowValues(table[key := row]) == RowValues(table) + {RowValue(row)}
  {
    var t := table[key := row];
    forall p | p in RowValues(table)
      ensures p in RowValues(t)
    {
      var k :| k in table && RowValue(table[k]) == p;
      assert t[k] == table[k];
    }
    assert RowValue(t[key]) in RowValues(t);
    forall p | p in RowValues(t)
      ensures p in RowValues(table) + {RowValue(row)}
    {
      var k :| k in t && RowValue(t[k]) == p;
      if k != key {
        assert t[k] == table[k];
      }
    }
  }

  /** After recording a changeset under a free key, the table records it besides the
      changesets it recorded before. */
  lemma RecordAddsValue(table: Table, q: Quintessence, sha1: Sha1)
    requires q.order.Some? && IsStripped(q.setup) && IsStripped(q.teardown)
    requires HexHash(q, sha1) !in table
    ensures RowValues(Record(table, q, sha1)) == RowValues(table) + {q}
  {
    RowRoundTrip(q);
    AddRow(table, HexHash(q, sha1), RowOf(q));
  }

  /** Deleting a row keeps every other row keyed by its hash. Deleting the row a recording
      just added gives back the table as it was before. */
  lemma DeleteKeepsKeyed(table: Table, key: string, sha1: Sha1)
    requires Keyed(table, sha1)
    ensures Keyed(table - {key}, sha1)
  {
  }

  lemma RecordThenDelete(table: Table, q: Quintessence, sha1: Sha1)
    requires q.order.Some? && HexHash(q, sha1) !in table
    ensures Record(table, q, sha1) - {HexHash(q, sha1)} == table
  {
  }

  // ---- assigning an order -------------------------------------------------------------------

  /** The orders stored in the table. */
  function Orders(table: Table): set<int> {
    set key | key in table :: table[key].order
  }

  /** A table with rows has a row whose order no other row exceeds. */
  lemma {:induction false} HasLargestOrder(table: Table)
    requires table != map[]
    ensures exists m :: m in Orders(table) && forall key | key in table :: table[key].order <= m
    decreases |table|
  {
    var key :| key in table;
    var rest := table - {key};
    var top := table[key].order;
    if rest != map[] {
      HasLargestOrder(rest);
      var m :| m in Orders(rest) && forall k | k in rest :: rest[k].order <= m;
      var k0 :| k0 in rest && rest[k0].order == m;
      if m > top {
        top := m;
        assert table[k0].order == m;
      }
    }
    forall k | k in table
      ensures table[k].order <= top
    {
      if k != key {
        assert k in rest;
      }
    }
    assert top in Orders(table);
  }

  /** `select max("order")`: None on an empty table. */
  function MaxOrder(table: Table): (r: Option<int>)
    ensures r.None? <==> table == map[]
    ensures r.Some? ==> r.value in Orders(table) && forall key | key in table :: table[key].order <= r.value
  {
    if table == map[] then None
    else
      HasLargestOrder(table);
      var m :| m in Orders(table) && forall key | key in table :: table[key].order <= m;
      Some(m)
  }

  /** The order `apply` gives a changeset: its own when set, otherwise one more than the
      largest stored order, or 1 when nothing is stored yet. */
  function AssignedOrder(order: Option<int>, table: Table): int {
    if order.Some? then order.value
    else
      var m := MaxOrder(table);
      if m.None? then 1 else m.value + 1
  }

  /** An assigned order follows every stored order, and the empty table gives 1; a given
      order is kept. */
  lemma AssignedOrderFollows(order: Option<int>, table: Table)
    ensures order.Some? ==> AssignedOrder(order, table) == order.value
    ensures order.None? ==> forall key | key in table :: table[key].order < AssignedOrder(order, table)
    ensures order.None? && table == map[] ==> AssignedOrder(order, table) == 1
    ensures order.None? && table != map[] ==> AssignedOrder(order, table) - 1 in Orders(table)
  {
  }

  /** Hence the changeset an unordered apply records differs from every changeset already
      recorded. */
  lemma AssignedChangesetIsNew(q: Quintessence, table: Table)
    requires q.order.None?
    ensures q.(order := Some(AssignedOrder(q.order, table))) !in RowValues(table)
  {
    AssignedOrderFollows(q.order, table);
  }

  /** On an empty table the first order is 1; after a changeset with order 5 the next is 6. */
  lemma AssignedOrderExamples(row: Row)
    requires row.order == 5
    ensures AssignedOrder(None, map[]) == 1
    ensures AssignedOrder(None, map["a" := row]) == 6
  {
    var t := map["a" := row];
    AssignedOrderFollows(None, t);
    assert "a" in t;
    var m := MaxOrder(t).value;
    var k :| k in t && t[k].order == m;
    assert k == "a";
  }

  // ---- the connection -----------------------------------------------------------------------

  /** The adapter's `conn` attribute: not yet created, open, or closed. */
  datatype Link = Unopened | Connected | Closed

  /** What using the connection raises when it is not open. */
  function LinkError(link: Link): (e: Error)
    requires !link.Connected?
    ensures e == NotOpened || e == ConnectionClosed
  {
    if link.Unopened? then NotOpened else ConnectionClosed
  }

  /** What inserting the row of `q` raises, given which integers its integer columns hold:
      a number out of range is refused before the missing order is. */
  function InsertProblem(q: Quintessence, fits: int -> bool): (p: Option<TableProblem>)
    ensures p.None? <==> q.order.Some? && fits(q.createdAt) && fits(q.order.value)
    ensures p.Some? ==> p.value == OutOfRange || p.value == NullValue
  {
    if !fits(q.createdAt) || (q.order.Some? && !fits(q.order.value)) then Some(OutOfRange)
    else if q.order.None? then Some(NullValue)
    else None
  }

  /** Fits a signed 32-bit `integer` column. */
  predicate FitsInt32(x: int) {
    -0x8000_0000 <= x < 0x8000_0000
  }

  /** Fits SQLite's signed 64-bit `INTEGER`. */
  predicate FitsInt64(x: int) {
    -0x8000_0000_0000_0000 <= x < 0x8000_0000_0000_0000
  }
}
