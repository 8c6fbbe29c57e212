# tern, modelled in Dafny

tern is a small database migration tracker. A **changeset** is one migration step. It has:

- forward SQL (`setup`) and reverse SQL (`teardown`);
- an optional position in the sequence (`order`);
- a creation time (`created_at`).

A changeset's identity is the SHA-1 of its four fields, written as 40 lowercase hexadecimal digits. The project keeps changesets in two places:

- as files in a directory, one file per changeset, named by its hash;
- as rows of a tracking table in the database, keyed by the same hash.

This model covers:

- **The changeset and its file format** (modules `Changesets`, `ChangesetFile`).
  - The setters strip both texts.
  - Equality and hashing are over the four fields.
  - The SHA-1 preimage and its hexadecimal form.
  - `save` writes a fixed layout.
  - `from_file` is a line scanner with end markers, headers and blocks.
  - The round trip: reading what `save` wrote gives the changeset back.
- **Reconciliation** (modules `Reconcile`, `Api`).
  - `diff` takes two differences under structural equality. It sorts the teardown list by order, latest first, and the apply list earliest first.
  - The filename filter that picks changeset files in the directory.
  - `Tern.apply`, which opens the adapter, has it apply the changeset, writes the file under the hash computed after the adapter has set the order, and only then closes the adapter.
  - `Tern.__init__`, which asks the adapter to verify its tracking table.
- **The adapter contract and its three backends** (modules `AdapterBase`, `PostgreSql`, `Sqlite`, `Mock`, `Adapters`).
  - The database is modelled as:
    - an opaque schema, changed by an abstract SQL engine whose run may fail;
    - an optional tracking table, a map from hash to row.
  - Each database adapter keeps the committed state (`db`) apart from what its connection sees (`pending`). A commit copies `pending` to `db`; a rollback copies `db` to `pending`.
  - The behaviour covered:
    - the duplicate-apply and missing-revert guards;
    - order assignment (largest stored order plus one, or 1 on an empty table);
    - PostgreSQL's all-or-nothing transactions and its always-rolled-back `test`;
    - SQLite's scripts, which commit as they run;
    - the mock's open flag and append-only list.
  - `Adapters` dispatches over the three backends and states what they promise in common.

The source runs under both Python 2 and Python 3. The model follows Python 3; "## Left out" says where Python 2 differs. The Python 3 behaviour modelled:

- `strip` and the `\s` of patterns use the `str.isspace` set.
- Files are read with universal newlines: `\r\n` and `\r` become `\n`.
- Sorting a list that has to compare an unset order (`None`) raises TypeError.
- Iterating `None` raises TypeError.

Where the code and its design description disagree, the model follows the code:

- **PostgreSQL column width.** The design gives `created_at` a 64-bit integer column. The PostgreSQL table declares `integer`, which is 32-bit, so the PostgreSQL adapter refuses numbers outside the 32-bit range (`FitsInt32`). SQLite's `INTEGER` takes 64 bits (`FitsInt64`).
- **SQLite atomicity.** The design calls every backend mutation atomic. SQLite's `apply` and `revert` run their SQL through `executescript`, which commits what is pending and then commits each statement as it runs. So:
  - a setup script that fails part-way leaves its first statements in place;
  - a setup that succeeds stays committed even when the row insert then fails.

  SQLite's `test` does nothing at all.
- **Sort order.** The design says the diff lists are sorted strictly. `sorted` keeps equal orders side by side, so the model proves non-strict order.
- **Header colon.** The design calls the header colon optional. The patterns require it.
- **Hash identity.** The design says that changing any one field changes the hash. The model proves this for each field: the hashed bytes differ. It also proves that the colon join is ambiguous when a text holds a colon. For example, setup `a:b` with teardown `c`, and setup `a` with teardown `b:c`, have the same preimage. So two unequal changesets that differ in two fields can share a hash, and therefore a file name and a tracking-row key.
- **Saving a duplicate.** `_save_changeset` on a hash that is already tracked *returns* a ValueError and does not raise it. `apply` ignores the returned value.

## Model

| member | source | states |
|---|---|---|
| Changesets.Changeset.constructor | tern/changeset.py:41-48 | both texts are stored stripped; the order is kept as given, None by default; the creation time is the given one, or the clock's when none is given |
| Changesets.Changeset.SetSetup | tern/changeset.py:138-140 | the stored setup is the assigned text stripped, and is therefore already stripped |
| Changesets.Changeset.SetTeardown | tern/changeset.py:146-148 | the stored teardown is the assigned text stripped, and is therefore already stripped |
| Changesets.SetterResultIsStable | tern/changeset.py:138-148 | what a setter stores is stripped, and stripping it again changes nothing |
| Changesets.EqualChangesetsHashAlike | tern/changeset.py:150-162 | equal changesets agree on all four fields and so have the same identity hash |
| Changesets.HexHash | tern/changeset.py:181-189 | the hexadecimal identity is 40 lowercase hexadecimal digits |
| Changesets.TestVectorPreimage | tern/tests/test_changeset.py:22-31 | the hashed text of (123123, 12, "abc", "cba") is "123123:12:abc:cba", the preimage of the test's digest |
| Changesets.OrderToStringInjective | tern/changeset.py:164-169 | different orders, None included, render as different texts |
| Changesets.OrderChangesIdentity | tern/changeset.py:164-189 | assigning a different order changes the hashed bytes; the hexadecimal identity changes exactly when the digest does |
| Changesets.CreatedAtChangesIdentity | tern/changeset.py:164-189 | assigning a different creation time changes the hashed bytes; the hexadecimal identity changes exactly when the digest does |
| Changesets.SetupChangesIdentity | tern/changeset.py:164-189 | assigning a different setup text changes the hashed bytes; the hexadecimal identity changes exactly when the digest does |
| Changesets.TeardownChangesIdentity | tern/changeset.py:164-189 | assigning a different teardown text changes the hashed bytes; the hexadecimal identity changes exactly when the digest does |
| Changesets.ColonInTextSharesIdentity | tern/changeset.py:164-169 | the colon join is ambiguous: (c, o, "a:b", "c") and (c, o, "a", "b:c") are unequal changesets with one preimage, hence one identity hash |
| Hashing.EncodeUtf8Injective | tern/changeset.py:166-168 | `encode('utf-8')` is injective on strings of Unicode scalar values |
| Hashing.HexInjective | tern/changeset.py:181-189 | different digests have different hexadecimal forms |
| Text.IntToStringInjective | tern/changeset.py:166-168 | `str` on integers is injective |
| ChangesetFile.OneDashIsNoMarker | tern/changeset.py:25-39 | a line opening with a single dash is no marker and no header |
| ChangesetFile.UpperCaseEndMarker | tern/changeset.py:25-27 | the end keyword is matched ignoring case |
| ChangesetFile.LongerWordIsNoEndMarker | tern/changeset.py:25-27 | nothing may follow the end keyword |
| ChangesetFile.CreatedAtLine | tern/changeset.py:28-30 | a saved creation-time line strips to a header declaring that number, and is no order header |
| ChangesetFile.OrderLine | tern/changeset.py:31-33 | a saved order line strips to an order header declaring that number |
| ChangesetFile.NonNumericOrderLine | tern/changeset.py:31-33 | an order line whose value is not decimal digits (such as `None`) is no header and no block marker |
| ChangesetFile.LaterHeaderWins | tern/changeset.py:87-94 | of two headers for the same field, the later one is kept |
| ChangesetFile.ReadBlock | tern/changeset.py:69-81 | the block's content and the line after its end marker are those of `Block`; an unclosed block runs to the end of the file |
| ChangesetFile.BlockOver | tern/changeset.py:69-81 | a block is the lines before the first line that strips to an end marker, joined; that end line is consumed |
| ChangesetFile.ScanLines | tern/changeset.py:83-101 | the reading loop finds what the reference scan `Scan` finds |
| ChangesetFile.Decode | tern/changeset.py:103-112 | a missing field raises InvalidChangesetFile; a decoded changeset has non-negative numbers, an order and stripped texts |
| ChangesetFile.FromFile | tern/changeset.py:51-112 | the method yields a valid changeset exactly when `Decode` succeeds, with the same fields, and otherwise `Decode`'s error |
| ChangesetFile.RoundTrip | tern/changeset.py:114-132 | reading what `save` wrote gives the same changeset, for non-negative numbers and texts without carriage returns or end-marker lines |
| ChangesetFile.SavedWithoutOrderIsRejected | tern/changeset.py:114-132 | a changeset saved without an order writes `Order: None`, which reading rejects as a missing order |
| Reconcile.Missing | tern/api.py:67-75 | the changesets of one list absent from the other, in its order: membership both ways |
| Reconcile.InsertionSortSorted | tern/api.py:67-75 | insertion sort by order yields a sorted list, ascending or descending |
| Reconcile.SortByOrder | tern/api.py:67-75 | `sorted` by order raises TypeError exactly when two or more changesets include an unset order; otherwise it yields a sorted permutation |
| Reconcile.Diff | tern/api.py:54-76 | the teardown list holds exactly the applied changesets not saved, the apply list exactly the saved ones not applied, each a permutation of its filtered input, sorted latest-first and earliest-first; None as the applied list raises TypeError |
| Reconcile.DiffFailsOnlyOnUnsetOrder | tern/api.py:67-75 | diff raises exactly when one of its lists has two or more changesets including one without an order; with orders everywhere it succeeds |
| Reconcile.DiffSeparates | tern/api.py:67-75 | a changeset in both inputs is in neither output, and no changeset is in both outputs |
| Reconcile.DiffExample | tern/api.py:54-76 | applied {A, C} and saved {A, B} give teardown [C] and apply [B] |
| AdapterBase.CreateTable | tern/adapters/adapterbase.py:46-59 | the tracking table is created empty; creating it twice fails |
| AdapterBase.Exists | tern/adapters/postgresql.py:48-62 | whether a row is keyed by the hash; a missing table is an error |
| AdapterBase.RowValue | tern/adapters/postgresql.py:185-191 | a row reads back as a changeset with the stored order and creation time and stripped texts |
| AdapterBase.RowRoundTrip | tern/adapters/postgresql.py:177-192 | a changeset with an order and stripped texts reads back from its row unchanged |
| AdapterBase.RecordKeepsKeyed | tern/adapters/postgresql.py:64-82 | inserting a row keeps every row keyed by its changeset's hash |
| AdapterBase.RecordAddsValue | tern/adapters/postgresql.py:64-82 | after inserting under a free hash the table records the changeset besides the ones it held |
| AdapterBase.DeleteKeepsKeyed | tern/adapters/postgresql.py:84-97 | deleting a row keeps the others keyed by their hashes |
| AdapterBase.RecordThenDelete | tern/adapters/postgresql.py:84-97 | deleting the row just inserted restores the table |
| AdapterBase.MaxOrder | tern/adapters/postgresql.py:130-137 | `max("order")` is None on an empty table, otherwise a stored order no row exceeds |
| AdapterBase.AssignedOrderFollows | tern/adapters/adapterbase.py:70-80 | a given order is kept; an unset one exceeds every stored order, is 1 on an empty table and otherwise is the largest stored order plus one |
| AdapterBase.AssignedChangesetIsNew | tern/adapters/adapterbase.py:70-80 | a changeset given a fresh order differs from every changeset recorded |
| AdapterBase.AssignedOrderExamples | tern/adapters/postgresql.py:130-142 | the first order is 1; after a changeset with order 5 the next is 6 |
| AdapterBase.LinkError | tern/adapters/postgresql.py:45-46 | using a connection never opened or already closed raises |
| AdapterBase.InsertProblem | tern/adapters/postgresql.py:71-82 | an insert fails exactly when a number is out of the column's range or the order is unset, range checked first |
| PostgreSql.OrNone | tern/adapters/postgresql.py:29-33 | an empty setting counts as unset |
| PostgreSql.PortOrNone | tern/adapters/postgresql.py:30 | port 0 counts as unset |
| PostgreSql.PostgresAdapter.constructor | tern/adapters/postgresql.py:26-34 | the settings are kept, empty ones as None; nothing is connected |
| PostgreSql.PostgresAdapter.Open | tern/adapters/postgresql.py:36-43 | the connection is open and sees what is committed |
| PostgreSql.PostgresAdapter.Close | tern/adapters/postgresql.py:45-46 | uncommitted work is discarded and the connection closed; an adapter never opened raises |
| PostgreSql.PostgresAdapter.ChangesetExists | tern/adapters/postgresql.py:48-62 | whether the connection sees a row under the changeset's hash; closed connections and a missing table raise |
| PostgreSql.PostgresAdapter.SaveChangeset | tern/adapters/postgresql.py:64-82 | on a tracked hash it returns a ValueError and inserts nothing; otherwise it inserts the row, or raises when a column refuses a value |
| PostgreSql.PostgresAdapter.DeleteChangeset | tern/adapters/postgresql.py:84-97 | on an untracked hash it raises ValueError; otherwise it deletes the row |
| PostgreSql.PostgresAdapter.InitializeTern | tern/adapters/postgresql.py:99-111 | creates and commits the empty tracking table; a second creation fails and commits nothing |
| PostgreSql.PostgresAdapter.VerifyTern | tern/adapters/postgresql.py:113-124 | raises NotInitialized exactly when the open connection sees no tracking table |
| PostgreSql.PostgresAdapter.Apply | tern/adapters/postgresql.py:126-156 | a tracked hash raises ValueError before any effect; an unset order becomes the largest plus one, or 1; setup and row are committed together or not at all |
| PostgreSql.PostgresAdapter.Revert | tern/adapters/postgresql.py:158-166 | an untracked hash raises ValueError before any effect; the teardown, skipped when empty, and the deletion are committed together or not at all |
| PostgreSql.PostgresAdapter.Test | tern/adapters/postgresql.py:168-175 | runs the setup and a non-empty teardown, reports the first SQL error, and always rolls back |
| PostgreSql.PostgresAdapter.GetApplied | tern/adapters/postgresql.py:177-192 | one changeset per row the connection sees, as the row reads back |
| PostgreSql.ReadRows | tern/adapters/postgresql.py:185-191 | the loop over the rows yields as many changesets as rows, exactly the rows' changesets |
| Sqlite.NewSqliteAdapter | tern/adapters/sqlite.py:23-31 | a database name, user name or password raises ValueError, checked in that order; otherwise an unconnected adapter |
| Sqlite.SqliteAdapter.constructor | tern/adapters/sqlite.py:30-31 | keeps the file path and table name; nothing is connected |
| Sqlite.SqliteAdapter.Open | tern/adapters/sqlite.py:33-34 | the connection is open and sees what is committed |
| Sqlite.SqliteAdapter.Close | tern/adapters/sqlite.py:36-37 | uncommitted work is discarded and the connection closed; an adapter never opened raises |
| Sqlite.SqliteAdapter.ChangesetExists | tern/adapters/sqlite.py:46-60 | whether the connection sees a row under the changeset's hash; closed connections and a missing table raise |
| Sqlite.SqliteAdapter.ExecuteScript | tern/adapters/sqlite.py:140-143 | a script commits what is pending, then leaves what its statements did committed, even when one fails |
| Sqlite.SqliteAdapter.SaveChangeset | tern/adapters/sqlite.py:62-80 | on a tracked hash it returns a ValueError and inserts nothing; otherwise it inserts the row, or raises when a number exceeds 64 bits or the order is unset |
| Sqlite.SqliteAdapter.DeleteChangeset | tern/adapters/sqlite.py:82-95 | on an untracked hash it raises ValueError; otherwise it deletes the row |
| Sqlite.SqliteAdapter.InitializeTern | tern/adapters/sqlite.py:97-109 | creates and commits the empty tracking table; a second creation fails and commits nothing |
| Sqlite.SqliteAdapter.VerifyTern | tern/adapters/sqlite.py:111-120 | raises NotInitialized exactly when the open connection sees no tracking table |
| Sqlite.SqliteAdapter.Apply | tern/adapters/sqlite.py:122-143 | a tracked hash raises ValueError before any effect; an unset order becomes the largest plus one, or 1; the setup's effects stay committed, and the row is committed only when setup and insert succeed |
| Sqlite.SqliteAdapter.Revert | tern/adapters/sqlite.py:145-152 | an untracked hash raises ValueError before any effect; the teardown always runs, even when empty, and the row is deleted only when it succeeds |
| Sqlite.SqliteAdapter.Test | tern/adapters/sqlite.py:154-155 | does nothing and raises nothing |
| Sqlite.SqliteAdapter.GetApplied | tern/adapters/sqlite.py:157-158 | returns None |
| Mock.MockAdapter.constructor | tern/adapters/mock.py:13-15 | a new mock is closed with nothing applied |
| Mock.MockAdapter.Open | tern/adapters/mock.py:17-18 | sets the open flag |
| Mock.MockAdapter.Close | tern/adapters/mock.py:20-21 | clears the open flag |
| Mock.MockAdapter.Apply | tern/adapters/mock.py:29-34 | while closed it raises ValueError and changes nothing; otherwise an unset order becomes 12, a given one is kept, and the changeset is appended |
| Mock.MockAdapter.InitializeTern | tern/adapters/mock.py:23-24 | does nothing |
| Mock.MockAdapter.VerifyTern | tern/adapters/mock.py:26-27 | does nothing |
| Mock.MockAdapter.Revert | tern/adapters/mock.py:36-37 | does nothing |
| Mock.MockAdapter.Test | tern/adapters/mock.py:39-40 | does nothing |
| Mock.MockAdapter.GetApplied | tern/adapters/mock.py:42-43 | returns None |
| Adapters.Open | tern/adapters/adapterbase.py:24-25 | entering the adapter opens it and commits nothing |
| Adapters.Close | tern/adapters/adapterbase.py:27-28 | leaving the adapter closes it, without error once opened, and commits nothing |
| Adapters.InitializeTern | tern/adapters/adapterbase.py:46-59 | on a database, success leaves an empty tracking table committed, and an existing table makes it fail |
| Adapters.VerifyTern | tern/adapters/adapterbase.py:61-68 | on a database it succeeds exactly when the open connection sees the tracking table, and raises NotInitialized when it does not |
| Adapters.Apply | tern/adapters/adapterbase.py:70-80 | after success the changeset has an order; a given order is never replaced; a database gives an unset one the largest stored order plus one, succeeds only for an untracked changeset and then tracks it |
| Adapters.Revert | tern/adapters/adapterbase.py:82-91 | on a database it succeeds only for a tracked changeset, which is then no longer tracked |
| Adapters.Test | tern/adapters/adapterbase.py:93-103 | nothing is committed, whatever happens |
| Adapters.GetApplied | tern/adapters/adapterbase.py:105-112 | PostgreSQL returns the changesets of the rows it sees; the others return None |
| Api.PatternAcceptsTrailingNewline | tern/api.py:20 | the file-name pattern also accepts 40 hexadecimal digits followed by a newline |
| Api.PatternWithoutNewline | tern/api.py:20 | on names without a newline the pattern accepts exactly the 40-digit hexadecimal names |
| Api.HexHashIsChangesetFileName | tern/api.py:36 | every hexadecimal hash passes the file-name filter |
| Api.SavedFileIsFound | tern/api.py:45-51 | the file written for a changeset that reads back is found again as that changeset |
| Api.MockAppliedChangesetIsSaveable | tern/tests/test_api.py:28-38 | the API test's changeset, given order 12 by the mock, is one whose file reads back as itself |
| Api.OrderedInputsReconcile | tern/api.py:65-75 | changesets from tracking rows and from files all carry orders, so reconciling them never raises |
| Api.Tern.GetSavedChangesets | tern/api.py:39-52 | it succeeds exactly when every accepted file reads as a changeset, and then yields each changeset they hold exactly once; otherwise it raises an error one of them gives |
| Api.Tern.Save | tern/api.py:36-37 | the file named by the changeset's hash is written with `save`'s text, its name passes the filter, and a changeset whose file reads back is then found in the directory |
| Api.Tern.Apply | tern/api.py:28-37 | the adapter is closed afterwards whatever happened; on failure no file is written; on success the changeset has an order, its file is written under its new hash and reads back as it, and a database tracks it |
| Api.Tern.Diff | tern/api.py:54-76 | with PostgreSQL and readable files: exactly the rows' changesets not saved, latest first, and the saved ones not applied, earliest first; the other adapters raise TypeError |
| Api.NewTern | tern/api.py:22-26 | construction fails with what `verify_tern` raises, NotInitialized when the tracking table is missing |

## Left out

- Real SQL and the database drivers are not modelled. The schema is opaque, and running SQL is a function from schema and text to a new schema and success. What setup and teardown SQL does to the tracking table itself is not modelled.
- psycopg2's aborted-transaction state after a failed statement is not modelled. The model rolls back at the end of the transaction, as `with conn` does.
- The `print` calls in PostgreSQL's `apply` are output only.
- SHA-1 is a function-valued parameter (`Sha1`), not an implementation of FIPS 180-4. The preimage, its UTF-8 encoding and the hexadecimal rendering are concrete.
- The file system is a map from entry name to entry, either a regular file with its contents or something else. The listing order of `os.listdir` is taken as unspecified. Write failures of `save` and read failures of `open` are not modelled. The directory path is not modelled.
- The clock is a parameter (`now`) of the changeset constructor.
- Case-insensitive matching folds only ASCII letters. Python's Unicode case folding of marker keywords (the Kelvin sign, the long s, dotted and dotless i) is not modelled.
- PostgreSQL's `open` is not modelled as failing. A failed connection attempt, and the host, port and credentials it uses, are out of scope.
- `verify_tern` on PostgreSQL queries `information_schema` by table name across all schemas. The model checks only this database's tracking table.
- `tern/__main__.py` (command line, configuration and setup wizard) and `extract_adapter` in `tern/adapters/__init__.py` are not part of this model.
- `Api.Tern.GetSavedChangesets`: the loop uses the corrected filter `IsChangesetFileName`. A regular file named with 40 hexadecimal digits followed by a newline is skipped. The source would read it and raise its error if it does not parse (see Findings).
- Python 2 behaviour is not modelled, although the source also runs under Python 2 (it imports `six` and `__future__`). Three behaviours differ:
  - Python 2's `sorted` places None before every integer and does not raise.
  - Byte strings are stripped of ASCII whitespace only.
  - `\r` is not translated when a file is read.
- `Reconcile.SortByOrder`: the TypeError it states for an unset order is Python 3 behaviour. Under Python 2 the sort succeeds with unset orders first.
- `Reconcile.DiffFailsOnlyOnUnsetOrder`: the TypeError it characterises is Python 3 behaviour; under Python 2 `diff` does not raise for an unset order.
- `Text.Strip`, `ChangesetFile.FromFile`: whitespace is the `str.isspace` set and line endings are universal newlines, as Python 3 reads text files.
- `Api.Tern.GetSavedChangesets`: the Python set is returned as a list without repetitions, in no particular order.
- `PostgreSql.PostgresAdapter.GetApplied`: the list is stated by its length and membership. The order of the rows is unspecified.
- `Api.Tern.Diff`: the lists are stated by membership, sortedness and (through `Reconcile.Diff`) permutation. The tie-break among equal orders depends on iteration order and is not stated.
- `Adapters.GetApplied`: the common contract states the result only for an open PostgreSQL connection that sees the tracking table. The other cases are in each backend's own contract.

## Findings

| source | as written | input that shows it | evidently intended | confidence | as-written member | corrected member |
|---|---|---|---|---|---|---|
| tern/api.py:20 | `^[0-9a-f]{40}$` with `re.match`: `$` also matches before a final newline, so a name of 40 hex digits plus `\n` is accepted and its file is read as a changeset | a directory entry named `0000000000000000000000000000000000000000\n` | only names of exactly 40 lowercase hex digits, the names `apply` writes | not executed; needs a file name ending in a newline | Api.MatchesChangesetPattern (shown by Api.PatternAcceptsTrailingNewline) | Api.IsChangesetFileName (used by Api.Tern.GetSavedChangesets; Api.HexHashIsChangesetFileName, Api.SavedFileIsFound) |
