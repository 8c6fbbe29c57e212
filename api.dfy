/** The Tern API: a directory of changeset files, one per changeset and named by its
    hexadecimal hash, next to an adapter for the database. `apply` runs a changeset on the
    database and writes its file; `diff` compares the changesets the database has applied
    with the ones the directory holds. */
module Api {
  import opened Errors
  import opened Text
  import opened Hashing
  import opened Changesets
  import opened ChangesetFile
  import opened AdapterBase
  import opened Adapters
  import Reconcile

  // ---- which directory entries are changeset files --------------------------------------------

  /** A name of exactly 40 lowercase hexadecimal digits: the names `apply` gives files. */
  predicate IsChangesetFileName(name: string) {
    |name| == 40 && forall i | 0 <= i < |name| :: IsLowerHexDigit(name[i])
  }

  /** What `re.match(r'^[0-9a-f]{40}$', name)` accepts: in Python `$` also matches just
      before a newline that ends the text, so a name of 40 digits and a trailing newline
      passes too. */
  predicate MatchesChangesetPattern(name: string) {
    IsChangesetFileName(name)
    || (|name| == 41 && name[40] == '\n' && IsChangesetFileName(name[..40]))
  }

  /** The pattern accepts a name that is not one `apply` writes: a changeset file name
      followed by a newline. */
  lemma PatternAcceptsTrailingNewline(name: string)
    requires IsChangesetFileName(name)
    ensures MatchesChangesetPattern(name + "\n") && !IsChangesetFileName(name + "\n")
  {
    assert (name + "\n")[..40] == name;
  }

  /** On names without a newline the pattern and the intended filter agree. */
  lemma PatternWithoutNewline(name: string)
    requires '\n' !in name
    ensures MatchesChangesetPattern(name) <==> IsChangesetFileName(name)
  {
    if |name| == 41 {
      assert name[40] in name;
    }
  }

  /** Every hexadecimal hash is a changeset file name. */
  lemma HexHashIsChangesetFileName(q: Quintessence, sha1: Sha1)
    ensures IsChangesetFileName(HexHash(q, sha1))
    ensures MatchesChangesetPattern(HexHash(q, sha1))
  {
  }

  // ---- the directory ------------------------------------------------------------------------

  /** A directory entry: a regular file with its contents, or anything else. */
  datatype Entry = RegularFile(text: string) | NotAFile

  /** The changeset directory, by entry name. */
  type Directory = map<string, Entry>

  /** The entries `_get_saved_changesets` reads: regular files with a changeset file name. */
  predicate Accepted(dir: Directory, name: string) {
    name in dir && dir[name].RegularFile? && IsChangesetFileName(name)
  }

  /** What reading the file `name` gives. */
  function Load(dir: Directory, name: string): Result<Quintessence>
    requires Accepted(dir, name)
  {
    Decode(ReadLines(dir[name].text))
  }

  /** Every accepted file reads as a changeset. */
  predicate AllLoad(dir: Directory) {
    forall name | name in dir && Accepted(dir, name) :: Load(dir, name).Ok?
  }

  /** The changesets the accepted files read as. */
  function SavedSet(dir: Directory): set<Quintessence> {
    set name | name in dir && Accepted(dir, name) && Load(dir, name).Ok? :: Load(dir, name).value
  }

  lemma LoadedIsSaved(dir: Directory, name: string)
    requires Accepted(dir, name) && Load(dir, name).Ok?
    ensures Load(dir, name).value in SavedSet(dir)
  {
  }

  /** A list holding what every accepted file reads as holds every saved changeset. */
  lemma SavedSetWithin(dir: Directory, s: seq<Quintessence>)
    requires forall name | Accepted(dir, name) :: Load(dir, name).Ok? && Load(dir, name).value in s
    ensures forall q | q in SavedSet(dir) :: q in s
  {
    forall q | q in SavedSet(dir)
      ensures q in s
    {
      var name :| name in dir && Accepted(dir, name) && Load(dir, name).Ok? && Load(dir, name).value == q;
    }
  }

  predicate Distinct(s: seq<Quintessence>) {
    forall i, j | 0 <= i < j < |s| :: s[i] != s[j]
  }

  /** The changesets saved in the directory all carry an order. */
  lemma SavedAreOrdered(dir: Directory, s: seq<Quintessence>)
    requires forall q | q in s :: q in SavedSet(dir)
    ensures Reconcile.AllOrdered(s)
  {
    forall i | 0 <= i < |s|
      ensures s[i].order.Some?
    {
      assert s[i] in SavedSet(dir);
    }
  }

  /** The changesets read back from tracking rows all carry an order. */
  lemma RowsAreOrdered(table: Table, s: seq<Quintessence>)
    requires forall q | q in s :: q in RowValues(table)
    ensures Reconcile.AllOrdered(s)
  {
    forall i | 0 <= i < |s|
      ensures s[i].order.Some?
    {
      assert s[i] in RowValues(table);
    }
  }

  /** The file `save` writes for a changeset it can read back is found again under the
      changeset's hash. */
  lemma SavedFileIsFound(dir: Directory, q: Quintessence, sha1: Sha1)
    requires Saveable(q)
    ensures q in SavedSet(dir[HexHash(q, sha1) := RegularFile(SaveText(q))])
  {
    var name := HexHash(q, sha1);
    var d := dir[name := RegularFile(SaveText(q))];
    RoundTrip(q);
    assert Accepted(d, name) && Load(d, name) == Ok(q);
  }

  /** The changeset of the API test, `Changeset(setup='foo', teardown='bar')` once the mock
      has given it order 12, is one whose file reads back as itself. */
  lemma MockAppliedChangesetIsSaveable(createdAt: int)
    requires createdAt >= 0
    ensures Saveable(Quintessence(createdAt, Some(12), "foo", "bar"))
  {
    NoMarkerWord("foo");
    NoMarkerWord("bar");
  }

  /** A short word of letters is one line that closes no block. */
  lemma NoMarkerWord(w: string)
    requires |w| == 3 && forall i | 0 <= i < 3 :: 'a' <= w[i] <= 'z'
    ensures IsStripped(w) && '\r' !in w && NoEndMarkerLine(w)
  {
    assert !IsSpace(w[0]) && !IsSpace(w[2]);
    SplitOneLine(w);
    StrippedIsFixed(w);
    StripTrailingSpace(w, "\n");
    assert DashesEnd(w, 0) == 0;
  }

  /** Reconciling the changesets of tracking rows with those of a directory never meets an
      unset order, so it never raises. */
  lemma OrderedInputsReconcile(table: Table, dir: Directory, applied: seq<Quintessence>, saved: seq<Quintessence>)
    requires forall q :: q in applied <==> q in RowValues(table)
    requires forall q :: q in saved <==> q in SavedSet(dir)
    ensures Reconcile.Diff(Some(applied), saved).Ok?
  {
    RowsAreOrdered(table, applied);
    SavedAreOrdered(dir, saved);
    Reconcile.DiffFailsOnlyOnUnsetOrder(applied, saved);
  }

  // ---- the API ------------------------------------------------------------------------------

  class Tern {
    const adapter: Adapter
    const sha1: Sha1
    /** The contents of the changeset directory. */
    var files: Directory

    constructor (adapter: Adapter, sha1: Sha1, files: Directory)
      ensures this.adapter == adapter && this.sha1 == sha1 && this.files == files
    {
      this.adapter := adapter;
      this.sha1 := sha1;
      this.files := files;
    }

    /** `apply`: inside `with adapter`, the adapter applies the changeset, possibly giving it
        an order, and then the changeset is saved under its hash as computed after that; the
        adapter is closed afterwards whether or not its `apply` raised. When it raised, no
        file is written. */
    method Apply(cs: Changeset) returns (r: Outcome)
      requires cs.Valid()
      modifies this`files, Objects(adapter), cs`order
      ensures cs.Valid() && !IsOpen(adapter)
      ensures old(cs.order).Some? ==> cs.order == old(cs.order)
      ensures r.Fail? ==> files == old(files)
      ensures r.Pass? ==>
        cs.order.Some?
        && files == old(files)[HexHash(cs.Value(), sha1) := RegularFile(SaveText(cs.Value()))]
        && IsChangesetFileName(HexHash(cs.Value(), sha1))
      ensures r.Pass? && Saveable(cs.Value()) ==>
        Load(files, HexHash(cs.Value(), sha1)) == Ok(cs.Value()) && cs.Value() in SavedSet(files)
      ensures r.Pass? && !adapter.MockBackend? ==> Tracks(adapter, cs.Value())
    {
      Open(adapter);
      r := Adapters.Apply(adapter, cs);
      if r.Pass? {
        Save(cs.Value());
      }
      var closed := Close(adapter);
      assert closed.Pass?;
    }

    /** The two lines of `apply` inside the `with` after the adapter's `apply`: the file named
        by the changeset's hash is written with what `save` writes, and a changeset that
        reads back is then found in the directory. */
    method Save(q: Quintessence)
      modifies this`files
      ensures files == old(files)[HexHash(q, sha1) := RegularFile(SaveText(q))]
      ensures IsChangesetFileName(HexHash(q, sha1))
      ensures Saveable(q) ==> Load(files, HexHash(q, sha1)) == Ok(q) && q in SavedSet(files)
    {
      files := files[HexHash(q, sha1) := RegularFile(SaveText(q))];
      if Saveable(q) {
        RoundTrip(q);
        SavedFileIsFound(old(files), q, sha1);
      }
    }

    /** `_get_saved_changesets`: reads every accepted file, in whatever order the directory
        lists them, into a set of changesets; a file that does not read as a changeset
        raises its error. */
    method GetSavedChangesets() returns (r: Result<seq<Quintessence>>)
      ensures r.Ok? <==> AllLoad(files)
      ensures r.Ok? ==> Distinct(r.value) && forall q :: q in r.value <==> q in SavedSet(files)
      ensures r.Err? ==> exists name :: Accepted(files, name) && Load(files, name) == Err(r.error)
    {
      var saved: seq<Quintessence> := [];
      var rest := files;
      while rest != map[]
        invariant rest.Keys <= files.Keys
        invariant Distinct(saved)
        invariant forall q | q in saved :: q in SavedSet(files)
        invariant forall name | Accepted(files, name) && name !in rest ::
          Load(files, name).Ok? && Load(files, name).value in saved
        decreases |rest|
      {
        var name :| name in rest;
        var entry := files[name];
        rest := rest - {name};
        if entry.RegularFile? && IsChangesetFileName(name) {
          assert Accepted(files, name);
          var loaded := FromFile(entry.text);
          if loaded.Err? {
            return Err(loaded.error);
          }
          var q := loaded.value.Value();
          LoadedIsSaved(files, name);
          if q !in saved {
            saved := saved + [q];
          }
        }
      }
      SavedSetWithin(files, saved);
      r := Ok(saved);
    }

    /** `diff`: the changesets to tear down and to apply. The adapter's `get_applied` is
        asked first and the directory read second; only PostgreSQL's `get_applied` returns a
        list, and iterating the None the others return raises TypeError. With PostgreSQL
        and a readable directory the result is always a pair, since every changeset on
        either side carries an order. */
    method Diff() returns (r: Result<(seq<Quintessence>, seq<Quintessence>)>)
      ensures !adapter.PostgresBackend? && AllLoad(files) ==> r == Err(TypeError)
      ensures !adapter.PostgresBackend? && !AllLoad(files) ==> r.Err? && r.error.InvalidChangesetFile?
      ensures adapter.PostgresBackend? && IsOpen(adapter) && PendingTable(adapter).Some? ==>
        var table := PendingTable(adapter).value;
        (r.Ok? <==> AllLoad(files))
        && (r.Ok? ==>
              (forall q :: q in r.value.0 <==> q in RowValues(table) && q !in SavedSet(files))
              && (forall q :: q in r.value.1 <==> q in SavedSet(files) && q !in RowValues(table))
              && Reconcile.Sorted(r.value.0, true) && Reconcile.Sorted(r.value.1, false))
    {
      var applied := GetApplied(adapter);
      if applied.Err? {
        return Err(applied.error);
      }
      var saved := GetSavedChangesets();
      if saved.Err? {
        assert exists name :: Accepted(files, name) && Load(files, name) == Err(saved.error);
        return Err(saved.error);
      }
      if adapter.PostgresBackend? && IsOpen(adapter) && PendingTable(adapter).Some? {
        OrderedInputsReconcile(PendingTable(adapter).value, files, applied.value.value, saved.value);
      }
      r := Reconcile.Diff(applied.value, saved.value);
    }
  }

  /** `Tern(adapter, directory)`: construction asks the adapter to verify its tracking table
      and fails with what that raises, NotInitialized when the table is missing. */
  method NewTern(adapter: Adapter, sha1: Sha1, files: Directory) returns (r: Result<Tern>)
    ensures adapter.MockBackend? ==> r.Ok?
    ensures !adapter.MockBackend? ==> (r.Ok? <==> IsOpen(adapter) && PendingTable(adapter).Some?)
    ensures !adapter.MockBackend? && IsOpen(adapter) && PendingTable(adapter).None? ==> r == Err(NotInitialized)
    ensures r.Ok? ==> fresh(r.value) && r.value.adapter == adapter && r.value.sha1 == sha1 && r.value.files == files
  {
    var verified := VerifyTern(adapter);
    if verified.Fail? {
      return Err(verified.error);
    }
    var tern := new Tern(adapter, sha1, files);
    r := Ok(tern);
  }
}
