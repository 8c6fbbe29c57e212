/** The mock backend: no database, only a flag telling whether it is open and the list of
    the changesets it was asked to apply. */
module Mock {
  import opened Errors
  import opened Changesets

  /** The order the mock gives a changeset that has none. */
  const MockOrder := 12

  class MockAdapter {
    var applied: seq<Changeset>
    var isOpen: bool

    /** `MockAdapter(host, dbname, username, password, tern_table)`: the settings are
        ignored; the adapter starts closed with nothing applied. */
    constructor ()
      ensures applied == [] && !isOpen
    {
      applied := [];
      isOpen := false;
    }

    method Open()
      modifies this`isOpen
      ensures isOpen
    {
      isOpen := true;
    }

    method Close() returns (r: Outcome)
      modifies this`isOpen
      ensures r == Pass && !isOpen
    {
      isOpen := false;
      r := Pass;
    }

    /** `apply`: refused while closed; otherwise an unset order becomes 12, a given order is
        kept, and the changeset itself (not a copy) is appended to `applied`. */
    method Apply(cs: Changeset) returns (r: Outcome)
      modifies this`applied, cs`order
      ensures !old(isOpen) ==>
        r == Fail(ValueError("Adapter has not been opened.")) && applied == old(applied) && cs.order == old(cs.order)
      ensures old(isOpen) ==>
        r == Pass && applied == old(applied) + [cs]
        && cs.order == if old(cs.order).None? then Some(MockOrder) else old(cs.order)
    {
      if !isOpen {
        return Fail(ValueError("Adapter has not been opened."));
      }
      if cs.order.None? {
        cs.order := Some(MockOrder);
      }
      applied := applied + [cs];
      r := Pass;
    }

    /** `initialize_tern`, `verify_tern`, `revert` and `test` do nothing and raise nothing. */
    method InitializeTern() returns (r: Outcome)
      ensures r == Pass
    {
      r := Pass;
    }

    method VerifyTern() returns (r: Outcome)
      ensures r == Pass
    {
      r := Pass;
    }

    method Revert(cs: Changeset) returns (r: Outcome)
      ensures r == Pass
    {
      r := Pass;
    }

    method Test(cs: Changeset) returns (r: Outcome)
      ensures r == Pass
    {
      r := Pass;
    }

    /** `get_applied` returns None. */
    method GetApplied() returns (r: Result<Option<seq<Quintessence>>>)
      ensures r == Ok(None)
    {
      r := Ok(None);
    }
  }
}
