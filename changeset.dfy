/** A changeset: one migration step, with its forward (`setup`) and reverse (`teardown`) SQL,
    its position in the sequence of steps (`order`) and its creation time (`createdAt`). */
module Changesets {
  import opened Errors
  import opened Text
  import opened Hashing

  /** The four fields that decide whether two changesets are equal and what their identity
      hash is, in the order the source lists them. */
  datatype Quintessence = Quintessence(createdAt: int, order: Option<int>, setup: string, teardown: string)

  /** Python's `str(order)`, where an unset order is `None`. */
  function OrderToString(order: Option<int>): string {
    match order
    case None => "None"
    case Some(n) => IntToString(n)
  }

  /** The text the identity hash is computed over: the four fields rendered with `str` and
      joined by colons. */
  function Preimage(q: Quintessence): string {
    IntToString(q.createdAt) + ":" + OrderToString(q.order) + ":" + q.setup + ":" + q.teardown
  }

  /** The raw SHA-1 digest of the UTF-8 encoded preimage (the source's `hash`). */
  function Hash(q: Quintessence, sha1: Sha1): Digest {
    sha1(EncodeUtf8(Preimage(q)))
  }

  /** The digest as 40 lowercase hexadecimal digits (the source's `hex_hash`): the key of the
      changeset's tracking row and the name of its file. */
  function HexHash(q: Quintessence, sha1: Sha1): (r: string)
    ensures |r| == 40
    ensures forall i | 0 <= i < |r| :: IsLowerHexDigit(r[i])
  {
    Hex(Hash(q, sha1))
  }

  class Changeset {
    var createdAt: int
    var order: Option<int>
    var setup: string
    var teardown: string

    /** Every assignment to the two texts goes through a setter that strips them. */
    ghost predicate Valid()
      reads this
    {
      IsStripped(setup) && IsStripped(teardown)
    }

    /** `Changeset(setup, teardown, order=None, created_at=None)`; `now` is the integer Unix
        time the source reads from the clock when no creation time is given. */
    constructor (setup: string, teardown: string, order: Option<int>, createdAt: Option<int>, now: int)
      ensures Valid()
      ensures this.setup == Strip(setup) && this.teardown == Strip(teardown)
      ensures this.order == order
      ensures this.createdAt == (if createdAt.Some? then createdAt.value else now)
    {
      StripIsSurroundedSlice(setup);
      StripIsSurroundedSlice(teardown);
      this.setup := Strip(setup);
      this.teardown := Strip(teardown);
      this.order := order;
      this.createdAt := if createdAt.Some? then createdAt.value else now;
    }

    /** The `setup` property's setter. */
    method SetSetup(value: string)
      modifies this`setup
      ensures setup == Strip(value) && IsStripped(setup)
    {
      StripIsSurroundedSlice(value);
      setup := Strip(value);
    }

    /** The `teardown` property's setter. */
    method SetTeardown(value: string)
      modifies this`teardown
      ensures teardown == Strip(value) && IsStripped(teardown)
    {
      StripIsSurroundedSlice(value);
      teardown := Strip(value);
    }

    /** `_quintessence()`. */
    function Value(): Quintessence
      reads this
    {
      Quintessence(createdAt, order, setup, teardown)
    }

    /** `__eq__`: structural, not object identity. */
    predicate Equals(other: Changeset)
      reads this, other
    {
      Value() == other.Value()
    }
  }

  /** Assigning a text stores it stripped, so reading it back and stripping again changes nothing. */
  lemma SetterResultIsStable(value: string)
    ensures IsStripped(Strip(value)) && Strip(Strip(value)) == Strip(value)
  {
    StripIsSurroundedSlice(value);
    StripIdempotent(value);
  }

  /** Equal changesets agree on every function of their four fields, so they hash alike,
      both under the interpreter's `hash()` and under the SHA-1 identity. */
  lemma EqualChangesetsHashAlike(a: Changeset, b: Changeset, sha1: Sha1)
    requires a.Equals(b)
    ensures a.createdAt == b.createdAt && a.order == b.order
    ensures a.setup == b.setup && a.teardown == b.teardown
    ensures HexHash(a.Value(), sha1) == HexHash(b.Value(), sha1)
  {
  }

  /** The test vector of the changeset tests: created at 123123, order 12, "abc", "cba". */
  lemma TestVectorPreimage()
    ensures Preimage(Quintessence(123123, Some(12), "abc", "cba")) == "123123:12:abc:cba"
  {
    assert NatToString(12) == "12";
    assert NatToString(123123) == "123123";
  }

  lemma OrderToStringIsAscii(order: Option<int>)
    ensures IsAscii(OrderToString(order))
  {
    if order.Some? {
      var n := order.value;
      var digits := NatToString(if n < 0 then -n else n);
      assert forall i | 0 <= i < |digits| :: IsDigit(digits[i]);
    }
  }

  lemma OrderToStringInjective(a: Option<int>, b: Option<int>)
    requires OrderToString(a) == OrderToString(b)
    ensures a == b
  {
    assert "None"[0] == 'N';
    if a.Some? {
      var n := a.value;
      assert IsDigit(NatToString(if n < 0 then -n else n)[0]);
      assert OrderToString(a)[0] != 'N';
    }
    if b.Some? {
      var n := b.value;
      assert IsDigit(NatToString(if n < 0 then -n else n)[0]);
      assert OrderToString(b)[0] != 'N';
    }
    if a.Some? && b.Some? {
      IntToStringInjective(a.value, b.value);
    }
  }

  /** Assigning a different order changes the hashed message, so the identity hash changes
      unless SHA-1 maps the two messages to one digest; and the hexadecimal form changes
      exactly when the digest does. */
  lemma OrderChangesIdentity(q: Quintessence, order: Option<int>, sha1: Sha1)
    requires order != q.order
    ensures EncodeUtf8(Preimage(q.(order := order))) != EncodeUtf8(Preimage(q))
    ensures HexHash(q.(order := order), sha1) != HexHash(q, sha1)
            <==> Hash(q.(order := order), sha1) != Hash(q, sha1)
  {
    var q' := q.(order := order);
    var head := IntToString(q.createdAt) + ":";
    var tail := ":" + q.setup + ":" + q.teardown;
    var x, y := OrderToString(order), OrderToString(q.order);
    assert Preimage(q') == head + x + tail;
    assert Preimage(q) == head + y + tail;
    EncodeUtf8Append(head + x, tail);
    EncodeUtf8Append(head, x);
    EncodeUtf8Append(head + y, tail);
    EncodeUtf8Append(head, y);
    if EncodeUtf8(Preimage(q')) == EncodeUtf8(Preimage(q)) {
      var h, t := EncodeUtf8(head), EncodeUtf8(tail);
      var ex, ey := EncodeUtf8(x), EncodeUtf8(y);
      assert h + ex + t == h + ey + t;
      assert |ex| == |ey|;
      assert ex == (h + ex + t)[|h|..|h| + |ex|];
      assert ey == (h + ey + t)[|h|..|h| + |ey|];
      OrderToStringIsAscii(order);
      OrderToStringIsAscii(q.order);
      EncodeAsciiInjective(x, y);
      OrderToStringInjective(order, q.order);
    }
    HexFollowsDigest(q', q, sha1);
  }

  /** The hexadecimal identities of two changesets differ exactly when their digests do. */
  lemma HexFollowsDigest(p: Quintessence, q: Quintessence, sha1: Sha1)
    ensures HexHash(p, sha1) != HexHash(q, sha1) <==> Hash(p, sha1) != Hash(q, sha1)
  {
    if HexHash(p, sha1) == HexHash(q, sha1) {
      HexInjective(Hash(p, sha1), Hash(q, sha1));
    }
  }

  /** Assigning a different creation time changes the hashed message. */
  lemma CreatedAtChangesIdentity(q: Quintessence, createdAt: int, sha1: Sha1)
    requires createdAt != q.createdAt
    ensures EncodeUtf8(Preimage(q.(createdAt := createdAt))) != EncodeUtf8(Preimage(q))
    ensures HexHash(q.(createdAt := createdAt), sha1) != HexHash(q, sha1)
            <==> Hash(q.(createdAt := createdAt), sha1) != Hash(q, sha1)
  {
    var q' := q.(createdAt := createdAt);
    var tail := ":" + OrderToString(q.order) + ":" + q.setup + ":" + q.teardown;
    var x, y := IntToString(createdAt), IntToString(q.createdAt);
    assert Preimage(q') == x + tail;
    assert Preimage(q) == y + tail;
    if x == y {
      IntToStringInjective(createdAt, q.createdAt);
    }
    if |x| == |y| {
      assert (x + tail)[..|x|] == x && (y + tail)[..|x|] == y;
    }
    EncodeUtf8Distinguishes(Preimage(q'), Preimage(q));
    HexFollowsDigest(q', q, sha1);
  }

  /** Assigning a different setup text changes the hashed message. */
  lemma SetupChangesIdentity(q: Quintessence, setup: string, sha1: Sha1)
    requires setup != q.setup
    ensures EncodeUtf8(Preimage(q.(setup := setup))) != EncodeUtf8(Preimage(q))
    ensures HexHash(q.(setup := setup), sha1) != HexHash(q, sha1)
            <==> Hash(q.(setup := setup), sha1) != Hash(q, sha1)
  {
    var q' := q.(setup := setup);
    var head := IntToString(q.createdAt) + ":" + OrderToString(q.order) + ":";
    var tail := ":" + q.teardown;
    assert Preimage(q') == head + setup + tail;
    assert Preimage(q) == head + q.setup + tail;
    if |setup| == |q.setup| {
      var i, j := |head|, |head| + |setup|;
      assert (head + setup + tail)[i..j] == setup && (head + q.setup + tail)[i..j] == q.setup;
    }
    EncodeUtf8Distinguishes(Preimage(q'), Preimage(q));
    HexFollowsDigest(q', q, sha1);
  }

  /** Assigning a different teardown text changes the hashed message. */
  lemma TeardownChangesIdentity(q: Quintessence, teardown: string, sha1: Sha1)
    requires teardown != q.teardown
    ensures EncodeUtf8(Preimage(q.(teardown := teardown))) != EncodeUtf8(Preimage(q))
    ensures HexHash(q.(teardown := teardown), sha1) != HexHash(q, sha1)
            <==> Hash(q.(teardown := teardown), sha1) != Hash(q, sha1)
  {
    var q' := q.(teardown := teardown);
    var head := IntToString(q.createdAt) + ":" + OrderToString(q.order) + ":" + q.setup + ":";
    assert Preimage(q') == head + teardown;
    assert Preimage(q) == head + q.teardown;
    assert (head + teardown)[|head|..] == teardown && (head + q.teardown)[|head|..] == q.teardown;
    EncodeUtf8Distinguishes(Preimage(q'), Preimage(q));
    HexFollowsDigest(q', q, sha1);
  }

  /** Joining the fields with colons is ambiguous once a text holds a colon: two changesets
      that differ in both texts can have the same preimage, and so the same identity hash,
      file name and tracking-row key, whatever SHA-1 is. */
  lemma ColonInTextSharesIdentity(createdAt: int, order: Option<int>, sha1: Sha1)
    ensures Quintessence(createdAt, order, "a:b", "c") != Quintessence(createdAt, order, "a", "b:c")
    ensures Preimage(Quintessence(createdAt, order, "a:b", "c"))
         == Preimage(Quintessence(createdAt, order, "a", "b:c"))
    ensures HexHash(Quintessence(createdAt, order, "a:b", "c"), sha1)
         == HexHash(Quintessence(createdAt, order, "a", "b:c"), sha1)
  {
    var head := IntToString(createdAt) + ":" + OrderToString(order) + ":";
    assert "a:b" != "a";
    assert head + "a:b" + ":" + "c" == head + "a:b:c" == head + "a" + ":" + "b:c";
  }
}
