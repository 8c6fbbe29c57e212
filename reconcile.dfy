/** Reconciliation: which changesets must be torn down and which applied to bring the
    database in line with the changeset files, each list in the order it must run in.
    Membership is structural equality of the four fields, as for Python sets and lists of
    changesets. */
module Reconcile {
  import opened Errors
  import opened Changesets

  /** The changesets of `xs` that are not in `ys`, in the order of `xs`: the generator
      `(x for x in xs if x not in ys)`. */
  function Missing(xs: seq<Quintessence>, ys: seq<Quintessence>): (r: seq<Quintessence>)
    ensures forall q :: q in r <==> q in xs && q !in ys
    ensures |r| <= |xs|
  {
    if xs == [] then []
    else if xs[0] in ys then Missing(xs[1..], ys)
    else [xs[0]] + Missing(xs[1..], ys)
  }

  // ---- sorting by order -------------------------------------------------------------------

  predicate AllOrdered(s: seq<Quintessence>) {
    forall i | 0 <= i < |s| :: s[i].order.Some?
  }

  /** The sort key. Sorting never compares an unset order (it raises TypeError first, see
      `SortByOrder`), so the value given to one here is never looked at. */
  function Key(q: Quintessence): int {
    if q.order.Some? then q.order.value else 0
  }

  /** `a` may come before `b` in a list sorted by order, ascending or, with `descending`,
      descending. */
  predicate InOrder(a: Quintessence, b: Quintessence, descending: bool) {
    if descending then Key(a) >= Key(b) else Key(a) <= Key(b)
  }

  predicate Sorted(s: seq<Quintessence>, descending: bool) {
    forall i, j | 0 <= i < j < |s| :: InOrder(s[i], s[j], descending)
  }

  /** Puts `x` before the first element that does not strictly precede it, so that `x` stays
      ahead of the elements with its own order: the sort is stable, as Python's is, also
      with `reverse=True`. */
  function Insert(x: Quintessence, s: seq<Quintessence>, descending: bool): (r: seq<Quintessence>)
    ensures multiset(r) == multiset(s) + multiset{x}
  {
    if s == [] || InOrder(x, s[0], descending) then [x] + s
    else
      assert s == [s[0]] + s[1..];
      [s[0]] + Insert(x, s[1..], descending)
  }

  /** `a` may come before every element of `s`. */
  predicate Precedes(a: Quintessence, s: seq<Quintessence>, descending: bool) {
    forall k | 0 <= k < |s| :: InOrder(a, s[k], descending)
  }

  /** A sorted list is its head followed by a sorted tail that the head may precede. */
  lemma SortedCons(a: Quintessence, s: seq<Quintessence>, descending: bool)
    requires Sorted(s, descending) && Precedes(a, s, descending)
    ensures Sorted([a] + s, descending)
  {
    var r := [a] + s;
    forall i, j | 0 <= i < j < |r|
      ensures InOrder(r[i], r[j], descending)
    {
      if i == 0 {
        assert r[j] == s[j - 1];
      } else {
        assert r[i] == s[i - 1] && r[j] == s[j - 1];
      }
    }
  }

  lemma {:induction false} InsertSorted(x: Quintessence, s: seq<Quintessence>, descending: bool)
    requires Sorted(s, descending)
    ensures Sorted(Insert(x, s, descending), descending)
  {
    if s == [] || InOrder(x, s[0], descending) {
      assert Precedes(x, s, descending) by {
        forall k | 0 <= k < |s|
          ensures InOrder(x, s[k], descending)
        {
          if k > 0 {
            assert InOrder(s[0], s[k], descending);
          }
        }
      }
      SortedCons(x, s, descending);
    } else {
      var tail := Insert(x, s[1..], descending);
      assert Sorted(s[1..], descending) by {
        forall i, j | 0 <= i < j < |s[1..]|
          ensures InOrder(s[1..][i], s[1..][j], descending)
        {
          assert s[1..][i] == s[i + 1] && s[1..][j] == s[j + 1];
        }
      }
      InsertSorted(x, s[1..], descending);
      assert Precedes(s[0], tail, descending) by {
        forall k | 0 <= k < |tail|
          ensures InOrder(s[0], tail[k], descending)
        {
          assert tail[k] in multiset(tail);
          if tail[k] != x {
            assert tail[k] in multiset(s[1..]);
            var m :| 0 <= m < |s[1..]| && s[1..][m] == tail[k];
            assert s[m + 1] == tail[k];
          }
        }
      }
      SortedCons(s[0], tail, descending);
    }
  }

  function InsertionSort(s: seq<Quintessence>, descending: bool): (r: seq<Quintessence>)
    ensures multiset(r) == multiset(s)
  {
    if s == [] then []
    else
      assert s == [s[0]] + s[1..];
      Insert(s[0], InsertionSort(s[1..], descending), descending)
  }

  lemma {:induction false} InsertionSortSorted(s: seq<Quintessence>, descending: bool)
    ensures Sorted(InsertionSort(s, descending), descending)
  {
    if s != [] {
      InsertionSortSorted(s[1..], descending);
      InsertSorted(s[0], InsertionSort(s[1..], descending), descending);
    }
  }

  /** A list holding the same changesets as a list of changesets with orders has orders too. */
  lemma OrderedPermutation(t: seq<Quintessence>, s: seq<Quintessence>)
    requires AllOrdered(s) && multiset(t) == multiset(s)
    ensures AllOrdered(t)
  {
    forall k | 0 <= k < |t|
      ensures t[k].order.Some?
    {
      assert t[k] in multiset(s);
    }
  }

  /** `sorted(xs, key=lambda x: x.order, reverse=descending)`. Comparing an unset order
      (`None`) with anything raises TypeError, and a list of two or more elements has each of
      them compared at least once; a list of fewer is returned without a comparison. */
  function SortByOrder(s: seq<Quintessence>, descending: bool): (r: Result<seq<Quintessence>>)
    ensures r.Err? <==> |s| >= 2 && !AllOrdered(s)
    ensures r.Err? ==> r.error == TypeError
    ensures r.Ok? ==> multiset(r.value) == multiset(s)
    ensures r.Ok? ==> Sorted(r.value, descending)
    ensures r.Ok? && AllOrdered(s) ==> AllOrdered(r.value)
  {
    if |s| >= 2 && !AllOrdered(s) then Err(TypeError)
    else
      InsertionSortSorted(s, descending);
      if AllOrdered(s) then
        OrderedPermutation(InsertionSort(s, descending), s);
        Ok(InsertionSort(s, descending))
      else
        Ok(InsertionSort(s, descending))
  }

  // ---- diff ---------------------------------------------------------------------------------

  /** `Tern.diff` once the applied and the saved changesets are known: the applied ones
      that no file holds, latest order first, and the saved ones the database lacks, earliest
      order first. `applied` is None when the adapter's `get_applied` returns None, and the
      generator over it then raises TypeError. */
  function Diff(applied: Option<seq<Quintessence>>, saved: seq<Quintessence>): (r: Result<(seq<Quintessence>, seq<Quintessence>)>)
    ensures applied.None? ==> r == Err(TypeError)
    ensures r.Ok? ==> applied.Some?
    ensures r.Ok? ==> forall q :: q in r.value.0 <==> q in applied.value && q !in saved
    ensures r.Ok? ==> forall q :: q in r.value.1 <==> q in saved && q !in applied.value
    ensures r.Ok? ==> multiset(r.value.0) == multiset(Missing(applied.value, saved))
    ensures r.Ok? ==> multiset(r.value.1) == multiset(Missing(saved, applied.value))
    ensures r.Ok? ==> Sorted(r.value.0, true) && Sorted(r.value.1, false)
  {
    if applied.None? then Err(TypeError)
    else
      var toTeardown := SortByOrder(Missing(applied.value, saved), true);
      if toTeardown.Err? then Err(toTeardown.error)
      else
        var toApply := SortByOrder(Missing(saved, applied.value), false);
        if toApply.Err? then Err(toApply.error)
        else
          assert forall q :: q in toTeardown.value <==> q in multiset(Missing(applied.value, saved));
          assert forall q :: q in toApply.value <==> q in multiset(Missing(saved, applied.value));
          Ok((toTeardown.value, toApply.value))
  }

  /** `diff` raises TypeError exactly when one of its two lists has two or more changesets
      and one of them has no order; in particular it succeeds when every changeset has an
      order, and then both lists hold only changesets with orders. */
  lemma DiffFailsOnlyOnUnsetOrder(applied: seq<Quintessence>, saved: seq<Quintessence>)
    ensures var t, p := Missing(applied, saved), Missing(saved, applied);
      Diff(Some(applied), saved).Err?
      <==> (|t| >= 2 && !AllOrdered(t)) || (|p| >= 2 && !AllOrdered(p))
    ensures AllOrdered(applied) && AllOrdered(saved) ==>
      var r := Diff(Some(applied), saved);
      r.Ok? && AllOrdered(r.value.0) && AllOrdered(r.value.1)
  {
    var t := Missing(applied, saved);
    var p := Missing(saved, applied);
    if AllOrdered(applied) && AllOrdered(saved) {
      assert AllOrdered(t) by {
        forall i | 0 <= i < |t|
          ensures t[i].order.Some?
        {
          assert t[i] in applied;
        }
      }
      assert AllOrdered(p) by {
        forall i | 0 <= i < |p|
          ensures p[i].order.Some?
        {
          assert p[i] in saved;
        }
      }
    }
  }

  /** A changeset both applied and saved is in sync: it is in neither list, and no
      changeset is in both lists. */
  lemma DiffSeparates(applied: seq<Quintessence>, saved: seq<Quintessence>, q: Quintessence)
    requires Diff(Some(applied), saved).Ok?
    ensures var r := Diff(Some(applied), saved).value;
      (q in applied && q in saved ==> q !in r.0 && q !in r.1)
      && !(q in r.0 && q in r.1)
  {
  }

  /** Applied A (order 1) and C (order 2), saved A and B (order 2): C is torn down, B applied. */
  lemma DiffExample()
    ensures var a := Quintessence(1, Some(1), "create table a (x int);", "drop table a;");
      var b := Quintessence(2, Some(2), "create table b (x int);", "drop table b;");
      var c := Quintessence(3, Some(2), "create table c (x int);", "drop table c;");
      Diff(Some([a, c]), [a, b]) == Ok(([c], [b]))
  {
    var a := Quintessence(1, Some(1), "create table a (x int);", "drop table a;");
    var b := Quintessence(2, Some(2), "create table b (x int);", "drop table b;");
    var c := Quintessence(3, Some(2), "create table c (x int);", "drop table c;");
    assert a != c && b != c && a != b;
    assert Missing([a, c], [a, b]) == [c] by {
      assert [a, c][1..] == [c];
      assert Missing([c], [a, b]) == [c] + Missing([], [a, b]);
    }
    assert Missing([a, b], [a, c]) == [b] by {
      assert [a, b][1..] == [b];
      assert Missing([b], [a, c]) == [b] + Missing([], [a, c]);
    }
  }
}
