/**
 * A table of (owner, target) pairs under a unique constraint on the pair:
 * the shape shared by ShoppingCart (user, recipe) and Favorites (user,
 * recipe) in backend/recipes/models.py and by Subscription (user, author) in
 * backend/users/models.py. Rows are kept in insertion order; owner and
 * target are primary keys.
 */
module Ledger {
  import opened Outcomes
  import opened Schema

  /** One row: (owner, target). */
  type Pair = (Id, Id)

  /** The rows satisfying `keep`, in table order. */
  function Keep(rows: seq<Pair>, keep: Pair -> bool): (r: seq<Pair>)
    ensures forall p :: p in r <==> p in rows && keep(p)
    ensures Distinct(rows) ==> Distinct(r)
    ensures |r| <= |rows|
  {
    if rows == [] then []
    else
      var init, last := rows[..|rows| - 1], rows[|rows| - 1];
      var front := Keep(init, keep);
      assert Distinct(rows) ==> Distinct(init) by {
        if Distinct(rows) {
          forall i, j | 0 <= i < j < |init| ensures init[i] != init[j] {
            assert init[i] == rows[i] && init[j] == rows[j];
          }
        }
      }
      assert Distinct(rows) ==> last !in init by {
        if Distinct(rows) {
          forall i | 0 <= i < |init| ensures init[i] != last {
            assert init[i] == rows[i];
          }
        }
      }
      if keep(last) then
        DistinctSnoc(front, last);
        front + [last]
      else front
  }

  lemma DistinctSnoc<X>(a: seq<X>, x: X)
    ensures Distinct(a) && x !in a ==> Distinct(a + [x])
  {
    if Distinct(a) && x !in a {
      forall i, j | 0 <= i < j < |a + [x]| ensures (a + [x])[i] != (a + [x])[j] {
        if j == |a| {
          assert (a + [x])[i] == a[i];
        } else {
          assert (a + [x])[i] == a[i] && (a + [x])[j] == a[j];
        }
      }
    }
  }

  function Other(x: Pair): Pair -> bool {
    (p: Pair) => p != x
  }

  function OtherOwner(s: Id): Pair -> bool {
    (p: Pair) => p.0 != s
  }

  function OtherTarget(t: Id): Pair -> bool {
    (p: Pair) => p.1 != t
  }

  /** Every row but `x`: a unique-constraint delete of one pair. */
  function Without(rows: seq<Pair>, x: Pair): (r: seq<Pair>)
    ensures forall p :: p in r <==> p in rows && p != x
    ensures Distinct(rows) ==> Distinct(r)
  {
    Keep(rows, Other(x))
  }

  /** Every row whose owner is not `s`: the cascade when the owner is deleted. */
  function DropOwner(rows: seq<Pair>, s: Id): (r: seq<Pair>)
    ensures forall p :: p in r <==> p in rows && p.0 != s
    ensures Distinct(rows) ==> Distinct(r)
  {
    Keep(rows, OtherOwner(s))
  }

  /** Every row whose target is not `t`: the cascade when the target is deleted. */
  function DropTarget(rows: seq<Pair>, t: Id): (r: seq<Pair>)
    ensures forall p :: p in r <==> p in rows && p.1 != t
    ensures Distinct(rows) ==> Distinct(r)
  {
    Keep(rows, OtherTarget(t))
  }

  /** The targets of owner `s`, in table order. */
  function Targets(rows: seq<Pair>, s: Id): (r: seq<Id>)
    ensures forall t :: t in r <==> (s, t) in rows
    ensures |r| <= |rows|
  {
    if rows == [] then []
    else Targets(rows[..|rows| - 1], s) + (if rows[|rows| - 1].0 == s then [rows[|rows| - 1].1] else [])
  }

  lemma {:induction false} TargetsDistinct(rows: seq<Pair>, s: Id)
    ensures Distinct(rows) ==> Distinct(Targets(rows, s))
    decreases |rows|
  {
    if rows != [] && Distinct(rows) {
      var init, last := rows[..|rows| - 1], rows[|rows| - 1];
      assert Distinct(init) by {
        forall i, j | 0 <= i < j < |init| ensures init[i] != init[j] {
          assert init[i] == rows[i] && init[j] == rows[j];
        }
      }
      TargetsDistinct(init, s);
      if last.0 == s {
        assert last !in init by {
          forall i | 0 <= i < |init| ensures init[i] != last {
            assert init[i] == rows[i];
          }
        }
        DistinctSnoc(Targets(init, s), last.1);
      }
    }
  }

  lemma {:induction false} TargetsAppend(a: seq<Pair>, b: seq<Pair>, s: Id)
    ensures Targets(a + b, s) == Targets(a, s) + Targets(b, s)
    decreases |b|
  {
    if b == [] {
      assert a + b == a;
    } else {
      var b' := b[..|b| - 1];
      assert (a + b)[..|a + b| - 1] == a + b';
      assert (a + b)[|a + b| - 1] == b[|b| - 1];
      TargetsAppend(a, b', s);
    }
  }

  /** Dropping rows of other owners leaves the targets of owner `s` as they were. */
  lemma {:induction false} TargetsKeep(rows: seq<Pair>, keep: Pair -> bool, s: Id)
    requires forall t :: keep((s, t))
    ensures Targets(Keep(rows, keep), s) == Targets(rows, s)
    decreases |rows|
  {
    if rows != [] {
      var init, last := rows[..|rows| - 1], rows[|rows| - 1];
      TargetsKeep(init, keep, s);
      if keep(last) {
        TargetsAppend(Keep(init, keep), [last], s);
      } else {
        assert last.0 != s;
      }
    }
  }

  /** In a table without repeated rows, deleting a present row shortens it by exactly one. */
  lemma {:induction false} WithoutCount(rows: seq<Pair>, x: Pair)
    requires Distinct(rows)
    ensures |Without(rows, x)| == |rows| - (if x in rows then 1 else 0)
    decreases |rows|
  {
    if rows != [] {
      var init, last := rows[..|rows| - 1], rows[|rows| - 1];
      SnocSplit(rows);
      assert Distinct(init) by {
        forall i, j | 0 <= i < j < |init| ensures init[i] != init[j] {
          assert init[i] == rows[i] && init[j] == rows[j];
        }
      }
      assert last !in init by {
        forall i | 0 <= i < |init| ensures init[i] != last {
          assert init[i] == rows[i];
        }
      }
      WithoutCount(init, x);
      assert Without(rows, x) == Without(init, x) + (if last != x then [last] else []);
    }
  }

  lemma {:induction false} KeepAll(rows: seq<Pair>, keep: Pair -> bool)
    requires forall i :: 0 <= i < |rows| ==> keep(rows[i])
    ensures Keep(rows, keep) == rows
    decreases |rows|
  {
    if rows != [] {
      var init, last := rows[..|rows| - 1], rows[|rows| - 1];
      assert forall i :: 0 <= i < |init| ==> init[i] == rows[i];
      KeepAll(init, keep);
      assert keep(last);
      assert Keep(rows, keep) == init + [last];
      SnocSplit(rows);
    }
  }

  /** Storing a new pair and then deleting it gives back the table. */
  lemma AddThenRemove(rows: seq<Pair>, x: Pair)
    requires x !in rows
    ensures Without(rows + [x], x) == rows
  {
    var all := rows + [x];
    assert all[..|all| - 1] == rows;
    assert forall i :: 0 <= i < |rows| ==> rows[i] in rows;
    KeepAll(rows, Other(x));
  }

  class PairLedger {
    var rows: seq<Pair>

    ghost predicate Valid()
      reads this
    {
      Distinct(rows)
    }

    constructor ()
      ensures Valid() && rows == []
    {
      rows := [];
    }

    /** `.filter(user=s, recipe=t).exists()`: the read-side membership test. */
    predicate Has(s: Id, t: Id)
      reads this
    {
      (s, t) in rows
    }

    /** The targets of owner `s`: what `request.user.shopping_cart.all()` reads. */
    function TargetsOf(s: Id): (r: seq<Id>)
      reads this
      ensures forall t :: t in r <==> Has(s, t)
      ensures Valid() ==> Distinct(r)
    {
      TargetsDistinct(rows, s);
      Targets(rows, s)
    }

    /** Insert `(s, t)` unless it is present; report whether it was inserted. */
    method Add(s: Id, t: Id) returns (added: bool)
      requires Valid()
      modifies this
      ensures Valid()
      ensures added <==> !old(Has(s, t))
      ensures rows == if added then old(rows) + [(s, t)] else old(rows)
      ensures Has(s, t)
      ensures forall u :: u != s ==> TargetsOf(u) == old(TargetsOf(u))
    {
      if (s, t) in rows {
        added := false;
      } else {
        DistinctSnoc(rows, (s, t));
        forall u | u != s ensures Targets(rows + [(s, t)], u) == Targets(rows, u) {
          TargetsAppend(rows, [(s, t)], u);
        }
        rows := rows + [(s, t)];
        added := true;
      }
    }

    /** Delete `(s, t)` if it is present; report whether it was. */
    method Remove(s: Id, t: Id) returns (removed: bool)
      requires Valid()
      modifies this
      ensures Valid()
      ensures removed <==> old(Has(s, t))
      ensures rows == Without(old(rows), (s, t))
      ensures |rows| == |old(rows)| - (if removed then 1 else 0)
      ensures !Has(s, t)
      ensures forall u :: u != s ==> TargetsOf(u) == old(TargetsOf(u))
    {
      removed := (s, t) in rows;
      WithoutCount(rows, (s, t));
      forall u | u != s ensures Targets(Without(rows, (s, t)), u) == Targets(rows, u) {
        TargetsKeep(rows, Other((s, t)), u);
      }
      rows := Without(rows, (s, t));
    }

    /** Delete every row of owner `s` (`on_delete=CASCADE` on the owner). */
    method RemoveOwner(s: Id)
      requires Valid()
      modifies this
      ensures Valid()
      ensures rows == DropOwner(old(rows), s)
      ensures forall t :: !Has(s, t)
      ensures forall u :: u != s ==> TargetsOf(u) == old(TargetsOf(u))
    {
      forall u | u != s ensures Targets(DropOwner(rows, s), u) == Targets(rows, u) {
        TargetsKeep(rows, OtherOwner(s), u);
      }
      rows := DropOwner(rows, s);
    }

    /** Delete every row of target `t` (`on_delete=CASCADE` on the target). */
    method RemoveTarget(t: Id)
      requires Valid()
      modifies this
      ensures Valid()
      ensures rows == DropTarget(old(rows), t)
      ensures forall s :: !Has(s, t)
    {
      rows := DropTarget(rows, t);
    }
  }
}
