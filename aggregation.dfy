/**
 * The shopping list of RecipeViewSet.download_file (backend/api/views.py):
 * the database query that joins a user's cart to the lines of its recipes
 * and groups them by the ingredient's (name, measurement unit), summing the
 * amounts, and the text rendered from the groups.
 *
 * Grouping is a fold that adds each joined row to the group of its key,
 * opening a new group, at the end, for a key not seen before. The database
 * returns groups in an order of its own; the model fixes first appearance,
 * and every property below holds whatever the order.
 */
module Aggregation {
  import opened Outcomes
  import opened Text
  import opened Schema

  datatype Group<K> = Group(key: K, total: int)

  // ---- Grouping, for any key type ----

  /** Add `a` to the group of `k`, or open a new group for `k` at the end. */
  function Insert<K(==)>(gs: seq<Group<K>>, k: K, a: int): (r: seq<Group<K>>)
    ensures HasKey(gs, k) ==> |r| == |gs|
    ensures !HasKey(gs, k) ==> r == gs + [Group(k, a)]
  {
    if gs == [] then [Group(k, a)]
    else if gs[0].key == k then [Group(k, gs[0].total + a)] + gs[1..]
    else
      assert HasKey(gs, k) <==> HasKey(gs[1..], k) by { HasKeyTail(gs, k); }
      [gs[0]] + Insert(gs[1..], k, a)
  }

  /** With a different first key, a key has a group exactly when it has one after the first. */
  lemma HasKeyTail<K>(gs: seq<Group<K>>, k: K)
    requires |gs| > 0 && gs[0].key != k
    ensures HasKey(gs, k) <==> HasKey(gs[1..], k)
  {
    if HasKey(gs, k) {
      var i :| 0 <= i < |gs| && gs[i].key == k;
      assert gs[1..][i - 1] == gs[i];
    }
    if HasKey(gs[1..], k) {
      var i :| 0 <= i < |gs[1..]| && gs[1..][i].key == k;
      assert gs[i + 1] == gs[1..][i];
    }
  }

  /** `.values(key).annotate(Sum(amount))` over rows of (key, amount). */
  function GroupRows<K(==)>(rows: seq<(K, int)>): (r: seq<Group<K>>)
    ensures |r| <= |rows|
    ensures rows != [] ==> r != []
  {
    if rows == [] then []
    else Insert(GroupRows(rows[..|rows| - 1]), rows[|rows| - 1].0, rows[|rows| - 1].1)
  }

  /** The sum of the amounts of the rows with key `k`. */
  function SumFor<K(==)>(rows: seq<(K, int)>, k: K): int {
    if rows == [] then 0
    else SumFor(rows[..|rows| - 1], k) + (if rows[|rows| - 1].0 == k then rows[|rows| - 1].1 else 0)
  }

  function SumAmounts<K>(rows: seq<(K, int)>): int {
    if rows == [] then 0 else SumAmounts(rows[..|rows| - 1]) + rows[|rows| - 1].1
  }

  /** The sum of the totals of the groups with key `k` (with distinct keys: the one group's total). */
  function TotalOf<K(==)>(gs: seq<Group<K>>, k: K): int {
    if gs == [] then 0 else (if gs[0].key == k then gs[0].total else 0) + TotalOf(gs[1..], k)
  }

  function SumTotals<K>(gs: seq<Group<K>>): int {
    if gs == [] then 0 else gs[0].total + SumTotals(gs[1..])
  }

  predicate DistinctKeys<K(==)>(gs: seq<Group<K>>) {
    forall i, j :: 0 <= i < j < |gs| ==> gs[i].key != gs[j].key
  }

  predicate HasKey<K(==)>(gs: seq<Group<K>>, k: K) {
    exists i :: 0 <= i < |gs| && gs[i].key == k
  }

  predicate RowHasKey<K(==)>(rows: seq<(K, int)>, k: K) {
    exists j :: 0 <= j < |rows| && rows[j].0 == k
  }

  /** Adding one row to the groups: its key gets a group, keys stay distinct, and its amount lands on its key. */
  lemma InsertFacts<K>(gs: seq<Group<K>>, k: K, a: int)
    ensures forall k' :: HasKey(Insert(gs, k, a), k') <==> HasKey(gs, k') || k' == k
    ensures DistinctKeys(gs) ==> DistinctKeys(Insert(gs, k, a))
    ensures forall k' :: TotalOf(Insert(gs, k, a), k') == TotalOf(gs, k') + (if k' == k then a else 0)
    ensures SumTotals(Insert(gs, k, a)) == SumTotals(gs) + a
  {
    forall k' ensures HasKey(Insert(gs, k, a), k') <==> HasKey(gs, k') || k' == k {
      InsertKeys(gs, k, a, k');
    }
    InsertDistinct(gs, k, a);
    InsertTotals(gs, k, a);
  }

  lemma {:induction false} InsertKeys<K>(gs: seq<Group<K>>, k: K, a: int, k': K)
    ensures HasKey(Insert(gs, k, a), k') <==> HasKey(gs, k') || k' == k
    decreases |gs|
  {
    var r := Insert(gs, k, a);
    if gs == [] {
      assert r == [Group(k, a)];
      assert r[0].key == k;
    } else if gs[0].key == k {
      assert r[1..] == gs[1..];
      if HasKey(gs, k') {
        var i :| 0 <= i < |gs| && gs[i].key == k';
        assert r[i].key == k';
      }
      if HasKey(r, k') {
        var i :| 0 <= i < |r| && r[i].key == k';
        assert gs[i].key == k';
      }
    } else {
      var tail := Insert(gs[1..], k, a);
      InsertKeys(gs[1..], k, a, k');
      InsertKeys(gs[1..], k, a, k);
      assert r == [gs[0]] + tail;
      if HasKey(gs, k') {
        var i :| 0 <= i < |gs| && gs[i].key == k';
        if i > 0 {
          assert gs[1..][i - 1].key == k';
          var j :| 0 <= j < |tail| && tail[j].key == k';
          assert r[j + 1].key == k';
        } else {
          assert r[0].key == k';
        }
      }
      if k' == k {
        assert HasKey(tail, k);
        var j :| 0 <= j < |tail| && tail[j].key == k;
        assert r[j + 1].key == k;
      }
      if HasKey(r, k') {
        var i :| 0 <= i < |r| && r[i].key == k';
        if i > 0 {
          assert tail[i - 1].key == k';
          if HasKey(gs[1..], k') {
            var j :| 0 <= j < |gs[1..]| && gs[1..][j].key == k';
            assert gs[j + 1].key == k';
          }
        } else {
          assert gs[0].key == k';
        }
      }
    }
  }

  lemma {:induction false} InsertDistinct<K>(gs: seq<Group<K>>, k: K, a: int)
    ensures DistinctKeys(gs) ==> DistinctKeys(Insert(gs, k, a))
    decreases |gs|
  {
    var r := Insert(gs, k, a);
    if gs != [] && DistinctKeys(gs) {
      if gs[0].key == k {
        assert r[1..] == gs[1..];
        forall i, j | 0 <= i < j < |r| ensures r[i].key != r[j].key {
          assert r[i].key == gs[i].key && r[j].key == gs[j].key;
        }
      } else {
        var tail := Insert(gs[1..], k, a);
        assert DistinctKeys(gs[1..]) by {
          forall i, j | 0 <= i < j < |gs[1..]| ensures gs[1..][i].key != gs[1..][j].key {
            assert gs[1..][i] == gs[i + 1] && gs[1..][j] == gs[j + 1];
          }
        }
        assert !HasKey(gs[1..], gs[0].key) by {
          forall j | 0 <= j < |gs[1..]| ensures gs[1..][j].key != gs[0].key {
            assert gs[1..][j] == gs[j + 1];
          }
        }
        InsertDistinct(gs[1..], k, a);
        InsertKeys(gs[1..], k, a, gs[0].key);
        assert r == [gs[0]] + tail;
        forall i, j | 0 <= i < j < |r| ensures r[i].key != r[j].key {
          if i == 0 {
            assert r[j].key == tail[j - 1].key;
            assert HasKey(tail, r[j].key);
          } else {
            assert r[i].key == tail[i - 1].key && r[j].key == tail[j - 1].key;
          }
        }
      }
    }
  }

  lemma {:induction false} InsertTotals<K>(gs: seq<Group<K>>, k: K, a: int)
    ensures forall k' :: TotalOf(Insert(gs, k, a), k') == TotalOf(gs, k') + (if k' == k then a else 0)
    ensures SumTotals(Insert(gs, k, a)) == SumTotals(gs) + a
    decreases |gs|
  {
    var r := Insert(gs, k, a);
    if gs == [] {
      assert r == [Group(k, a)] && r[1..] == [];
    } else if gs[0].key == k {
      assert r[1..] == gs[1..];
    } else {
      InsertTotals(gs[1..], k, a);
      assert r[1..] == Insert(gs[1..], k, a);
    }
  }

  /** Grouping yields one group per key. */
  lemma {:induction false} GroupRowsDistinct<K>(rows: seq<(K, int)>)
    ensures DistinctKeys(GroupRows(rows))
    decreases |rows|
  {
    if rows != [] {
      var init := rows[..|rows| - 1];
      GroupRowsDistinct(init);
      InsertFacts(GroupRows(init), rows[|rows| - 1].0, rows[|rows| - 1].1);
    }
  }

  /** A key has a group exactly when some row carries it: grouping drops no key and invents none. */
  lemma {:induction false} GroupRowsKeys<K>(rows: seq<(K, int)>, k: K)
    ensures HasKey(GroupRows(rows), k) <==> RowHasKey(rows, k)
    decreases |rows|
  {
    if rows != [] {
      var init := rows[..|rows| - 1];
      GroupRowsKeys(init, k);
      InsertKeys(GroupRows(init), rows[|rows| - 1].0, rows[|rows| - 1].1, k);
      RowHasKeySnoc(rows, k);
    }
  }

  /** A key occurs in a non-empty table exactly when it occurs before the last row or in it. */
  lemma RowHasKeySnoc<K>(rows: seq<(K, int)>, k: K)
    requires rows != []
    ensures RowHasKey(rows, k) <==> RowHasKey(rows[..|rows| - 1], k) || rows[|rows| - 1].0 == k
  {
    var init := rows[..|rows| - 1];
    if RowHasKey(rows, k) && rows[|rows| - 1].0 != k {
      var j :| 0 <= j < |rows| && rows[j].0 == k;
      assert init[j].0 == k;
    }
    if RowHasKey(init, k) {
      var j :| 0 <= j < |init| && init[j].0 == k;
      assert rows[j].0 == k;
    }
  }

  /** For every key, the groups of that key add up to the amounts of the rows of that key. */
  lemma {:induction false} GroupRowsTotalOf<K>(rows: seq<(K, int)>, k: K)
    ensures TotalOf(GroupRows(rows), k) == SumFor(rows, k)
    decreases |rows|
  {
    if rows != [] {
      var init := rows[..|rows| - 1];
      GroupRowsTotalOf(init, k);
      InsertFacts(GroupRows(init), rows[|rows| - 1].0, rows[|rows| - 1].1);
    }
  }

  /** When keys are distinct, the total of the groups of a group's key is that group's total. */
  lemma {:induction false} TotalOfDistinct<K>(gs: seq<Group<K>>, i: nat)
    requires DistinctKeys(gs) && i < |gs|
    ensures TotalOf(gs, gs[i].key) == gs[i].total
    decreases |gs|
  {
    var tail := gs[1..];
    assert DistinctKeys(tail) by {
      forall a, b | 0 <= a < b < |tail| ensures tail[a].key != tail[b].key {
        assert tail[a] == gs[a + 1] && tail[b] == gs[b + 1];
      }
    }
    if i == 0 {
      TotalOfAbsent(tail, gs[0].key);
    } else {
      TotalOfDistinct(tail, i - 1);
      assert tail[i - 1] == gs[i];
    }
  }

  lemma {:induction false} TotalOfAbsent<K>(gs: seq<Group<K>>, k: K)
    requires forall i :: 0 <= i < |gs| ==> gs[i].key != k
    ensures TotalOf(gs, k) == 0
    decreases |gs|
  {
    if gs != [] {
      assert forall i :: 0 <= i < |gs[1..]| ==> gs[1..][i] == gs[i + 1];
      TotalOfAbsent(gs[1..], k);
    }
  }

  /** Each group's total is the sum of the amounts of the rows with its key. */
  lemma GroupRowsTotals<K>(rows: seq<(K, int)>)
    ensures forall i :: 0 <= i < |GroupRows(rows)| ==> GroupRows(rows)[i].total == SumFor(rows, GroupRows(rows)[i].key)
  {
    var gs := GroupRows(rows);
    GroupRowsDistinct(rows);
    forall i | 0 <= i < |gs| ensures gs[i].total == SumFor(rows, gs[i].key) {
      TotalOfDistinct(gs, i);
      GroupRowsTotalOf(rows, gs[i].key);
    }
  }

  /** Grouping neither drops nor duplicates an amount: the totals add up to the sum of all amounts. */
  lemma {:induction false} GroupRowsPreservesSum<K>(rows: seq<(K, int)>)
    ensures SumTotals(GroupRows(rows)) == SumAmounts(rows)
    decreases |rows|
  {
    if rows != [] {
      var init := rows[..|rows| - 1];
      GroupRowsPreservesSum(init);
      InsertFacts(GroupRows(init), rows[|rows| - 1].0, rows[|rows| - 1].1);
    }
  }

  lemma {:induction false} SumForAppend<K>(a: seq<(K, int)>, b: seq<(K, int)>, k: K)
    ensures SumFor(a + b, k) == SumFor(a, k) + SumFor(b, k)
    ensures SumAmounts(a + b) == SumAmounts(a) + SumAmounts(b)
    decreases |b|
  {
    if b == [] {
      assert a + b == a;
    } else {
      var b' := b[..|b| - 1];
      assert (a + b)[..|a + b| - 1] == a + b';
      assert (a + b)[|a + b| - 1] == b[|b| - 1];
      SumForAppend(a, b', k);
    }
  }

  // ---- The join of cart, lines and ingredients ----

  /** The grouping key: ingredient name and measurement unit, not the ingredient's id. */
  datatype ItemKey = ItemKey(name: string, unit: string)

  function KeyOf(ing: Ingredient): ItemKey {
    ItemKey(ing.name, ing.measurementUnit)
  }

  /** Every line refers to an existing ingredient (the foreign key of AmountIngredient). */
  predicate Resolvable(lines: seq<Line>, ingredients: map<Id, Ingredient>) {
    forall l :: l in lines ==> l.ingredient in ingredients
  }

  function LineRows(ls: seq<Line>, ingredients: map<Id, Ingredient>): (r: seq<(ItemKey, int)>)
    requires Resolvable(ls, ingredients)
    ensures |r| == |ls|
    ensures forall i :: 0 <= i < |ls| ==> r[i] == (KeyOf(ingredients[ls[i].ingredient]), ls[i].amount)
  {
    seq(|ls|, i requires 0 <= i < |ls| => (KeyOf(ingredients[ls[i].ingredient]), ls[i].amount))
  }

  lemma LinesOfResolvable(lines: seq<Line>, r: Id, ingredients: map<Id, Ingredient>)
    requires Resolvable(lines, ingredients)
    ensures Resolvable(LinesOf(lines, r), ingredients)
  {
  }

  /** The inner join: one row per line of each cart recipe, cart order first, then line order. */
  function JoinRows(cart: seq<Id>, lines: seq<Line>, ingredients: map<Id, Ingredient>): seq<(ItemKey, int)>
    requires Resolvable(lines, ingredients)
  {
    if cart == [] then []
    else
      LinesOfResolvable(lines, cart[|cart| - 1], ingredients);
      JoinRows(cart[..|cart| - 1], lines, ingredients)
      + LineRows(LinesOf(lines, cart[|cart| - 1]), ingredients)
  }

  /** The grouped shopping list of the recipes in `cart`. */
  function ShoppingList(cart: seq<Id>, lines: seq<Line>, ingredients: map<Id, Ingredient>): (r: seq<Group<ItemKey>>)
    requires Resolvable(lines, ingredients)
    ensures DistinctKeys(r)
  {
    GroupRowsDistinct(JoinRows(cart, lines, ingredients));
    GroupRows(JoinRows(cart, lines, ingredients))
  }

  // ---- Reference definitions over the tables themselves ----

  /** The sum of the amounts of the lines in `ls` whose ingredient has key `k`. */
  function KeyAmount(ls: seq<Line>, ingredients: map<Id, Ingredient>, k: ItemKey): int
    requires Resolvable(ls, ingredients)
  {
    if ls == [] then 0
    else KeyAmount(ls[..|ls| - 1], ingredients, k)
         + (if KeyOf(ingredients[ls[|ls| - 1].ingredient]) == k then ls[|ls| - 1].amount else 0)
  }

  function LineAmount(ls: seq<Line>): int {
    if ls == [] then 0 else LineAmount(ls[..|ls| - 1]) + ls[|ls| - 1].amount
  }

  /** How much of key `k` the cart's recipes need, recipe by recipe. */
  function CartKeyTotal(cart: seq<Id>, lines: seq<Line>, ingredients: map<Id, Ingredient>, k: ItemKey): int
    requires Resolvable(lines, ingredients)
  {
    if cart == [] then 0
    else
      LinesOfResolvable(lines, cart[|cart| - 1], ingredients);
      CartKeyTotal(cart[..|cart| - 1], lines, ingredients, k)
      + KeyAmount(LinesOf(lines, cart[|cart| - 1]), ingredients, k)
  }

  /** The sum of every line amount of every cart recipe. */
  function CartTotal(cart: seq<Id>, lines: seq<Line>): int {
    if cart == [] then 0
    else CartTotal(cart[..|cart| - 1], lines) + LineAmount(LinesOf(lines, cart[|cart| - 1]))
  }

  /** Some line of some cart recipe names an ingredient with key `k`. */
  predicate CartNeeds(cart: seq<Id>, lines: seq<Line>, ingredients: map<Id, Ingredient>, k: ItemKey)
    requires Resolvable(lines, ingredients)
  {
    exists l :: l in lines && l.recipe in cart && KeyOf(ingredients[l.ingredient]) == k
  }

  lemma {:induction false} LineRowsSums(ls: seq<Line>, ingredients: map<Id, Ingredient>, k: ItemKey)
    requires Resolvable(ls, ingredients)
    ensures SumFor(LineRows(ls, ingredients), k) == KeyAmount(ls, ingredients, k)
    ensures SumAmounts(LineRows(ls, ingredients)) == LineAmount(ls)
    decreases |ls|
  {
    if ls != [] {
      var init := ls[..|ls| - 1];
      LineRowsSums(init, ingredients, k);
      assert LineRows(ls, ingredients)[..|ls| - 1] == LineRows(init, ingredients);
    }
  }

  lemma {:induction false} JoinRowsSums(cart: seq<Id>, lines: seq<Line>, ingredients: map<Id, Ingredient>, k: ItemKey)
    requires Resolvable(lines, ingredients)
    ensures SumFor(JoinRows(cart, lines, ingredients), k) == CartKeyTotal(cart, lines, ingredients, k)
    ensures SumAmounts(JoinRows(cart, lines, ingredients)) == CartTotal(cart, lines)
    decreases |cart|
  {
    if cart != [] {
      var init, r := cart[..|cart| - 1], cart[|cart| - 1];
      LinesOfResolvable(lines, r, ingredients);
      JoinRowsSums(init, lines, ingredients, k);
      SumForAppend(JoinRows(init, lines, ingredients), LineRows(LinesOf(lines, r), ingredients), k);
      LineRowsSums(LinesOf(lines, r), ingredients, k);
    }
  }

  lemma RowHasKeyAppend<K>(a: seq<(K, int)>, b: seq<(K, int)>, k: K)
    ensures RowHasKey(a + b, k) <==> RowHasKey(a, k) || RowHasKey(b, k)
  {
    if RowHasKey(a + b, k) {
      var j :| 0 <= j < |a + b| && (a + b)[j].0 == k;
      if j >= |a| {
        assert b[j - |a|].0 == k;
      }
    }
    if RowHasKey(a, k) {
      var j :| 0 <= j < |a| && a[j].0 == k;
      assert (a + b)[j] == a[j];
    }
    if RowHasKey(b, k) {
      var j :| 0 <= j < |b| && b[j].0 == k;
      assert (a + b)[|a| + j] == b[j];
    }
  }

  lemma LineRowsKeys(ls: seq<Line>, ingredients: map<Id, Ingredient>, k: ItemKey)
    requires Resolvable(ls, ingredients)
    ensures RowHasKey(LineRows(ls, ingredients), k) <==>
            exists l :: l in ls && KeyOf(ingredients[l.ingredient]) == k
  {
    var rows := LineRows(ls, ingredients);
    if exists l :: l in ls && KeyOf(ingredients[l.ingredient]) == k {
      var l :| l in ls && KeyOf(ingredients[l.ingredient]) == k;
      var i :| 0 <= i < |ls| && ls[i] == l;
      assert rows[i].0 == k;
    }
  }

  lemma {:induction false} JoinRowsKeys(cart: seq<Id>, lines: seq<Line>, ingredients: map<Id, Ingredient>, k: ItemKey)
    requires Resolvable(lines, ingredients)
    ensures RowHasKey(JoinRows(cart, lines, ingredients), k) <==> CartNeeds(cart, lines, ingredients, k)
    decreases |cart|
  {
    if cart != [] {
      var init, r := cart[..|cart| - 1], cart[|cart| - 1];
      assert cart == init + [r];
      var ls := LinesOf(lines, r);
      JoinRowsKeys(init, lines, ingredients, k);
      RowHasKeyAppend(JoinRows(init, lines, ingredients), LineRows(ls, ingredients), k);
      LineRowsKeys(ls, ingredients, k);
      if CartNeeds(cart, lines, ingredients, k) {
        var l :| l in lines && l.recipe in cart && KeyOf(ingredients[l.ingredient]) == k;
        if l.recipe != r {
          assert l.recipe in init;
        } else {
          assert l in ls;
        }
      }
    }
  }

  /** A (name, unit) pair has a group exactly when some line of some cart recipe uses an ingredient with that pair. */
  lemma ShoppingListKeys(cart: seq<Id>, lines: seq<Line>, ingredients: map<Id, Ingredient>, k: ItemKey)
    requires Resolvable(lines, ingredients)
    ensures HasKey(ShoppingList(cart, lines, ingredients), k) <==> CartNeeds(cart, lines, ingredients, k)
  {
    GroupRowsKeys(JoinRows(cart, lines, ingredients), k);
    JoinRowsKeys(cart, lines, ingredients, k);
  }

  /** Each group's total is the sum, over the cart's recipes, of the amounts of their lines with that pair. */
  lemma ShoppingListTotals(cart: seq<Id>, lines: seq<Line>, ingredients: map<Id, Ingredient>)
    requires Resolvable(lines, ingredients)
    ensures var gs := ShoppingList(cart, lines, ingredients);
      forall i :: 0 <= i < |gs| ==> gs[i].total == CartKeyTotal(cart, lines, ingredients, gs[i].key)
  {
    var rows := JoinRows(cart, lines, ingredients);
    var gs := GroupRows(rows);
    GroupRowsTotals(rows);
    forall i | 0 <= i < |gs| ensures gs[i].total == CartKeyTotal(cart, lines, ingredients, gs[i].key) {
      JoinRowsSums(cart, lines, ingredients, gs[i].key);
    }
  }

  /** The grand total of the list is the sum of all line amounts of all cart recipes. */
  lemma ShoppingListPreservesSum(cart: seq<Id>, lines: seq<Line>, ingredients: map<Id, Ingredient>)
    requires Resolvable(lines, ingredients)
    ensures SumTotals(ShoppingList(cart, lines, ingredients)) == CartTotal(cart, lines)
  {
    var rows := JoinRows(cart, lines, ingredients);
    GroupRowsPreservesSum(rows);
    JoinRowsSums(cart, lines, ingredients, ItemKey("", ""));
  }

  // ---- Rendering ----

  const Title: string := "Список необходимых ингредиентов:"
  const Header: string := Title + "\n\n"

  /** `f'{name} ({unit}) — {total}'` without its newline. */
  function LineText(g: Group<ItemKey>): (r: string)
    ensures '\n' !in g.key.name && '\n' !in g.key.unit ==> '\n' !in r
  {
    var n := IntToString(g.total);
    assert '\n' !in n by {
      forall i | 0 <= i < |n| ensures n[i] != '\n' {
        assert IsDigit(n[i]) || n[i] == '-';
      }
    }
    assert '\n' !in " (" && '\n' !in ") — ";
    g.key.name + " (" + g.key.unit + ") — " + n
  }

  function RenderLine(g: Group<ItemKey>): string {
    LineText(g) + "\n"
  }

  function RenderAll(gs: seq<Group<ItemKey>>): string {
    if gs == [] then "" else RenderLine(gs[0]) + RenderAll(gs[1..])
  }

  /** The downloaded text: the header, then one line per group. */
  function ShoppingText(cart: seq<Id>, lines: seq<Line>, ingredients: map<Id, Ingredient>): (r: string)
    requires Resolvable(lines, ingredients)
    ensures StartsWith(r, Header)
  {
    Header + RenderAll(ShoppingList(cart, lines, ingredients))
  }

  lemma {:induction false} RenderAllSnoc(gs: seq<Group<ItemKey>>, g: Group<ItemKey>)
    ensures RenderAll(gs + [g]) == RenderAll(gs) + RenderLine(g)
    decreases |gs|
  {
    if gs == [] {
      assert [] + [g] == [g];
    } else {
      assert (gs + [g])[1..] == gs[1..] + [g];
      RenderAllSnoc(gs[1..], g);
    }
  }

  function LineTexts(gs: seq<Group<ItemKey>>): (r: seq<string>)
    ensures |r| == |gs| && forall i :: 0 <= i < |gs| ==> r[i] == LineText(gs[i])
  {
    seq(|gs|, i requires 0 <= i < |gs| => LineText(gs[i]))
  }

  predicate SingleLineKeys(gs: seq<Group<ItemKey>>) {
    forall i :: 0 <= i < |gs| ==> '\n' !in gs[i].key.name && '\n' !in gs[i].key.unit
  }

  lemma {:induction false} RenderAllSplits(gs: seq<Group<ItemKey>>)
    requires SingleLineKeys(gs)
    ensures Split(RenderAll(gs), "\n") == LineTexts(gs) + [""]
    decreases |gs|
  {
    if gs == [] {
      assert Split("", "\n") == [""];
    } else {
      var t, tail := LineText(gs[0]), gs[1..];
      SingleLineKeysTail(gs);
      RenderAllSplits(tail);
      RenderAllCons(gs);
      LineTextsCons(gs);
      SplitAfterPrefix(t, "\n", RenderAll(tail));
      AppendAssoc([t], LineTexts(tail), [""]);
    }
  }

  lemma SingleLineKeysTail(gs: seq<Group<ItemKey>>)
    requires SingleLineKeys(gs) && |gs| > 0
    ensures SingleLineKeys(gs[1..])
  {
    forall i | 0 <= i < |gs[1..]| ensures '\n' !in gs[1..][i].key.name && '\n' !in gs[1..][i].key.unit {
      assert gs[1..][i] == gs[i + 1];
    }
  }

  lemma RenderAllCons(gs: seq<Group<ItemKey>>)
    requires |gs| > 0
    ensures RenderAll(gs) == LineText(gs[0]) + "\n" + RenderAll(gs[1..])
  {
  }

  lemma LineTextsCons(gs: seq<Group<ItemKey>>)
    requires |gs| > 0
    ensures LineTexts(gs) == [LineText(gs[0])] + LineTexts(gs[1..])
  {
    assert LineTexts(gs)[1..] == LineTexts(gs[1..]);
  }

  lemma HeaderSplits(body: string)
    ensures Split(Header + body, "\n") == [Title, ""] + Split(body, "\n")
  {
    assert '\n' !in Title;
    assert Header + body == Title + "\n" + ("\n" + body);
    TitleLineSplits(Title, "\n", body);
  }

  /** A first line without the separator, then an empty line, then the body. */
  lemma TitleLineSplits(title: string, sep: string, body: string)
    requires |sep| > 0 && sep[0] !in title
    ensures Split(title + sep + (sep + body), sep) == [title, ""] + Split(body, sep)
  {
    SplitAfterPrefix(title, sep, sep + body);
    EmptyFirstPiece(sep, body);
    assert [title] + ([""] + Split(body, sep)) == [title, ""] + Split(body, sep);
  }

  /** A string that starts with the separator splits off an empty first piece. */
  lemma EmptyFirstPiece(sep: string, body: string)
    requires |sep| > 0
    ensures Split(sep + body, sep) == [""] + Split(body, sep)
  {
    assert "" + sep + body == sep + body;
    SplitAfterPrefix("", sep, body);
  }

  /**
   * Read as lines, the downloaded text is the title, an empty line, then
   * exactly one line per group, in group order (when no ingredient name or
   * unit itself holds a line break).
   */
  lemma ShoppingTextLines(gs: seq<Group<ItemKey>>)
    requires SingleLineKeys(gs)
    ensures Split(Header + RenderAll(gs), "\n") == [Title, ""] + LineTexts(gs) + [""]
  {
    HeaderSplits(RenderAll(gs));
    RenderAllSplits(gs);
  }

  // ---- The query as written: a left outer join ----

  /**
   * Following the reverse relation from a cart entry to its recipe's lines
   * is a LEFT OUTER JOIN: a cart recipe without lines contributes one row
   * whose name, unit and amount are all NULL (here: key `None`, amount 0,
   * and the NULL total is rendered by the template as `None`).
   */
  function OuterJoinRows(cart: seq<Id>, lines: seq<Line>, ingredients: map<Id, Ingredient>)
    : (r: seq<(Option<ItemKey>, int)>)
    requires Resolvable(lines, ingredients)
    ensures |r| >= |cart|
  {
    if cart == [] then []
    else
      LinesOfResolvable(lines, cart[|cart| - 1], ingredients);
      OuterJoinRows(cart[..|cart| - 1], lines, ingredients) + OuterRows(LinesOf(lines, cart[|cart| - 1]), ingredients)
  }

  /** The rows one cart recipe contributes to the outer join: one NULL row when it has no lines. */
  function OuterRows(ls: seq<Line>, ingredients: map<Id, Ingredient>): (r: seq<(Option<ItemKey>, int)>)
    requires Resolvable(ls, ingredients)
    ensures |r| >= 1
    ensures HasNullRow(r) <==> ls == []
  {
    if ls == [] then
      var r: seq<(Option<ItemKey>, int)> := [(None, 0)];
      assert r[0].0.None?;
      r
    else
      var r := seq(|ls|, i requires 0 <= i < |ls| => (Some(KeyOf(ingredients[ls[i].ingredient])), ls[i].amount));
      assert forall i :: 0 <= i < |r| ==> r[i].0.Some?;
      r
  }

  predicate HasNullRow(r: seq<(Option<ItemKey>, int)>) {
    exists i :: 0 <= i < |r| && r[i].0.None?
  }

  predicate SomeLineless(cart: seq<Id>, lines: seq<Line>) {
    exists c :: c in cart && LinesOf(lines, c) == []
  }

  lemma NullRowAppend(a: seq<(Option<ItemKey>, int)>, b: seq<(Option<ItemKey>, int)>)
    ensures HasNullRow(a + b) <==> HasNullRow(a) || HasNullRow(b)
  {
    if HasNullRow(a + b) {
      var i :| 0 <= i < |a + b| && (a + b)[i].0.None?;
      if i >= |a| {
        assert b[i - |a|] == (a + b)[i];
      }
    }
    if HasNullRow(a) {
      var i :| 0 <= i < |a| && a[i].0.None?;
      assert (a + b)[i] == a[i];
    }
    if HasNullRow(b) {
      var i :| 0 <= i < |b| && b[i].0.None?;
      assert (a + b)[|a| + i] == b[i];
    }
  }

  lemma SomeLinelessSnoc(cart: seq<Id>, lines: seq<Line>)
    requires cart != []
    ensures SomeLineless(cart, lines) <==>
      SomeLineless(cart[..|cart| - 1], lines) || LinesOf(lines, cart[|cart| - 1]) == []
  {
    var init := cart[..|cart| - 1];
    assert cart == init + [cart[|cart| - 1]];
    if SomeLineless(cart, lines) {
      var c :| c in cart && LinesOf(lines, c) == [];
      if c != cart[|cart| - 1] {
        assert c in init;
      }
    }
  }

  /** The outer join has a NULL row exactly when some cart recipe has no lines. */
  lemma {:induction false} OuterJoinNullRows(cart: seq<Id>, lines: seq<Line>, ingredients: map<Id, Ingredient>)
    requires Resolvable(lines, ingredients)
    ensures HasNullRow(OuterJoinRows(cart, lines, ingredients)) <==> SomeLineless(cart, lines)
    decreases |cart|
  {
    if cart != [] {
      var init, c := cart[..|cart| - 1], cart[|cart| - 1];
      LinesOfResolvable(lines, c, ingredients);
      OuterJoinNullRows(init, lines, ingredients);
      NullRowAppend(OuterJoinRows(init, lines, ingredients), OuterRows(LinesOf(lines, c), ingredients));
      SomeLinelessSnoc(cart, lines);
    }
  }

  function RenderLineAsWritten(g: Group<Option<ItemKey>>): string {
    match g.key
    case None => "None (None) — None\n"
    case Some(k) => RenderLine(Group(k, g.total))
  }

  function RenderAllAsWritten(gs: seq<Group<Option<ItemKey>>>): string {
    if gs == [] then "" else RenderLineAsWritten(gs[0]) + RenderAllAsWritten(gs[1..])
  }

  function ShoppingTextAsWritten(cart: seq<Id>, lines: seq<Line>, ingredients: map<Id, Ingredient>): (r: string)
    requires Resolvable(lines, ingredients)
    ensures StartsWith(r, Header)
  {
    Header + RenderAllAsWritten(GroupRows(OuterJoinRows(cart, lines, ingredients)))
  }

  /**
   * A cart holding one recipe without ingredient lines: the query as written
   * renders a line `None (None) — None`; the inner join renders the header only.
   */
  lemma LinelessRecipeListed(r: Id, lines: seq<Line>, ingredients: map<Id, Ingredient>)
    requires Resolvable(lines, ingredients) && LinesOf(lines, r) == []
    ensures ShoppingTextAsWritten([r], lines, ingredients) == Header + "None (None) — None\n"
    ensures ShoppingText([r], lines, ingredients) == Header
  {
    LinelessAsWritten(r, lines, ingredients);
    LinelessInnerJoin(r, lines, ingredients);
  }

  lemma LinelessAsWritten(r: Id, lines: seq<Line>, ingredients: map<Id, Ingredient>)
    requires Resolvable(lines, ingredients) && LinesOf(lines, r) == []
    ensures ShoppingTextAsWritten([r], lines, ingredients) == Header + "None (None) — None\n"
  {
    LinelessOuterRow(r, lines, ingredients);
    OneRowGroups<Option<ItemKey>>(None, 0);
    NullRendering();
  }

  lemma LinelessOuterRow(r: Id, lines: seq<Line>, ingredients: map<Id, Ingredient>)
    requires Resolvable(lines, ingredients) && LinesOf(lines, r) == []
    ensures OuterJoinRows([r], lines, ingredients) == [(None, 0)]
  {
    var cart := [r];
    assert cart[..0] == [] && cart[0] == r;
    assert OuterJoinRows([], lines, ingredients) == [];
  }

  lemma OneRowGroups<K>(k: K, a: int)
    ensures GroupRows([(k, a)]) == [Group(k, a)]
  {
    var rows := [(k, a)];
    assert rows[..0] == [];
    assert GroupRows(rows) == Insert([], k, a);
  }

  lemma NullRendering()
    ensures RenderAllAsWritten([Group(None, 0)]) == "None (None) — None\n"
  {
    assert RenderAllAsWritten([Group(None, 0)]) == "None (None) — None\n" + RenderAllAsWritten([]);
  }

  lemma LinelessInnerJoin(r: Id, lines: seq<Line>, ingredients: map<Id, Ingredient>)
    requires Resolvable(lines, ingredients) && LinesOf(lines, r) == []
    ensures ShoppingText([r], lines, ingredients) == Header
  {
    var cart := [r];
    assert cart[..0] == [] && cart[0] == r;
    assert JoinRows(cart, lines, ingredients) == [] + LineRows([], ingredients);
  }

}
