/**
 * The tables of backend/recipes/models.py and backend/users/models.py as
 * values, and their unique constraints, foreign keys and field validators as
 * predicates over those values. Primary keys are the keys of maps; a table
 * whose row order matters to a query is a sequence.
 */
module Schema {
  import opened Outcomes

  type Id = int

  /** CustomUser: the profile fields; the password is looked after by the authentication layer. */
  datatype User = User(email: string, username: string, firstName: string, lastName: string)

  /** Tag: the colour is optional. */
  datatype Tag = Tag(name: string, color: Option<string>, slug: string)

  datatype Ingredient = Ingredient(name: string, measurementUnit: string)

  /** Recipe: the author becomes `None` when the author's account is deleted. */
  datatype Recipe = Recipe(name: string, text: string, author: Option<Id>, image: string, cookingTime: int)

  /** AmountIngredient: one ingredient of one recipe, with its quantity. */
  datatype Line = Line(recipe: Id, ingredient: Id, amount: int)

  /** The declared minimum of a line's amount (`MIN_INGREDIENT_AMOUNT`; the recipe validator enforces 1). */
  const MinIngredientAmount: int := 1

  predicate IsHexDigit(c: char) {
    '0' <= c <= '9' || 'a' <= c <= 'f' || 'A' <= c <= 'F'
  }

  predicate AllHex(s: string) {
    forall i :: 0 <= i < |s| ==> IsHexDigit(s[i])
  }

  /**
   * The colour validator `^#([A-Fa-f0-9]{6}|[A-Fa-f0-9]{3})$`, searched with
   * Python's `re`, where `$` also matches just before a final newline.
   */
  predicate IsHexColor(s: string) {
    var body := if |s| > 0 && s[|s| - 1] == '\n' then s[..|s| - 1] else s;
    |body| >= 1 && body[0] == '#' && (|body| == 7 || |body| == 4) && AllHex(body[1..])
  }

  /** CustomUser: email and username are each unique. */
  predicate UniqueUsers(users: map<Id, User>) {
    forall a, b :: a in users && b in users && a != b ==>
      users[a].email != users[b].email && users[a].username != users[b].username
  }

  /** Tag: name, slug and (when present) colour unique; a colour passes the validator. */
  predicate ValidTags(tags: map<Id, Tag>) {
    && (forall a, b :: a in tags && b in tags && a != b ==>
          && tags[a].name != tags[b].name
          && tags[a].slug != tags[b].slug
          && (tags[a].color.Some? && tags[b].color.Some? ==> tags[a].color != tags[b].color))
    && (forall a :: a in tags && tags[a].color.Some? ==> IsHexColor(tags[a].color.value))
  }

  /** Ingredient: constraint `unique_ingredient` on (name, measurement_unit). */
  predicate UniqueIngredients(ingredients: map<Id, Ingredient>) {
    forall a, b :: a in ingredients && b in ingredients && a != b ==> ingredients[a] != ingredients[b]
  }

  /**
   * Recipe: constraint `unique_author_recipe` on (name, author). A NULL author
   * never equals another, so recipes whose author was deleted are not constrained.
   */
  predicate UniqueRecipeNames(recipes: map<Id, Recipe>) {
    forall a, b :: a in recipes && b in recipes && a != b && recipes[a].author.Some? ==>
      recipes[a].name != recipes[b].name || recipes[a].author != recipes[b].author
  }

  /** AmountIngredient: constraint `unique_recipe_ingredient`, and the minimum amount. */
  predicate ValidLines(lines: seq<Line>) {
    && (forall i, j :: 0 <= i < j < |lines| ==>
          lines[i].recipe != lines[j].recipe || lines[i].ingredient != lines[j].ingredient)
    && (forall i :: 0 <= i < |lines| ==> lines[i].amount >= MinIngredientAmount)
  }

  /** The lines of one recipe, in table order. */
  function LinesOf(lines: seq<Line>, recipe: Id): (r: seq<Line>)
    ensures forall l :: l in r <==> l in lines && l.recipe == recipe
    ensures |r| <= |lines|
  {
    if lines == [] then []
    else LinesOf(lines[..|lines| - 1], recipe)
         + (if lines[|lines| - 1].recipe == recipe then [lines[|lines| - 1]] else [])
  }

  /** The lines of every recipe but one, in table order: what `ingredients.clear()` leaves behind. */
  function DropLinesOf(lines: seq<Line>, recipe: Id): (r: seq<Line>)
    ensures forall l :: l in r <==> l in lines && l.recipe != recipe
    ensures forall other :: other != recipe ==> LinesOf(r, other) == LinesOf(lines, other)
    ensures ValidLines(lines) ==> ValidLines(r)
  {
    if lines == [] then []
    else
      var init := lines[..|lines| - 1];
      var last := lines[|lines| - 1];
      SnocSplit(lines);
      var r := DropLinesOf(init, recipe) + (if last.recipe != recipe then [last] else []);
      assert ValidLines(lines) ==> ValidLines(r) by {
        if ValidLines(lines) {
          ValidLinesInit(lines);
          ValidLinesAppend(DropLinesOf(init, recipe), if last.recipe != recipe then [last] else []);
        }
      }
      assert forall other :: other != recipe ==> LinesOf(r, other) == LinesOf(lines, other) by {
        forall other | other != recipe ensures LinesOf(r, other) == LinesOf(lines, other) {
          LinesOfAppend(DropLinesOf(init, recipe), if last.recipe != recipe then [last] else [], other);
          LinesOfAppend(init, [last], other);
        }
      }
      r
  }

  /** Selecting one recipe's lines distributes over concatenation of tables. */
  lemma {:induction false} LinesOfAppend(a: seq<Line>, b: seq<Line>, recipe: Id)
    ensures LinesOf(a + b, recipe) == LinesOf(a, recipe) + LinesOf(b, recipe)
    decreases |b|
  {
    if b == [] {
      assert a + b == a;
    } else {
      var b' := b[..|b| - 1];
      assert (a + b)[..|a + b| - 1] == a + b';
      assert (a + b)[|a + b| - 1] == b[|b| - 1];
      LinesOfAppend(a, b', recipe);
    }
  }

  /** Two valid line tables that share no (recipe, ingredient) key are valid together. */
  lemma ValidLinesAppend(a: seq<Line>, b: seq<Line>)
    requires ValidLines(a) && ValidLines(b)
    requires forall x, y :: x in a && y in b ==> x.recipe != y.recipe || x.ingredient != y.ingredient
    ensures ValidLines(a + b)
  {
    var s := a + b;
    forall i, j | 0 <= i < j < |s| ensures s[i].recipe != s[j].recipe || s[i].ingredient != s[j].ingredient {
      if j < |a| {
        assert s[i] == a[i] && s[j] == a[j];
      } else if i >= |a| {
        assert s[i] == b[i - |a|] && s[j] == b[j - |a|];
      } else {
        assert s[i] == a[i] && s[j] == b[j - |a|];
      }
    }
    forall i | 0 <= i < |s| ensures s[i].amount >= MinIngredientAmount {
      if i < |a| {
        assert s[i] == a[i];
      } else {
        assert s[i] == b[i - |a|];
      }
    }
  }

  /** A valid table without its last line is valid, and none of its lines has the last line's key. */
  lemma ValidLinesInit(s: seq<Line>)
    requires ValidLines(s) && |s| > 0
    ensures ValidLines(s[..|s| - 1])
    ensures forall y :: y in s[..|s| - 1] ==> y.recipe != s[|s| - 1].recipe || y.ingredient != s[|s| - 1].ingredient
  {
    var init := s[..|s| - 1];
    forall i, j | 0 <= i < j < |init| ensures init[i].recipe != init[j].recipe || init[i].ingredient != init[j].ingredient {
      assert init[i] == s[i] && init[j] == s[j];
    }
    forall y | y in init ensures y.recipe != s[|s| - 1].recipe || y.ingredient != s[|s| - 1].ingredient {
      var i :| 0 <= i < |init| && init[i] == y;
      assert s[i] == y;
    }
  }

  /** A table without lines of `recipe` selects nothing for it. */
  lemma LinesOfNone(lines: seq<Line>, recipe: Id)
    requires forall l :: l in lines ==> l.recipe != recipe
    ensures LinesOf(lines, recipe) == []
  {
    var r := LinesOf(lines, recipe);
    assert forall l :: l !in r;
  }

  /** A table of lines of `recipe` only is all selected, in order. */
  lemma {:induction false} LinesOfAll(lines: seq<Line>, recipe: Id)
    requires forall i :: 0 <= i < |lines| ==> lines[i].recipe == recipe
    ensures LinesOf(lines, recipe) == lines
    decreases |lines|
  {
    if lines != [] {
      var init, last := lines[..|lines| - 1], lines[|lines| - 1];
      assert forall i :: 0 <= i < |init| ==> init[i] == lines[i];
      LinesOfAll(init, recipe);
      assert LinesOf(lines, recipe) == init + [last];
      SnocSplit(lines);
    }
  }
}
