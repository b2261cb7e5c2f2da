/**
 * The application's tables as one object, and the API actions that read or
 * change them: recipe create, update and delete (RecipeEditSerializer and
 * RecipeViewSet), the cart, favorites and subscription actions
 * (ShoppingCartViewSet, FavoriteRecipeViewSet, SubscriptionViewSet and the
 * serializers' `validate`), the read-side flags of the list serializers,
 * the cascades of the models' foreign keys, and the shopping-list download.
 *
 * `Valid` is the unique constraints of the models, the foreign keys and
 * the rule, kept by the subscribe action, that nobody follows themselves.
 * Every action keeps it.
 */
module Database {
  import opened Outcomes
  import opened Schema
  import opened Validation
  import opened Aggregation
  import opened Ledger

  /** Who sends a request. */
  datatype Viewer = Anonymous | Authenticated(id: Id)

  /** How an action is refused. */
  datatype Failure =
    | TagsRejected                  // 400 under "tags": the relation field found an unknown id, or none
    | Invalid(reason: Error)        // 400 under `Key(reason)`: RecipeEditSerializer.validate
    | Duplicate(message: string)    // 400 under "errors": the pair is already stored
    | Absent(message: string)       // 400 under "errors": the pair to delete is not stored
    | SelfSubscription              // 400 under "error"
    | AlreadySubscribed             // 400: the (author, user) pair is already stored
    | EmptyCart                     // 400 with the bare message `EmptyCartMessage`
    | NotFound                      // 404 from `get_object_or_404`
    | ConstraintViolation           // the database refuses a row that breaks a unique constraint

  /** The key of the error object of a 400 response (`None` for a response without one). */
  function ResponseKey(f: Failure): Option<string> {
    match f
    case TagsRejected => Some("tags")
    case Invalid(e) => Some(Key(e))
    case Duplicate(_) => Some("errors")
    case Absent(_) => Some("errors")
    case SelfSubscription => Some("error")
    case AlreadySubscribed => Some("non_field_errors")
    case _ => None
  }

  const InCartMessage: string := "Такой рецепт уже имеется в корзине"
  const NotInCartMessage: string := "Такого рецепта нет в корзине"
  const FavoritedMessage: string := "Этот рецепт уже добавлен в избранное"
  const NotFavoritedMessage: string := "Этого рецепта и так нет в избранном"
  const NotSubscribedMessage: string := "На этого автора не было подписки"
  const SelfSubscriptionMessage: string := "Нельзя подписаться на самого себя"
  const EmptyCartMessage: string := "Корзина товаров пуста"

  /** The message of a 400 response, where the source writes one. */
  function ResponseMessage(f: Failure): Option<string> {
    match f
    case Invalid(e) => Some(Message(e))
    case Duplicate(m) => Some(m)
    case Absent(m) => Some(m)
    case SelfSubscription => Some(SelfSubscriptionMessage)
    case EmptyCart => Some(EmptyCartMessage)
    case _ => None
  }

  /** The relation field `tags`: a non-empty list of ids of existing tags. */
  predicate TagsResolve(ids: seq<Id>, tags: map<Id, Tag>)
    ensures TagsResolve(ids, tags) <==> ids != [] && Elements(ids) <= tags.Keys
  {
    ResolveBySet(ids, tags);
    |ids| > 0 && forall i :: 0 <= i < |ids| ==> ids[i] in tags
  }

  lemma ResolveBySet(ids: seq<Id>, tags: map<Id, Tag>)
    ensures (forall i :: 0 <= i < |ids| ==> ids[i] in tags) <==> Elements(ids) <= tags.Keys
  {
    if forall i :: 0 <= i < |ids| ==> ids[i] in tags {
      forall t | t in Elements(ids) ensures t in tags {
        var i :| 0 <= i < |ids| && ids[i] == t;
      }
    }
    if Elements(ids) <= tags.Keys {
      forall i | 0 <= i < |ids| ensures ids[i] in tags {
        assert ids[i] in Elements(ids);
      }
    }
  }

  /** `create_ingredients`: one line per payload entry, in payload order. */
  function NewLines(recipe: Id, entries: seq<Entry>): (r: seq<Line>)
    ensures |r| == |entries|
    ensures forall i :: 0 <= i < |entries| ==> r[i] == Line(recipe, entries[i].id, entries[i].amount)
  {
    seq(|entries|, i requires 0 <= i < |entries| => Line(recipe, entries[i].id, entries[i].amount))
  }

  /** The fields `update` receives; a `None` field is not in the validated data. */
  datatype Changes = Changes(
    name: string, text: string, image: string, cookingTime: int,
    tags: Option<seq<Id>>, ingredients: Option<seq<Entry>>)

  /** Some recipe other than `except` already has this (name, author). */
  predicate NameTaken(recipes: map<Id, Recipe>, name: string, author: Id, except: Option<Id>) {
    exists id :: id in recipes && Some(id) != except && recipes[id].name == name && recipes[id].author == Some(author)
  }

  /** The recipes after their author's account is deleted: `on_delete=SET_NULL`. */
  function Orphaned(recipes: map<Id, Recipe>, author: Id): (r: map<Id, Recipe>)
    ensures r.Keys == recipes.Keys
    ensures forall id :: id in r ==>
      r[id] == if recipes[id].author == Some(author) then recipes[id].(author := None) else recipes[id]
  {
    map id | id in recipes :: if recipes[id].author == Some(author) then recipes[id].(author := None) else recipes[id]
  }

  lemma NewLinesValid(recipe: Id, entries: seq<Entry>, catalog: set<Id>)
    requires ValidEntries(entries, catalog)
    ensures ValidLines(NewLines(recipe, entries))
    ensures forall l :: l in NewLines(recipe, entries) ==> l.recipe == recipe && l.ingredient in catalog
  {
    var ls := NewLines(recipe, entries);
    forall i, j | 0 <= i < j < |ls| ensures ls[i].recipe != ls[j].recipe || ls[i].ingredient != ls[j].ingredient {
      assert ls[i].ingredient == entries[i].id && ls[j].ingredient == entries[j].id;
    }
    forall l | l in ls ensures l.recipe == recipe && l.ingredient in catalog {
      var i :| 0 <= i < |ls| && ls[i] == l;
    }
  }

  /**
   * `ingredients.clear()` then `create_ingredients`: the lines of `id` become
   * exactly the new lines, every other recipe keeps its lines, and the
   * table stays valid.
   */
  lemma ReplaceLines(lines: seq<Line>, id: Id, entries: seq<Entry>, catalog: set<Id>)
    requires ValidLines(lines) && ValidEntries(entries, catalog)
    ensures var next := DropLinesOf(lines, id) + NewLines(id, entries);
      && ValidLines(next)
      && (forall l :: l in next ==> l in lines || (l.recipe == id && l.ingredient in catalog))
      && LinesOf(next, id) == NewLines(id, entries)
      && (forall other :: other != id ==> LinesOf(next, other) == LinesOf(lines, other))
  {
    var kept := DropLinesOf(lines, id);
    var added := NewLines(id, entries);
    NewLinesValid(id, entries, catalog);
    ValidLinesAppend(kept, added);
    LinesOfAppend(kept, added, id);
    LinesOfNone(kept, id);
    LinesOfAll(added, id);
    forall other | other != id ensures LinesOf(kept + added, other) == LinesOf(lines, other) {
      LinesOfAppend(kept, added, other);
      LinesOfNone(added, other);
    }
  }

  /** `create_ingredients` for a new recipe `id` that has no lines yet. */
  lemma AppendLines(lines: seq<Line>, id: Id, entries: seq<Entry>, catalog: set<Id>)
    requires ValidLines(lines) && ValidEntries(entries, catalog)
    requires forall l :: l in lines ==> l.recipe != id
    ensures var next := lines + NewLines(id, entries);
      && ValidLines(next)
      && (forall l :: l in next ==> l in lines || (l.recipe == id && l.ingredient in catalog))
      && LinesOf(next, id) == NewLines(id, entries)
      && (forall other :: other != id ==> LinesOf(next, other) == LinesOf(lines, other))
  {
    var added := NewLines(id, entries);
    NewLinesValid(id, entries, catalog);
    ValidLinesAppend(lines, added);
    LinesOfAppend(lines, added, id);
    LinesOfNone(lines, id);
    LinesOfAll(added, id);
    forall other | other != id ensures LinesOf(lines + added, other) == LinesOf(lines, other) {
      LinesOfAppend(lines, added, other);
      LinesOfNone(added, other);
    }
  }

  /**
   * A new recipe keeps `unique_author_recipe` exactly when it has no author
   * or its author has no recipe of that name.
   */
  lemma InsertKeepsNamesUnique(recipes: map<Id, Recipe>, id: Id, rec: Recipe)
    requires UniqueRecipeNames(recipes) && id !in recipes
    ensures UniqueRecipeNames(recipes[id := rec]) <==>
      (rec.author.Some? ==> !NameTaken(recipes, rec.name, rec.author.value, None))
  {
    var m := recipes[id := rec];
    if rec.author.Some? && NameTaken(recipes, rec.name, rec.author.value, None) {
      var j :| j in recipes && recipes[j].name == rec.name && recipes[j].author == rec.author;
      assert m[j] == recipes[j] && m[id] == rec && j != id;
    } else {
      forall a, b | a in m && b in m && a != b && m[a].author.Some?
        ensures m[a].name != m[b].name || m[a].author != m[b].author
      {
        if a == id {
          assert m[b] == recipes[b];
        } else if b == id {
          assert m[a] == recipes[a];
        }
      }
    }
  }

  /**
   * Renaming a recipe keeps `unique_author_recipe` exactly when it has no
   * author or no other recipe of its author has the new name.
   */
  lemma RenameKeepsNamesUnique(recipes: map<Id, Recipe>, id: Id, rec: Recipe)
    requires UniqueRecipeNames(recipes) && id in recipes && rec.author == recipes[id].author
    ensures UniqueRecipeNames(recipes[id := rec]) <==>
      (rec.author.Some? ==> !NameTaken(recipes, rec.name, rec.author.value, Some(id)))
  {
    var m := recipes[id := rec];
    if rec.author.Some? && NameTaken(recipes, rec.name, rec.author.value, Some(id)) {
      var j :| j in recipes && Some(j) != Some(id) && recipes[j].name == rec.name && recipes[j].author == rec.author;
      assert m[j] == recipes[j] && m[id] == rec && j != id;
    } else {
      forall a, b | a in m && b in m && a != b && m[a].author.Some?
        ensures m[a].name != m[b].name || m[a].author != m[b].author
      {
        if a == id {
          assert m[b] == recipes[b];
        } else if b == id {
          assert m[a] == recipes[a];
        }
      }
    }
  }

  /** Setting an author to NULL keeps `unique_author_recipe`: NULL authors are not compared. */
  lemma OrphanedKeepsNamesUnique(recipes: map<Id, Recipe>, author: Id)
    requires UniqueRecipeNames(recipes)
    ensures UniqueRecipeNames(Orphaned(recipes, author))
    ensures forall id :: id in recipes && Orphaned(recipes, author)[id].author.Some? ==>
      Orphaned(recipes, author)[id].author == recipes[id].author && recipes[id].author != Some(author)
  {
    var m := Orphaned(recipes, author);
    forall a, b | a in m && b in m && a != b && m[a].author.Some?
      ensures m[a].name != m[b].name || m[a].author != m[b].author
    {
      assert m[a] == recipes[a];
    }
  }

  /** The `for` loop of `download_file`: start from `header`, then `text +=` one line per group. */
  method RenderText(header: string, groups: seq<Group<ItemKey>>) returns (text: string)
    ensures text == header + RenderAll(groups)
  {
    text := header;
    var i := 0;
    while i < |groups|
      invariant 0 <= i <= |groups|
      invariant text == header + RenderAll(groups[..i])
    {
      RenderStep(header, groups, i);
      text := text + RenderLine(groups[i]);
      i := i + 1;
    }
    assert groups[..i] == groups;
  }

  /** One turn of the loop in `RenderText` extends the rendered prefix by one group. */
  lemma RenderStep(header: string, groups: seq<Group<ItemKey>>, i: nat)
    requires i < |groups|
    ensures header + RenderAll(groups[..i]) + RenderLine(groups[i]) == header + RenderAll(groups[..i + 1])
  {
    PrefixSnoc(groups, i);
    RenderAllSnoc(groups[..i], groups[i]);
    AppendAssoc(header, RenderAll(groups[..i]), RenderLine(groups[i]));
  }

  class Database {
    var users: map<Id, User>
    var tags: map<Id, Tag>
    var ingredients: map<Id, Ingredient>
    var recipes: map<Id, Recipe>
    /** The tag set of each recipe: the rows of the `tags` many-to-many table. */
    var recipeTags: map<Id, set<Id>>
    /** AmountIngredient, in insertion order. */
    var lines: seq<Line>
    /** The primary key the next recipe receives. */
    var nextRecipe: Id
    /** ShoppingCart rows (user, recipe). */
    const cart: PairLedger
    /** Favorites rows (user, recipe). */
    const favorites: PairLedger
    /** Subscription rows (user, author). */
    const subscriptions: PairLedger

    ghost predicate TablesValid()
      reads this
    {
      && UniqueUsers(users) && ValidTags(tags) && UniqueIngredients(ingredients)
      && UniqueRecipeNames(recipes) && ValidLines(lines)
    }

    ghost predicate RecipesLinked()
      reads this
    {
      && (forall id :: id in recipes && recipes[id].author.Some? ==> recipes[id].author.value in users)
      && recipeTags.Keys == recipes.Keys
      && (forall id :: id in recipeTags ==> recipeTags[id] <= tags.Keys)
      && (forall l :: l in lines ==> l.recipe in recipes && l.ingredient in ingredients)
      && (forall id :: id in recipes ==> id < nextRecipe)
    }

    ghost predicate LedgersLinked()
      reads this, cart, favorites, subscriptions
    {
      && (forall p :: p in cart.rows ==> p.0 in users && p.1 in recipes)
      && (forall p :: p in favorites.rows ==> p.0 in users && p.1 in recipes)
      && (forall p :: p in subscriptions.rows ==> p.0 in users && p.1 in users && p.0 != p.1)
    }

    ghost predicate Valid()
      reads this, cart, favorites, subscriptions
    {
      && cart != favorites && cart != subscriptions && favorites != subscriptions
      && cart.Valid() && favorites.Valid() && subscriptions.Valid()
      && TablesValid() && RecipesLinked() && LedgersLinked()
    }

    /** A database holding the given users, tags and ingredients and nothing else. */
    constructor (users0: map<Id, User>, tags0: map<Id, Tag>, ingredients0: map<Id, Ingredient>)
      requires UniqueUsers(users0) && ValidTags(tags0) && UniqueIngredients(ingredients0)
      ensures Valid()
      ensures users == users0 && tags == tags0 && ingredients == ingredients0
      ensures recipes == map[] && lines == [] && cart.rows == [] && favorites.rows == [] && subscriptions.rows == []
    {
      users, tags, ingredients := users0, tags0, ingredients0;
      recipes, recipeTags, lines, nextRecipe := map[], map[], [], 1;
      cart := new PairLedger();
      favorites := new PairLedger();
      subscriptions := new PairLedger();
    }

    // ---- Read-side flags ----

    /** RecipeListSerializer.get_is_favorited: no value for an anonymous viewer. */
    function IsFavorited(viewer: Viewer, recipe: Id): (r: Option<bool>)
      reads this, favorites
      ensures r.None? <==> viewer.Anonymous?
      ensures viewer.Authenticated? ==> (r == Some(true) <==> (viewer.id, recipe) in favorites.rows)
    {
      match viewer
      case Anonymous => None
      case Authenticated(u) => Some(favorites.Has(u, recipe))
    }

    /** RecipeListSerializer.get_is_in_shopping_cart: no value for an anonymous viewer. */
    function IsInShoppingCart(viewer: Viewer, recipe: Id): (r: Option<bool>)
      reads this, cart
      ensures r.None? <==> viewer.Anonymous?
      ensures viewer.Authenticated? ==> (r == Some(true) <==> (viewer.id, recipe) in cart.rows)
    {
      match viewer
      case Anonymous => None
      case Authenticated(u) => Some(cart.Has(u, recipe))
    }

    /** UserListSerializer.get_is_subscribed: false for an anonymous viewer. */
    function IsSubscribed(viewer: Viewer, author: Id): (r: bool)
      reads this, subscriptions
      ensures r <==> viewer.Authenticated? && (viewer.id, author) in subscriptions.rows
    {
      viewer.Authenticated? && subscriptions.Has(viewer.id, author)
    }

    // ---- Recipe writes ----

    /**
     * POST a recipe: the `tags` relation field, then `validate`, then
     * `create`: insert the recipe with `author`, set its tags to the payload's
     * tags and append one line per payload entry. A second recipe of the same
     * author with the same name breaks `unique_author_recipe`.
     */
    method CreateRecipe(author: Id, p: Payload) returns (r: Result<Id, Failure>)
      requires Valid() && author in users
      modifies this
      ensures Valid()
      ensures r == Err(TagsRejected) <==> !TagsResolve(p.tags, tags)
      ensures TagsResolve(p.tags, tags) && Validate(p, ingredients.Keys).Err? ==>
                r == Err(Invalid(Validate(p, ingredients.Keys).error))
      ensures TagsResolve(p.tags, tags) && Validate(p, ingredients.Keys).Ok? ==>
                (r == Err(ConstraintViolation) <==> NameTaken(old(recipes), p.name, author, None))
      ensures r.Ok? <==> TagsResolve(p.tags, tags) && Acceptable(p, ingredients.Keys)
                         && !NameTaken(old(recipes), p.name, author, None)
      ensures r.Err? ==> unchanged(this)
      ensures users == old(users) && tags == old(tags) && ingredients == old(ingredients)
      ensures r.Ok? ==>
        && r.value !in old(recipes)
        && recipes == old(recipes)[r.value := Recipe(p.name, p.text, Some(author), p.image, p.cookingTime)]
        && recipeTags == old(recipeTags)[r.value := Elements(p.tags)]
        && lines == old(lines) + NewLines(r.value, p.ingredients)
        && LinesOf(lines, r.value) == NewLines(r.value, p.ingredients)
        && (forall other :: other != r.value ==> LinesOf(lines, other) == LinesOf(old(lines), other))
    {
      if !TagsResolve(p.tags, tags) {
        return Err(TagsRejected);
      }
      ValidateAccepts(p, ingredients.Keys);
      match Validate(p, ingredients.Keys)
      case Err(e) =>
        return Err(Invalid(e));
      case Ok(_) =>
        if NameTaken(recipes, p.name, author, None) {
          return Err(ConstraintViolation);
        }
        var id := InsertRecipe(author, p);
        r := Ok(id);
    }

    /** `create` on validated data: the recipe row, its tag set, then its lines. */
    method InsertRecipe(author: Id, p: Payload) returns (id: Id)
      requires Valid() && author in users
      requires TagsResolve(p.tags, tags) && Acceptable(p, ingredients.Keys)
      requires !NameTaken(recipes, p.name, author, None)
      modifies this
      ensures Valid()
      ensures id !in old(recipes)
      ensures users == old(users) && tags == old(tags) && ingredients == old(ingredients)
      ensures recipes == old(recipes)[id := Recipe(p.name, p.text, Some(author), p.image, p.cookingTime)]
      ensures recipeTags == old(recipeTags)[id := Elements(p.tags)]
      ensures lines == old(lines) + NewLines(id, p.ingredients)
      ensures LinesOf(lines, id) == NewLines(id, p.ingredients)
      ensures forall other :: other != id ==> LinesOf(lines, other) == LinesOf(old(lines), other)
    {
      id := AddRecipeRow(author, p);
      AddLines(id, p.ingredients);
    }

    /** The recipe row with its author, and its tag set. */
    method AddRecipeRow(author: Id, p: Payload) returns (id: Id)
      requires Valid() && author in users
      requires TagsResolve(p.tags, tags)
      requires !NameTaken(recipes, p.name, author, None)
      modifies this
      ensures Valid()
      ensures id !in old(recipes) && id in recipes
      ensures users == old(users) && tags == old(tags) && ingredients == old(ingredients) && lines == old(lines)
      ensures recipes == old(recipes)[id := Recipe(p.name, p.text, Some(author), p.image, p.cookingTime)]
      ensures recipeTags == old(recipeTags)[id := Elements(p.tags)]
      ensures forall l :: l in lines ==> l.recipe != id
    {
      id := nextRecipe;
      var rec := Recipe(p.name, p.text, Some(author), p.image, p.cookingTime);
      InsertKeepsNamesUnique(recipes, id, rec);
      recipes := recipes[id := rec];
      recipeTags := recipeTags[id := Elements(p.tags)];
      nextRecipe := nextRecipe + 1;
      assert TablesValid();
      assert RecipesLinked();
    }

    /** `create_ingredients` for a recipe that has no lines yet: one line per entry, appended. */
    method AddLines(id: Id, entries: seq<Entry>)
      requires Valid() && id in recipes
      requires ValidEntries(entries, ingredients.Keys)
      requires forall l :: l in lines ==> l.recipe != id
      modifies this
      ensures Valid()
      ensures users == old(users) && tags == old(tags) && ingredients == old(ingredients)
      ensures recipes == old(recipes) && recipeTags == old(recipeTags)
      ensures lines == old(lines) + NewLines(id, entries)
      ensures LinesOf(lines, id) == NewLines(id, entries)
      ensures forall other :: other != id ==> LinesOf(lines, other) == LinesOf(old(lines), other)
    {
      AppendLines(lines, id, entries, ingredients.Keys);
      lines := lines + NewLines(id, entries);
      assert TablesValid();
      assert RecipesLinked();
    }

    /**
     * PUT a recipe: an unknown id first, then the `tags` relation field and
     * `validate`, then `update` with every field of the payload present.
     */
    method UpdateRecipe(id: Id, p: Payload) returns (r: Outcome<Failure>)
      requires Valid()
      modifies this
      ensures Valid()
      ensures r == Fail(NotFound) <==> id !in old(recipes)
      ensures id in old(recipes) && !TagsResolve(p.tags, tags) ==> r == Fail(TagsRejected)
      ensures id in old(recipes) && TagsResolve(p.tags, tags) && Validate(p, ingredients.Keys).Err? ==>
                r == Fail(Invalid(Validate(p, ingredients.Keys).error))
      ensures r == Pass || r == Fail(ConstraintViolation) ==>
        id in old(recipes) && TagsResolve(p.tags, tags) && Acceptable(p, ingredients.Keys)
      ensures r == Fail(ConstraintViolation) <==>
        && id in old(recipes) && TagsResolve(p.tags, tags) && Acceptable(p, ingredients.Keys)
        && old(recipes)[id].author.Some? && NameTaken(old(recipes), p.name, old(recipes)[id].author.value, Some(id))
      ensures r == Pass ==>
        recipes == old(recipes)[id := old(recipes)[id].(name := p.name, text := p.text, image := p.image, cookingTime := p.cookingTime)]
      ensures r == Pass || r == Fail(ConstraintViolation) ==>
        && recipeTags == old(recipeTags)[id := Elements(p.tags)]
        && LinesOf(lines, id) == NewLines(id, p.ingredients)
      ensures r.Fail? ==> recipes == old(recipes)
      ensures r.Fail? && r != Fail(ConstraintViolation) ==> unchanged(this)
      ensures users == old(users) && tags == old(tags) && ingredients == old(ingredients)
      ensures forall other :: other != id ==> LinesOf(lines, other) == LinesOf(old(lines), other)
    {
      if id !in recipes {
        return Fail(NotFound);
      }
      if !TagsResolve(p.tags, tags) {
        return Fail(TagsRejected);
      }
      ValidateAccepts(p, ingredients.Keys);
      if Validate(p, ingredients.Keys).Err? {
        return Fail(Invalid(Validate(p, ingredients.Keys).error));
      }
      r := ApplyUpdate(id, Changes(p.name, p.text, p.image, p.cookingTime, Some(p.tags), Some(p.ingredients)));
    }

    /**
     * RecipeEditSerializer.update on validated data: when `ingredients` is
     * given, clear the recipe's lines and create the new ones; when `tags`
     * is given, set the tag set to them; then overwrite the plain fields. The
     * author and every other recipe's lines and tags stay as they were. A new
     * name that another recipe of the same author has breaks
     * `unique_author_recipe` when the recipe is saved, after the lines and
     * tags were already replaced.
     */
    method ApplyUpdate(id: Id, c: Changes) returns (r: Outcome<Failure>)
      requires Valid() && id in recipes
      requires c.tags.Some? ==> TagsResolve(c.tags.value, tags) && Distinct(c.tags.value)
      requires c.ingredients.Some? ==> ValidEntries(c.ingredients.value, ingredients.Keys)
      modifies this
      ensures Valid()
      ensures var a := old(recipes)[id].author;
        r == Fail(ConstraintViolation) <==> a.Some? && NameTaken(old(recipes), c.name, a.value, Some(id))
      ensures r == Pass || r == Fail(ConstraintViolation)
      ensures users == old(users) && tags == old(tags) && ingredients == old(ingredients)
      ensures recipes ==
        if r == Pass
        then old(recipes)[id := old(recipes)[id].(name := c.name, text := c.text, image := c.image, cookingTime := c.cookingTime)]
        else old(recipes)
      ensures recipeTags == if c.tags.Some? then old(recipeTags)[id := Elements(c.tags.value)] else old(recipeTags)
      ensures LinesOf(lines, id) == if c.ingredients.Some? then NewLines(id, c.ingredients.value) else LinesOf(old(lines), id)
      ensures c.ingredients.None? ==> lines == old(lines)
      ensures forall other :: other != id ==> LinesOf(lines, other) == LinesOf(old(lines), other)
    {
      if c.ingredients.Some? {
        ReplaceIngredients(id, c.ingredients.value);
      }
      if c.tags.Some? {
        SetTags(id, c.tags.value);
      }
      var a := recipes[id].author;
      if a.Some? && NameTaken(recipes, c.name, a.value, Some(id)) {
        return Fail(ConstraintViolation);
      }
      Overwrite(id, c);
      r := Pass;
    }

    /** `instance.ingredients.clear()` then `create_ingredients`. */
    method ReplaceIngredients(id: Id, entries: seq<Entry>)
      requires Valid() && id in recipes && ValidEntries(entries, ingredients.Keys)
      modifies this
      ensures Valid()
      ensures lines == DropLinesOf(old(lines), id) + NewLines(id, entries)
      ensures LinesOf(lines, id) == NewLines(id, entries)
      ensures forall other :: other != id ==> LinesOf(lines, other) == LinesOf(old(lines), other)
      ensures users == old(users) && tags == old(tags) && ingredients == old(ingredients)
      ensures recipes == old(recipes) && recipeTags == old(recipeTags) && nextRecipe == old(nextRecipe)
    {
      ReplaceLines(lines, id, entries, ingredients.Keys);
      lines := DropLinesOf(lines, id) + NewLines(id, entries);
    }

    /** `instance.tags.set(tags)`: the tag set becomes exactly the given tags. */
    method SetTags(id: Id, ids: seq<Id>)
      requires Valid() && id in recipes && TagsResolve(ids, tags)
      modifies this
      ensures Valid()
      ensures recipeTags == old(recipeTags)[id := Elements(ids)]
      ensures users == old(users) && tags == old(tags) && ingredients == old(ingredients)
      ensures recipes == old(recipes) && lines == old(lines) && nextRecipe == old(nextRecipe)
    {
      recipeTags := recipeTags[id := Elements(ids)];
    }

    /** `super().update`: overwrite the plain fields; the author stays. */
    method Overwrite(id: Id, c: Changes)
      requires Valid() && id in recipes
      requires recipes[id].author.Some? ==> !NameTaken(recipes, c.name, recipes[id].author.value, Some(id))
      modifies this
      ensures Valid()
      ensures recipes == old(recipes)[id := old(recipes)[id].(name := c.name, text := c.text, image := c.image, cookingTime := c.cookingTime)]
      ensures users == old(users) && tags == old(tags) && ingredients == old(ingredients)
      ensures recipeTags == old(recipeTags) && lines == old(lines) && nextRecipe == old(nextRecipe)
    {
      var rec := recipes[id].(name := c.name, text := c.text, image := c.image, cookingTime := c.cookingTime);
      RenameKeepsNamesUnique(recipes, id, rec);
      recipes := recipes[id := rec];
    }

    /**
     * DELETE a recipe: its lines, tag links, cart rows and favorite rows go
     * with it (`on_delete=CASCADE`); nothing else changes.
     */
    method DeleteRecipe(id: Id) returns (r: Outcome<Failure>)
      requires Valid()
      modifies this, cart, favorites
      ensures Valid()
      ensures r == Fail(NotFound) <==> id !in old(recipes)
      ensures r.Fail? ==> unchanged(this, cart, favorites)
      ensures r == Pass ==>
        && recipes == old(recipes) - {id}
        && recipeTags == old(recipeTags) - {id}
        && lines == DropLinesOf(old(lines), id)
        && cart.rows == DropTarget(old(cart.rows), id)
        && favorites.rows == DropTarget(old(favorites.rows), id)
      ensures users == old(users) && subscriptions.rows == old(subscriptions.rows)
      ensures tags == old(tags) && ingredients == old(ingredients)
      ensures forall other :: other != id ==> LinesOf(lines, other) == LinesOf(old(lines), other)
    {
      if id !in recipes {
        return Fail(NotFound);
      }
      cart.RemoveTarget(id);
      favorites.RemoveTarget(id);
      DropRecipe(id);
      r := Pass;
    }

    /** The recipe row goes, with its tag links and its lines, once no cart or favorite row names it. */
    method DropRecipe(id: Id)
      requires Valid() && id in recipes
      requires forall p :: p in cart.rows ==> p.1 != id
      requires forall p :: p in favorites.rows ==> p.1 != id
      modifies this
      ensures Valid()
      ensures recipes == old(recipes) - {id} && recipeTags == old(recipeTags) - {id}
      ensures lines == DropLinesOf(old(lines), id)
      ensures users == old(users) && tags == old(tags) && ingredients == old(ingredients)
      ensures nextRecipe == old(nextRecipe)
    {
      recipes := recipes - {id};
      recipeTags := recipeTags - {id};
      lines := DropLinesOf(lines, id);
      assert TablesValid();
    }

    /**
     * Delete a user account: the user's recipes survive with no author
     * (`on_delete=SET_NULL`); the user's cart and favorite rows and the
     * subscriptions in either direction go (`on_delete=CASCADE`).
     */
    method DeleteUser(u: Id) returns (r: Outcome<Failure>)
      requires Valid()
      modifies this, cart, favorites, subscriptions
      ensures Valid()
      ensures r == Fail(NotFound) <==> u !in old(users)
      ensures r.Fail? ==> unchanged(this, cart, favorites, subscriptions)
      ensures r == Pass ==>
        && users == old(users) - {u}
        && recipes == Orphaned(old(recipes), u)
        && cart.rows == DropOwner(old(cart.rows), u)
        && favorites.rows == DropOwner(old(favorites.rows), u)
        && subscriptions.rows == DropTarget(DropOwner(old(subscriptions.rows), u), u)
      ensures recipes.Keys == old(recipes.Keys) && lines == old(lines)
      ensures tags == old(tags) && ingredients == old(ingredients) && recipeTags == old(recipeTags)
    {
      if u !in users {
        return Fail(NotFound);
      }
      DropRowsOf(u);
      DropAccount(u);
      r := Pass;
    }

    /** The `on_delete=CASCADE` part of deleting a user: every ledger row that names the user goes. */
    method DropRowsOf(u: Id)
      requires Valid()
      modifies cart, favorites, subscriptions
      ensures Valid()
      ensures cart.rows == DropOwner(old(cart.rows), u)
      ensures favorites.rows == DropOwner(old(favorites.rows), u)
      ensures subscriptions.rows == DropTarget(DropOwner(old(subscriptions.rows), u), u)
      ensures forall p :: p in cart.rows ==> p.0 != u
      ensures forall p :: p in favorites.rows ==> p.0 != u
      ensures forall p :: p in subscriptions.rows ==> p.0 != u && p.1 != u
    {
      cart.RemoveOwner(u);
      favorites.RemoveOwner(u);
      subscriptions.RemoveOwner(u);
      subscriptions.RemoveTarget(u);
    }

    /** The account row itself goes, and the user's recipes lose their author (`on_delete=SET_NULL`). */
    method DropAccount(u: Id)
      requires Valid() && u in users
      requires forall p :: p in cart.rows ==> p.0 != u
      requires forall p :: p in favorites.rows ==> p.0 != u
      requires forall p :: p in subscriptions.rows ==> p.0 != u && p.1 != u
      modifies this
      ensures Valid()
      ensures users == old(users) - {u}
      ensures recipes == Orphaned(old(recipes), u)
      ensures tags == old(tags) && ingredients == old(ingredients) && recipeTags == old(recipeTags)
      ensures lines == old(lines) && nextRecipe == old(nextRecipe)
    {
      OrphanedKeepsNamesUnique(recipes, u);
      users := users - {u};
      recipes := Orphaned(recipes, u);
      assert TablesValid();
      assert RecipesLinked();
      assert LedgersLinked();
    }

    // ---- Cart and favorites ----

    /** POST to the cart: refuse a pair already stored, then an unknown recipe; otherwise store (user, recipe). */
    method AddToCart(user: Id, recipe: Id) returns (r: Outcome<Failure>)
      requires Valid() && user in users
      modifies cart
      ensures Valid()
      ensures r == Fail(Duplicate(InCartMessage)) <==> old(cart.Has(user, recipe))
      ensures r == Fail(NotFound) <==> !old(cart.Has(user, recipe)) && recipe !in recipes
      ensures r == Pass <==> !old(cart.Has(user, recipe)) && recipe in recipes
      ensures cart.rows == if r == Pass then old(cart.rows) + [(user, recipe)] else old(cart.rows)
      ensures r == Pass ==> IsInShoppingCart(Authenticated(user), recipe) == Some(true)
      ensures forall u :: u != user ==> cart.TargetsOf(u) == old(cart.TargetsOf(u))
    {
      if cart.Has(user, recipe) {
        return Fail(Duplicate(InCartMessage));
      }
      if recipe !in recipes {
        return Fail(NotFound);
      }
      var _ := cart.Add(user, recipe);
      r := Pass;
    }

    /** DELETE from the cart: refuse an absent pair; otherwise delete exactly (user, recipe). */
    method RemoveFromCart(user: Id, recipe: Id) returns (r: Outcome<Failure>)
      requires Valid()
      modifies cart
      ensures Valid()
      ensures r == Fail(Absent(NotInCartMessage)) <==> !old(cart.Has(user, recipe))
      ensures r == Pass <==> old(cart.Has(user, recipe))
      ensures cart.rows == if r == Pass then Without(old(cart.rows), (user, recipe)) else old(cart.rows)
      ensures |cart.rows| == |old(cart.rows)| - (if r == Pass then 1 else 0)
      ensures IsInShoppingCart(Authenticated(user), recipe) == Some(false)
      ensures forall u :: u != user ==> cart.TargetsOf(u) == old(cart.TargetsOf(u))
    {
      if !cart.Has(user, recipe) {
        return Fail(Absent(NotInCartMessage));
      }
      var _ := cart.Remove(user, recipe);
      r := Pass;
    }

    /** POST to favorites: refuse a pair already stored, then an unknown recipe; otherwise store (user, recipe). */
    method AddToFavorites(user: Id, recipe: Id) returns (r: Outcome<Failure>)
      requires Valid() && user in users
      modifies favorites
      ensures Valid()
      ensures r == Fail(Duplicate(FavoritedMessage)) <==> old(favorites.Has(user, recipe))
      ensures r == Fail(NotFound) <==> !old(favorites.Has(user, recipe)) && recipe !in recipes
      ensures r == Pass <==> !old(favorites.Has(user, recipe)) && recipe in recipes
      ensures favorites.rows == if r == Pass then old(favorites.rows) + [(user, recipe)] else old(favorites.rows)
      ensures r == Pass ==> IsFavorited(Authenticated(user), recipe) == Some(true)
      ensures forall u :: u != user ==> favorites.TargetsOf(u) == old(favorites.TargetsOf(u))
    {
      if favorites.Has(user, recipe) {
        return Fail(Duplicate(FavoritedMessage));
      }
      if recipe !in recipes {
        return Fail(NotFound);
      }
      var _ := favorites.Add(user, recipe);
      r := Pass;
    }

    /** DELETE from favorites: refuse an absent pair; otherwise delete exactly (user, recipe). */
    method RemoveFromFavorites(user: Id, recipe: Id) returns (r: Outcome<Failure>)
      requires Valid()
      modifies favorites
      ensures Valid()
      ensures r == Fail(Absent(NotFavoritedMessage)) <==> !old(favorites.Has(user, recipe))
      ensures r == Pass <==> old(favorites.Has(user, recipe))
      ensures favorites.rows == if r == Pass then Without(old(favorites.rows), (user, recipe)) else old(favorites.rows)
      ensures |favorites.rows| == |old(favorites.rows)| - (if r == Pass then 1 else 0)
      ensures IsFavorited(Authenticated(user), recipe) == Some(false)
      ensures forall u :: u != user ==> favorites.TargetsOf(u) == old(favorites.TargetsOf(u))
    {
      if !favorites.Has(user, recipe) {
        return Fail(Absent(NotFavoritedMessage));
      }
      var _ := favorites.Remove(user, recipe);
      r := Pass;
    }

    // ---- Subscriptions ----

    /**
     * POST a subscription: refuse a pair already stored, then a user
     * following themselves, then an unknown author; otherwise store (user, author).
     */
    method Subscribe(user: Id, author: Id) returns (r: Outcome<Failure>)
      requires Valid() && user in users
      modifies subscriptions
      ensures Valid()
      ensures r == Fail(AlreadySubscribed) <==> old(subscriptions.Has(user, author))
      ensures r == Fail(SelfSubscription) <==> user == author
      ensures r == Fail(NotFound) <==> user != author && author !in users
      ensures r == Pass <==> user != author && author in users && !old(subscriptions.Has(user, author))
      ensures subscriptions.rows == if r == Pass then old(subscriptions.rows) + [(user, author)] else old(subscriptions.rows)
      ensures r == Pass ==> IsSubscribed(Authenticated(user), author)
      ensures forall u :: u != user ==> subscriptions.TargetsOf(u) == old(subscriptions.TargetsOf(u))
    {
      if subscriptions.Has(user, author) {
        return Fail(AlreadySubscribed);
      }
      if user == author {
        return Fail(SelfSubscription);
      }
      if author !in users {
        return Fail(NotFound);
      }
      var _ := subscriptions.Add(user, author);
      r := Pass;
    }

    /** DELETE a subscription: an unknown author first, then an absent pair; otherwise delete exactly (user, author). */
    method Unsubscribe(user: Id, author: Id) returns (r: Outcome<Failure>)
      requires Valid()
      modifies subscriptions
      ensures Valid()
      ensures r == Fail(NotFound) <==> author !in users
      ensures r == Fail(Absent(NotSubscribedMessage)) <==> author in users && !old(subscriptions.Has(user, author))
      ensures r == Pass <==> author in users && old(subscriptions.Has(user, author))
      ensures subscriptions.rows ==
        if r == Pass then Without(old(subscriptions.rows), (user, author)) else old(subscriptions.rows)
      ensures |subscriptions.rows| == |old(subscriptions.rows)| - (if r == Pass then 1 else 0)
      ensures !IsSubscribed(Authenticated(user), author)
      ensures forall u :: u != user ==> subscriptions.TargetsOf(u) == old(subscriptions.TargetsOf(u))
    {
      if author !in users {
        return Fail(NotFound);
      }
      if !subscriptions.Has(user, author) {
        return Fail(Absent(NotSubscribedMessage));
      }
      var _ := subscriptions.Remove(user, author);
      r := Pass;
    }

    // ---- The shopping list ----

    /**
     * `download_shopping_cart`: an empty cart is refused; otherwise the text is
     * the header followed by one line per (name, unit) group of the lines of
     * the user's cart recipes, appended group by group.
     */
    method DownloadShoppingList(user: Id) returns (r: Result<string, Failure>)
      requires Valid()
      ensures r.Err? <==> cart.TargetsOf(user) == []
      ensures r.Err? ==> r.error == EmptyCart
      ensures r.Ok? ==> Resolvable(lines, ingredients) && r.value == ShoppingText(cart.TargetsOf(user), lines, ingredients)
    {
      var inCart := cart.TargetsOf(user);
      if |inCart| == 0 {
        return Err(EmptyCart);
      }
      assert Resolvable(lines, ingredients);
      var text := RenderText(Header, ShoppingList(inCart, lines, ingredients));
      r := Ok(text);
    }
  }
}
