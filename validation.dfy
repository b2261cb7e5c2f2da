/**
 * The checks the API runs on a recipe payload before writing it
 * (RecipeEditSerializer.validate in backend/api/serializers.py), and the
 * first check of a password change (SetPasswordSerializer.validate).
 *
 * The recipe checks run in a fixed order and the first that fails decides
 * the single error that is raised; later checks are not run. `Validate`
 * is written the way the serializer computes (a loop that stops at the first
 * unknown id, list length against set size, a filtered list); `Acceptable`
 * and the `...Ok` predicates state the same requirements as plain
 * quantified facts, and the lemmas below connect the two.
 */
module Validation {
  import opened Outcomes
  import opened Text
  import opened Schema

  /** One `{id, amount}` element of the payload's `ingredients` list. */
  datatype Entry = Entry(id: Id, amount: int)

  /** A fully populated recipe payload; tag ids are as sent (the relation field checks them). */
  datatype Payload = Payload(
    name: string, text: string, image: string, cookingTime: int,
    tags: seq<Id>, ingredients: seq<Entry>)

  datatype Error =
    | NameTooShort
    | UnknownIngredient(id: Id)
    | RepeatedIngredients
    | RepeatedTags
    | AmountBelowMinimum
    | CookingTimeOutOfRange

  const MinNameLength: int := 4
  const MinAmount: int := 1
  const MinCookingTime: int := 1
  const MaxCookingTime: int := 300

  /** The key under which the error is reported; an error raised without a field goes under the framework's non-field key. */
  function Key(e: Error): (r: string)
    ensures r == "non_field_errors" <==> e.RepeatedIngredients?
  {
    match e
    case NameTooShort => "name"
    case UnknownIngredient(_) => "ingredients"
    case RepeatedIngredients => "non_field_errors"
    case RepeatedTags => "tags"
    case AmountBelowMinimum => "amount"
    case CookingTimeOutOfRange => "cooking_time"
  }

  const UnknownPrefix: string := "Ингредиента с id - "
  const UnknownSuffix: string := " нет"

  function Message(e: Error): string {
    match e
    case NameTooShort => "Название рецепта минимум 4 символа"
    case UnknownIngredient(id) => UnknownPrefix + IntToString(id) + UnknownSuffix
    case RepeatedIngredients => "Ингредиенты не должны повторяться!"
    case RepeatedTags => "Тэги не должны повторяться!"
    case AmountBelowMinimum => "Минимальное количество ингридиента 1"
    case CookingTimeOutOfRange => "Время приготовления блюда от 1 до 300 минут"
  }

  /** `[item['id'] for item in ingredients]` */
  function Ids(entries: seq<Entry>): (r: seq<Id>)
    ensures |r| == |entries| && forall i :: 0 <= i < |entries| ==> r[i] == entries[i].id
  {
    seq(|entries|, i requires 0 <= i < |entries| => entries[i].id)
  }

  /** `set(s)` */
  function Elements<T>(s: seq<T>): set<T> {
    set x | x in s
  }

  /** `len(s) != len(set(s))` */
  predicate HasRepeats<T(==)>(s: seq<T>) {
    |s| != |Elements(s)|
  }

  /** The loop over the ingredients: the id of the first entry with no Ingredient row. */
  function FirstUnknown(entries: seq<Entry>, catalog: set<Id>): (r: Option<Id>)
    ensures r.None? <==> KnownIngredients(entries, catalog)
    ensures r.Some? ==> exists i :: FirstUnknownAt(entries, catalog, i) && entries[i].id == r.value
  {
    if entries == [] then None
    else if entries[0].id !in catalog then
      assert FirstUnknownAt(entries, catalog, 0);
      Some(entries[0].id)
    else
      var r := FirstUnknown(entries[1..], catalog);
      if r.Some? then
        var i :| FirstUnknownAt(entries[1..], catalog, i) && entries[1..][i].id == r.value;
        assert FirstUnknownAt(entries, catalog, i + 1);
        r
      else
        r
  }

  /** `[item for item in amounts if item['amount'] < 1]` */
  function BelowMinimum(entries: seq<Entry>): (r: seq<Entry>)
    ensures forall e :: e in r <==> e in entries && e.amount < MinAmount
  {
    if entries == [] then []
    else (if entries[0].amount < MinAmount then [entries[0]] else []) + BelowMinimum(entries[1..])
  }

  /** RecipeEditSerializer.validate */
  function Validate(p: Payload, catalog: set<Id>): (r: Result<Payload, Error>)
    ensures r.Ok? ==> r.value == p
  {
    if |p.name| < MinNameLength then Err(NameTooShort)
    else
      match FirstUnknown(p.ingredients, catalog)
      case Some(id) => Err(UnknownIngredient(id))
      case None =>
        if HasRepeats(Ids(p.ingredients)) then Err(RepeatedIngredients)
        else if HasRepeats(p.tags) then Err(RepeatedTags)
        else if |BelowMinimum(p.ingredients)| > 0 then Err(AmountBelowMinimum)
        else if p.cookingTime > MaxCookingTime || p.cookingTime < MinCookingTime then Err(CookingTimeOutOfRange)
        else Ok(p)
  }

  // ---- The requirements stated directly ----

  predicate NameOk(p: Payload) {
    |p.name| >= MinNameLength
  }

  predicate KnownIngredients(entries: seq<Entry>, catalog: set<Id>) {
    forall i :: 0 <= i < |entries| ==> entries[i].id in catalog
  }

  /** Entry `i` is the first whose ingredient does not exist. */
  predicate FirstUnknownAt(entries: seq<Entry>, catalog: set<Id>, i: int) {
    && 0 <= i < |entries|
    && entries[i].id !in catalog
    && forall j :: 0 <= j < i ==> entries[j].id in catalog
  }

  predicate DistinctIngredients(entries: seq<Entry>) {
    forall i, j :: 0 <= i < j < |entries| ==> entries[i].id != entries[j].id
  }

  predicate AmountsOk(entries: seq<Entry>) {
    forall i :: 0 <= i < |entries| ==> entries[i].amount >= MinAmount
  }

  predicate CookingTimeOk(t: int) {
    MinCookingTime <= t <= MaxCookingTime
  }

  /** Every requirement on an ingredient list that is written to the database. */
  predicate ValidEntries(entries: seq<Entry>, catalog: set<Id>) {
    KnownIngredients(entries, catalog) && DistinctIngredients(entries) && AmountsOk(entries)
  }

  predicate Acceptable(p: Payload, catalog: set<Id>) {
    && NameOk(p)
    && ValidEntries(p.ingredients, catalog)
    && Distinct(p.tags)
    && CookingTimeOk(p.cookingTime)
  }

  /** A list has as many distinct elements as entries exactly when no element repeats. */
  lemma {:induction false} DistinctIffNoRepeats<T>(s: seq<T>)
    ensures |Elements(s)| <= |s|
    ensures !HasRepeats(s) <==> Distinct(s)
    decreases |s|
  {
    if s == [] {
      assert Elements(s) == {};
    } else {
      var init, x := s[..|s| - 1], s[|s| - 1];
      assert s == init + [x];
      DistinctIffNoRepeats(init);
      assert Elements(s) == Elements(init) + {x};
      if x in init {
        var k :| 0 <= k < |init| && init[k] == x;
        assert s[k] == s[|s| - 1];
        assert Elements(s) == Elements(init);
      } else {
        assert x !in Elements(init);
        assert |Elements(s)| == |Elements(init)| + 1;
        if Distinct(init) {
          forall i, j | 0 <= i < j < |s| ensures s[i] != s[j] {
            if j == |s| - 1 {
              assert s[i] == init[i];
            } else {
              assert s[i] == init[i] && s[j] == init[j];
            }
          }
        } else {
          var i, j :| 0 <= i < j < |init| && init[i] == init[j];
          assert s[i] == s[j];
        }
      }
    }
  }

  lemma NoRepeatedIds(entries: seq<Entry>)
    ensures !HasRepeats(Ids(entries)) <==> DistinctIngredients(entries)
  {
    DistinctIffNoRepeats(Ids(entries));
  }

  lemma {:induction false} NoneBelowMinimum(entries: seq<Entry>)
    ensures |BelowMinimum(entries)| == 0 <==> AmountsOk(entries)
  {
    if entries != [] {
      var rest := entries[1..];
      NoneBelowMinimum(rest);
      assert forall i :: 0 <= i < |rest| ==> rest[i] == entries[i + 1];
      assert AmountsOk(entries) <==> entries[0].amount >= MinAmount && AmountsOk(rest);
    }
  }

  /** The validator accepts a payload, returning it unchanged, exactly when every requirement holds. */
  lemma ValidateAccepts(p: Payload, catalog: set<Id>)
    ensures Validate(p, catalog) == Ok(p) <==> Acceptable(p, catalog)
    ensures Validate(p, catalog).Ok? ==> Validate(p, catalog).value == p
  {
    NoRepeatedIds(p.ingredients);
    DistinctIffNoRepeats(p.tags);
    NoneBelowMinimum(p.ingredients);
  }

  /**
   * Which error a rejected payload gets: the first failing check in the
   * order name, ingredient existence (the first unknown id in payload order),
   * repeated ingredients, repeated tags, amounts, cooking time.
   */
  lemma ValidateFirstFailure(p: Payload, catalog: set<Id>, id: Id)
    ensures Validate(p, catalog) == Err(NameTooShort) <==> !NameOk(p)
    ensures Validate(p, catalog) == Err(UnknownIngredient(id)) <==>
      NameOk(p) && exists i :: FirstUnknownAt(p.ingredients, catalog, i) && p.ingredients[i].id == id
    ensures Validate(p, catalog) == Err(RepeatedIngredients) <==>
      NameOk(p) && KnownIngredients(p.ingredients, catalog) && !DistinctIngredients(p.ingredients)
    ensures Validate(p, catalog) == Err(RepeatedTags) <==>
      && NameOk(p) && KnownIngredients(p.ingredients, catalog) && DistinctIngredients(p.ingredients)
      && !Distinct(p.tags)
    ensures Validate(p, catalog) == Err(AmountBelowMinimum) <==>
      && NameOk(p) && KnownIngredients(p.ingredients, catalog) && DistinctIngredients(p.ingredients)
      && Distinct(p.tags) && !AmountsOk(p.ingredients)
    ensures Validate(p, catalog) == Err(CookingTimeOutOfRange) <==>
      && NameOk(p) && ValidEntries(p.ingredients, catalog) && Distinct(p.tags)
      && !CookingTimeOk(p.cookingTime)
  {
    NoRepeatedIds(p.ingredients);
    DistinctIffNoRepeats(p.tags);
    NoneBelowMinimum(p.ingredients);
    UnknownReported(p, catalog, id);
  }

  /** A payload with a valid name is refused for exactly the first unknown ingredient id. */
  lemma UnknownReported(p: Payload, catalog: set<Id>, id: Id)
    ensures Validate(p, catalog) == Err(UnknownIngredient(id)) <==>
      NameOk(p) && exists i :: FirstUnknownAt(p.ingredients, catalog, i) && p.ingredients[i].id == id
  {
    if NameOk(p) && exists i :: FirstUnknownAt(p.ingredients, catalog, i) && p.ingredients[i].id == id {
      var i :| FirstUnknownAt(p.ingredients, catalog, i) && p.ingredients[i].id == id;
      var r := FirstUnknown(p.ingredients, catalog);
      var k :| FirstUnknownAt(p.ingredients, catalog, k) && p.ingredients[k].id == r.value;
      assert !(i < k) && !(k < i);
    }
  }

  /** The response body (key and message) tells every error apart, unknown ids included. */
  lemma ResponseIdentifiesError(a: Error, b: Error)
    ensures Key(a) == Key(b) && Message(a) == Message(b) ==> a == b
  {
    if Key(a) == Key(b) && Message(a) == Message(b) && a.UnknownIngredient? && b.UnknownIngredient? {
      UnknownIngredientMessageNamesId(a.id, b.id);
    }
  }

  /** The message of an unknown-ingredient error carries the id in decimal, which reads back as that id. */
  lemma UnknownIngredientMessageNamesId(a: Id, b: Id)
    ensures exists digits :: Message(UnknownIngredient(a)) == UnknownPrefix + digits + UnknownSuffix
                          && ParseInt(digits) == Some(a)
    ensures Message(UnknownIngredient(a)) == Message(UnknownIngredient(b)) ==> a == b
  {
    IntToStringRoundTrip(a);
    var da, db := IntToString(a), IntToString(b);
    if Message(UnknownIngredient(a)) == Message(UnknownIngredient(b)) {
      assert |da| == |db|;
      assert da == Message(UnknownIngredient(a))[|UnknownPrefix|..|UnknownPrefix| + |da|];
      assert db == Message(UnknownIngredient(b))[|UnknownPrefix|..|UnknownPrefix| + |db|];
      IntToStringInjective(a, b);
    }
  }

  // ---- SetPasswordSerializer.validate ----

  datatype PasswordError = SameAsCurrent | WrongCurrent

  function PasswordKey(e: PasswordError): string {
    match e
    case SameAsCurrent => "new_password"
    case WrongCurrent => "current_password"
  }

  /**
   * A new password equal to the current one is refused under `new_password`
   * before the current password is checked; `currentMatches` stands for the
   * answer of the password hasher, which is not part of this model.
   */
  function ValidatePasswordChange(newPassword: string, currentPassword: string, currentMatches: bool)
    : (r: Outcome<PasswordError>)
    ensures r == Fail(SameAsCurrent) <==> newPassword == currentPassword
    ensures r == Pass <==> newPassword != currentPassword && currentMatches
    ensures r.Fail? ==> PasswordKey(r.error) == (if newPassword == currentPassword then "new_password" else "current_password")
  {
    if newPassword == currentPassword then Fail(SameAsCurrent)
    else if !currentMatches then Fail(WrongCurrent)
    else Pass
  }
}
