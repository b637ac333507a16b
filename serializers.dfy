/** api/serializers.py: the validation of a recipe payload, the create and
    replace-all update of a recipe with its ingredient lines, the
    is_subscribed / is_favorited / is_in_shopping_cart flags, and the
    recipes_limit truncation of FollowUserSerializer. */
module Serializers {
  import opened Text
  import opened Tables
  import opened Models

  /** One item of the "ingredients" list of a payload: {"id": .., "amount": ..}. */
  datatype IngredientEntry = IngredientEntry(id: int, amount: int)

  /** The three checks validate_ingredients runs on each entry, in order. */
  datatype Rejection = Duplicate | Unknown | AmountBelowOne

  /** The verdict of validate_ingredients: the list passed, was empty, or
      entry `index` is the first to fail, for reason `why`. */
  datatype IngredientsCheck = Passed | Empty | Failed(index: nat, why: Rejection)

  function Ids(entries: seq<IngredientEntry>): (ids: seq<int>)
    ensures |ids| == |entries| && forall k :: 0 <= k < |entries| ==> ids[k] == entries[k].id
  {
    seq(|entries|, k requires 0 <= k < |entries| => entries[k].id)
  }

  /** A list the serializer accepts: non-empty, no id twice, every id in the
      catalog, every amount at least 1. */
  predicate IngredientsValid(entries: seq<IngredientEntry>, catalog: seq<Ingredient>) {
    && |entries| > 0
    && NoDuplicates(Ids(entries))
    && forall k :: 0 <= k < |entries| ==>
         FindIngredient(catalog, entries[k].id).Some? && entries[k].amount >= 1
  }

  /** What validate_ingredients says about entry i once entries[..i] passed:
      a repeated id first, then an id missing from the catalog, then an amount
      below 1; None when the entry passes all three. */
  function EntryVerdict(entries: seq<IngredientEntry>, catalog: seq<Ingredient>, i: nat): Option<Rejection>
    requires i < |entries|
  {
    if exists m :: 0 <= m < i && entries[m].id == entries[i].id then Some(Duplicate)
    else if FindIngredient(catalog, entries[i].id).None? then Some(Unknown)
    else if entries[i].amount < 1 then Some(AmountBelowOne)
    else None
  }

  /** The loop of validate_ingredients from position i on: it never reports
      an empty list, and a rejection names a position from i on. */
  function CheckFrom(entries: seq<IngredientEntry>, catalog: seq<Ingredient>, i: nat): (r: IngredientsCheck)
    ensures r != Empty
    ensures r.Failed? ==> i <= r.index < |entries|
    decreases |entries| - i
  {
    if i >= |entries| then Passed
    else match EntryVerdict(entries, catalog, i)
      case Some(why) => Failed(i, why)
      case None => CheckFrom(entries, catalog, i + 1)
  }

  /** validate_ingredients, as a function of the list and the catalog: an
      empty list is reported as such, and a rejection names an entry of the
      list. */
  function CheckIngredients(entries: seq<IngredientEntry>, catalog: seq<Ingredient>): (r: IngredientsCheck)
    ensures r == Empty <==> entries == []
    ensures r.Failed? ==> r.index < |entries|
  {
    if entries == [] then Empty else CheckFrom(entries, catalog, 0)
  }

  lemma {:induction false} CheckFromMeaning(entries: seq<IngredientEntry>, catalog: seq<Ingredient>, i: nat)
    requires i <= |entries|
    requires forall j :: 0 <= j < i ==> EntryVerdict(entries, catalog, j).None?
    ensures CheckFrom(entries, catalog, i) == Passed <==>
      forall j :: 0 <= j < |entries| ==> EntryVerdict(entries, catalog, j).None?
    ensures CheckFrom(entries, catalog, i).Failed? ==>
      var f := CheckFrom(entries, catalog, i);
      f.index < |entries|
      && (forall j :: 0 <= j < f.index ==> EntryVerdict(entries, catalog, j).None?)
      && EntryVerdict(entries, catalog, f.index) == Some(f.why)
    ensures !CheckFrom(entries, catalog, i).Empty?
    decreases |entries| - i
  {
    if i < |entries| && EntryVerdict(entries, catalog, i).None? {
      CheckFromMeaning(entries, catalog, i + 1);
    }
  }

  /** Every entry passing its own checks is the same as the list's ids being
      distinct, known and carrying an amount of at least 1. */
  lemma AllEntriesPass(entries: seq<IngredientEntry>, catalog: seq<Ingredient>)
    ensures (forall j :: 0 <= j < |entries| ==> EntryVerdict(entries, catalog, j).None?) <==>
      (NoDuplicates(Ids(entries))
       && forall k :: 0 <= k < |entries| ==>
            FindIngredient(catalog, entries[k].id).Some? && entries[k].amount >= 1)
  {
    var ids := Ids(entries);
    if forall j :: 0 <= j < |entries| ==> EntryVerdict(entries, catalog, j).None? {
      forall i, j | 0 <= i < j < |ids| ensures ids[i] != ids[j] {
        assert EntryVerdict(entries, catalog, j).None?;
      }
      forall k | 0 <= k < |entries|
        ensures FindIngredient(catalog, entries[k].id).Some? && entries[k].amount >= 1
      {
        assert EntryVerdict(entries, catalog, k).None?;
      }
    }
    if NoDuplicates(ids) && forall k :: 0 <= k < |entries| ==>
         FindIngredient(catalog, entries[k].id).Some? && entries[k].amount >= 1
    {
      forall j | 0 <= j < |entries| ensures EntryVerdict(entries, catalog, j).None? {
        assert !exists m :: 0 <= m < j && entries[m].id == entries[j].id by {
          forall m | 0 <= m < j ensures entries[m].id != entries[j].id {
            assert ids[m] != ids[j];
          }
        }
      }
    }
  }

  /** validate_ingredients accepts exactly the valid lists, reports an empty
      list as such, and otherwise names the first failing entry in list order
      with the first failing check for that entry. */
  lemma CheckIngredientsMeaning(entries: seq<IngredientEntry>, catalog: seq<Ingredient>)
    ensures CheckIngredients(entries, catalog) == Passed <==> IngredientsValid(entries, catalog)
    ensures CheckIngredients(entries, catalog) == Empty <==> entries == []
    ensures CheckIngredients(entries, catalog).Failed? ==>
      var f := CheckIngredients(entries, catalog);
      f.index < |entries|
      && (forall j :: 0 <= j < f.index ==> EntryVerdict(entries, catalog, j).None?)
      && EntryVerdict(entries, catalog, f.index) == Some(f.why)
  {
    AllEntriesPass(entries, catalog);
    if entries != [] {
      CheckFromMeaning(entries, catalog, 0);
    }
  }

  /** validate_ingredients: walks the list once, keeping the ids seen so far
      (all_ingredients), and stops at the first entry that fails. */
  method ValidateIngredients(value: seq<IngredientEntry>, catalog: seq<Ingredient>) returns (r: IngredientsCheck)
    ensures r == CheckIngredients(value, catalog)
    ensures r == Passed <==> IngredientsValid(value, catalog)
    ensures r == Empty <==> value == []
    ensures r.Failed? ==>
      r.index < |value|
      && (forall j :: 0 <= j < r.index ==> EntryVerdict(value, catalog, j).None?)
      && EntryVerdict(value, catalog, r.index) == Some(r.why)
  {
    CheckIngredientsMeaning(value, catalog);
    if value == [] {
      return Empty;
    }
    var seen: seq<int> := [];
    var i := 0;
    while i < |value|
      invariant 0 <= i <= |value|
      invariant forall x :: x in seen <==> exists m :: 0 <= m < i && value[m].id == x
      invariant CheckFrom(value, catalog, i) == CheckFrom(value, catalog, 0)
    {
      var id := value[i].id;
      if id in seen {
        return Failed(i, Duplicate);
      }
      seen := seen + [id];
      if FindIngredient(catalog, id).None? {
        return Failed(i, Unknown);
      }
      if value[i].amount < 1 {
        return Failed(i, AmountBelowOne);
      }
      i := i + 1;
    }
    return Passed;
  }

  // ---------------------------------------------------------------------
  // Error messages of validate_ingredients

  /** The unknown-id message as written: the f-string interpolates Python's
      builtin `id` function rather than the ingredient id, so the text is the
      same whatever the id. */
  function UnknownIngredientMessageAsWritten(ingredientId: int): string {
    "Ингредиента с <built-in function id> id не существует."
  }

  /** Two different ids produce the same message. */
  lemma UnknownIngredientMessageAsWrittenHidesId()
    ensures UnknownIngredientMessageAsWritten(1) == UnknownIngredientMessageAsWritten(2)
  {
  }

  /** The unknown-id message with the offending ingredient id in it. */
  function UnknownIngredientMessage(ingredientId: int): string {
    "Ингредиента с " + IntToString(ingredientId) + " id не существует."
  }

  /** The corrected message names the id: different ids, different messages. */
  lemma UnknownIngredientMessageNamesId(a: int, b: int)
    ensures UnknownIngredientMessage(a) == UnknownIngredientMessage(b) ==> a == b
  {
    if UnknownIngredientMessage(a) == UnknownIngredientMessage(b) {
      var p, u := "Ингредиента с ", " id не существует.";
      var sa, sb := IntToString(a), IntToString(b);
      assert UnknownIngredientMessage(a) == p + sa + u;
      assert UnknownIngredientMessage(b) == p + sb + u;
      assert |sa| == |sb|;
      assert sa == (p + sa + u)[|p|..|p| + |sa|];
      assert sb == (p + sb + u)[|p|..|p| + |sb|];
      IntToStringInjective(a, b);
    }
  }

  /** The text of the ValidationError validate_ingredients raises: there is
      one for every verdict but a pass. */
  function CheckMessage(entries: seq<IngredientEntry>, check: IngredientsCheck): (r: string)
    requires check.Failed? ==> check.index < |entries|
    ensures r == "" <==> check == Passed
  {
    match check
    case Passed => ""
    case Empty => "Ингредиенты не переданы"
    case Failed(i, Duplicate) => "Ингредиент не уникален"
    case Failed(i, Unknown) => UnknownIngredientMessage(entries[i].id)
    case Failed(i, AmountBelowOne) => "Количество ингредиента должно быть боьльше 1"
  }

  // ---------------------------------------------------------------------
  // Field-level validation of RecipeCreateSerializer / RecipeUpdateSerializer

  /** A recipe payload; None is a key absent from the request body. The image
      is the stored file reference (decoding is not modelled). */
  datatype RecipeInput = RecipeInput(
    name: Option<string>,
    image: Option<string>,
    text: Option<string>,
    cookingTime: Option<int>,
    ingredients: Option<seq<IngredientEntry>>)

  /** The serializer fields, in the order of Meta.fields. */
  datatype Field = Name | Image | Text | CookingTime | Ingredients

  datatype FieldError =
    | Required(field: Field)
    | Blank(field: Field)
    | NameTooLong
    | NullCharacter(field: Field)
    | CookingTimeBelowOne
    | EntryAmountBelowOne(entries: seq<nat>)
    | IngredientsRejected(check: IngredientsCheck, message: string)
    | IngredientsNotPassed

  /** An absent key: an error for a required field unless the update is partial. */
  function Missing(f: Field, required: bool, partial: bool): seq<FieldError> {
    if required && !partial then [Required(f)] else []
  }

  /** CharField(max_length=256): blank (empty once whitespace is stripped)
      is refused first; otherwise the stripped value goes through the
      length and the NUL-character validators, which both report. */
  function NameErrors(v: Option<string>, partial: bool): seq<FieldError> {
    match v
    case None => Missing(Name, true, partial)
    case Some(s) =>
      var t := Strip(s);
      if t == "" then [Blank(Name)]
      else (if |t| > 256 then [NameTooLong] else []) + (if '\0' in t then [NullCharacter(Name)] else [])
  }

  function ImageErrors(v: Option<string>, required: bool, partial: bool): seq<FieldError> {
    match v
    case None => Missing(Image, required, partial)
    case Some(_) => []
  }

  /** CharField(source='description'): blank refused, then the NUL-character
      validator on the stripped value. */
  function TextErrors(v: Option<string>, partial: bool): seq<FieldError> {
    match v
    case None => Missing(Text, true, partial)
    case Some(s) =>
      var t := Strip(s);
      if t == "" then [Blank(Text)] else if '\0' in t then [NullCharacter(Text)] else []
  }

  /** A text value DRF's CharField accepts: something other than whitespace,
      and no NUL character. */
  predicate TextAcceptable(s: string) {
    Strip(s) != "" && '\0' !in Strip(s)
  }

  /** A name DRF accepts: acceptable text of at most 256 characters once
      stripped. */
  predicate NameAcceptable(s: string) {
    TextAcceptable(s) && |Strip(s)| <= 256
  }

  /** IntegerField(min_value=1). */
  function CookingTimeErrors(v: Option<int>, partial: bool): seq<FieldError> {
    match v
    case None => Missing(CookingTime, true, partial)
    case Some(t) => if t < 1 then [CookingTimeBelowOne] else []
  }

  /** The positions of the entries whose amount is below 1, in order: what
      RecipeIngredientCreateSerializer's amount = IntegerField(min_value=1)
      reports for a many=True list. */
  function AmountsBelowOne(entries: seq<IngredientEntry>): (low: seq<nat>)
    ensures forall k: int :: k in low <==> 0 <= k < |entries| && entries[k].amount < 1
    ensures low == [] <==> forall k :: 0 <= k < |entries| ==> entries[k].amount >= 1
    decreases |entries|
  {
    if entries == [] then []
    else
      var n := |entries| - 1;
      var init := entries[..n];
      var low := AmountsBelowOne(init) + (if entries[n].amount < 1 then [n] else []);
      assert forall k :: 0 <= k < n ==> init[k] == entries[k];
      assert entries[n].amount < 1 ==> n in low;
      low
  }

  /** The nested list field: each entry is checked first, and only a list
      whose entries all pass reaches validate_ingredients. */
  function IngredientsErrors(v: Option<seq<IngredientEntry>>, catalog: seq<Ingredient>, partial: bool): seq<FieldError> {
    match v
    case None => Missing(Ingredients, true, partial)
    case Some(entries) =>
      var low := AmountsBelowOne(entries);
      if low != [] then [EntryAmountBelowOne(low)]
      else
        var check := CheckIngredients(entries, catalog);
        CheckIngredientsMeaning(entries, catalog);
        if check == Passed then [] else [IngredientsRejected(check, CheckMessage(entries, check))]
  }

  /** Serializer.to_internal_value: every field is validated and the errors
      of all fields are reported together. */
  function FieldErrors(input: RecipeInput, catalog: seq<Ingredient>, imageRequired: bool, partial: bool): seq<FieldError> {
    NameErrors(input.name, partial)
    + ImageErrors(input.image, imageRequired, partial)
    + TextErrors(input.text, partial)
    + CookingTimeErrors(input.cookingTime, partial)
    + IngredientsErrors(input.ingredients, catalog, partial)
  }

  /** RecipeCreateSerializer.to_internal_value: the field errors, then the
      check that an ingredient list was passed at all. */
  function CreateErrors(input: RecipeInput, catalog: seq<Ingredient>): seq<FieldError> {
    var errors := FieldErrors(input, catalog, true, false);
    if errors != [] then errors
    else if input.ingredients.None? || input.ingredients.value == [] then [IngredientsNotPassed]
    else []
  }

  /** RecipeUpdateSerializer.to_internal_value: the field errors (a partial
      update skips absent keys), then the check that the ingredients key is
      present. */
  function UpdateErrors(input: RecipeInput, catalog: seq<Ingredient>, partial: bool): seq<FieldError> {
    var errors := FieldErrors(input, catalog, false, partial);
    if errors != [] then errors
    else if input.ingredients.None? then [IngredientsNotPassed]
    else []
  }

  /** A create payload is accepted exactly when every field is present, the
      name and text are acceptable (not blank, no NUL character, the name
      within 256 characters once stripped), the cooking
      time is at least 1 and the ingredient list is valid. */
  lemma CreateAccepted(input: RecipeInput, catalog: seq<Ingredient>)
    ensures CreateErrors(input, catalog) == [] <==>
      && input.name.Some? && NameAcceptable(input.name.value)
      && input.image.Some?
      && input.text.Some? && TextAcceptable(input.text.value)
      && input.cookingTime.Some? && input.cookingTime.value >= 1
      && input.ingredients.Some? && IngredientsValid(input.ingredients.value, catalog)
  {
    if input.ingredients.Some? {
      CheckIngredientsMeaning(input.ingredients.value, catalog);
    }
  }

  /** An update payload is accepted exactly when it carries a valid
      ingredient list and every field it carries (every field but the image,
      when the update is not partial) is acceptable. */
  lemma UpdateAccepted(input: RecipeInput, catalog: seq<Ingredient>, partial: bool)
    ensures UpdateErrors(input, catalog, partial) == [] <==>
      && (if input.name.Some? then NameAcceptable(input.name.value) else partial)
      && (if input.text.Some? then TextAcceptable(input.text.value) else partial)
      && (if input.cookingTime.Some? then input.cookingTime.value >= 1 else partial)
      && input.ingredients.Some? && IngredientsValid(input.ingredients.value, catalog)
  {
    if input.ingredients.Some? {
      CheckIngredientsMeaning(input.ingredients.value, catalog);
    }
  }

  /** Cooking time below 1 is refused on create and on update. */
  lemma CookingTimeBelowOneRefused(input: RecipeInput, catalog: seq<Ingredient>, partial: bool)
    requires input.cookingTime.Some? && input.cookingTime.value < 1
    ensures CookingTimeBelowOne in CreateErrors(input, catalog)
    ensures CookingTimeBelowOne in UpdateErrors(input, catalog, partial)
  {
    var e1 := FieldErrors(input, catalog, true, false);
    var e2 := FieldErrors(input, catalog, false, partial);
    var before1 := NameErrors(input.name, false) + ImageErrors(input.image, true, false) + TextErrors(input.text, false);
    var before2 := NameErrors(input.name, partial) + ImageErrors(input.image, false, partial) + TextErrors(input.text, partial);
    assert e1[|before1|] == CookingTimeBelowOne;
    assert e2[|before2|] == CookingTimeBelowOne;
  }

  /** An empty ingredient list is refused with "Ингредиенты не переданы". */
  lemma EmptyIngredientsRefused(input: RecipeInput, catalog: seq<Ingredient>, partial: bool)
    requires input.ingredients == Some([])
    ensures IngredientsRejected(Empty, "Ингредиенты не переданы") in CreateErrors(input, catalog)
    ensures IngredientsRejected(Empty, "Ингредиенты не переданы") in UpdateErrors(input, catalog, partial)
  {
    var e := [IngredientsRejected(Empty, "Ингредиенты не переданы")];
    assert IngredientsErrors(input.ingredients, catalog, false) == e;
    assert IngredientsErrors(input.ingredients, catalog, partial) == e;
    var e1 := FieldErrors(input, catalog, true, false);
    var e2 := FieldErrors(input, catalog, false, partial);
    assert e1[|e1| - 1] == e[0];
    assert e2[|e2| - 1] == e[0];
  }

  /** An update without the ingredients key is refused, partial or not. */
  lemma UpdateWithoutIngredientsRefused(input: RecipeInput, catalog: seq<Ingredient>, partial: bool)
    requires input.ingredients.None?
    ensures UpdateErrors(input, catalog, partial) != []
  {
  }

  /** The amount check inside validate_ingredients never fires: an amount
      below 1 is already refused by the nested entry serializer, which runs
      first. */
  lemma AmountRejectionUnreachable(v: Option<seq<IngredientEntry>>, catalog: seq<Ingredient>, partial: bool, message: string, i: nat)
    ensures IngredientsRejected(Failed(i, AmountBelowOne), message) !in IngredientsErrors(v, catalog, partial)
  {
    if v.Some? && AmountsBelowOne(v.value) == [] {
      var entries := v.value;
      CheckIngredientsMeaning(entries, catalog);
      var check := CheckIngredients(entries, catalog);
      if check.Failed? {
        assert entries[check.index].amount >= 1;
      }
    }
  }

  // ---------------------------------------------------------------------
  // create and update

  /** The ingredient lines of a list of entries, in order. */
  function Lines(entries: seq<IngredientEntry>): (lines: seq<(int, int)>)
    ensures |lines| == |entries|
    ensures forall k :: 0 <= k < |entries| ==> lines[k] == (entries[k].id, entries[k].amount)
  {
    seq(|entries|, k requires 0 <= k < |entries| => (entries[k].id, entries[k].amount))
  }

  /** The AmountIngredientInRecipe rows created for recipe r, one per entry. */
  function Rows(r: int, entries: seq<IngredientEntry>): (rows: seq<Amount>)
    ensures |rows| == |entries|
    ensures forall k :: 0 <= k < |entries| ==> rows[k] == Amount(r, entries[k].id, entries[k].amount)
  {
    seq(|entries|, k requires 0 <= k < |entries| => Amount(r, entries[k].id, entries[k].amount))
  }

  /** The rows inserted for recipe r are its lines, in entry order, and no
      other recipe's. */
  lemma {:induction false} LinesOfRows(r: int, entries: seq<IngredientEntry>, q: int)
    ensures LinesOf(Rows(r, entries), q) == if q == r then Lines(entries) else []
    decreases |entries|
  {
    if entries != [] {
      var init := entries[..|entries| - 1];
      assert Rows(r, entries)[..|entries| - 1] == Rows(r, init);
      LinesOfRows(r, init, q);
      if q == r {
        assert Lines(entries) == Lines(init) + [Lines(entries)[|entries| - 1]];
      }
    }
  }

  /** The recipe a valid create payload describes, written by `author`. */
  function NewRecipe(author: int, input: RecipeInput): (recipe: Recipe)
    requires input.name.Some? && input.image.Some? && input.text.Some? && input.cookingTime.Some?
  {
    Recipe(author, Strip(input.name.value), input.image.value, Strip(input.text.value), input.cookingTime.value)
  }

  /** ModelSerializer.update: the fields present in the payload overwrite the
      recipe's; the author never changes. */
  function UpdatedRecipe(recipe: Recipe, input: RecipeInput): Recipe {
    Recipe(
      recipe.author,
      if input.name.Some? then Strip(input.name.value) else recipe.name,
      if input.image.Some? then input.image.value else recipe.image,
      if input.text.Some? then Strip(input.text.value) else recipe.description,
      if input.cookingTime.Some? then input.cookingTime.value else recipe.cookingTime)
  }

  /** The rows of a valid ingredient list for recipe `id`, appended to lines
      of other recipes, keep the line constraints. */
  lemma AppendRowsValid(rest: seq<Amount>, id: int, entries: seq<IngredientEntry>, keys: set<int>, catalog: seq<Ingredient>)
    requires AmountsValid(rest, keys, catalog) && id in keys
    requires forall k :: 0 <= k < |rest| ==> rest[k].recipe != id
    requires IngredientsValid(entries, catalog)
    ensures AmountsValid(rest + Rows(id, entries), keys, catalog)
  {
    var all := rest + Rows(id, entries);
    forall i, j | 0 <= i < j < |all|
      ensures all[i].recipe != all[j].recipe || all[i].ingredient != all[j].ingredient
    {
      if i >= |rest| {
        assert Ids(entries)[i - |rest|] != Ids(entries)[j - |rest|];
      } else if j < |rest| {
        assert all[i] == rest[i] && all[j] == rest[j];
      }
    }
  }

  /** Appending the rows of recipe `id` adds its lines and no other recipe's. */
  lemma AppendRowsLines(rest: seq<Amount>, id: int, entries: seq<IngredientEntry>)
    ensures forall q :: LinesOf(rest + Rows(id, entries), q) == LinesOf(rest, q) + (if q == id then Lines(entries) else [])
  {
    forall q ensures LinesOf(rest + Rows(id, entries), q) == LinesOf(rest, q) + (if q == id then Lines(entries) else []) {
      LinesOfAppend(rest, Rows(id, entries), q);
      LinesOfRows(id, entries, q);
    }
  }

  lemma WithoutRecipeValid(amounts: seq<Amount>, keys: set<int>, catalog: seq<Ingredient>, id: int)
    requires AmountsValid(amounts, keys, catalog)
    ensures AmountsValid(WithoutRecipe(amounts, id), keys, catalog)
    ensures forall k :: 0 <= k < |WithoutRecipe(amounts, id)| ==> WithoutRecipe(amounts, id)[k].recipe != id
  {
    var rest := WithoutRecipe(amounts, id);
    WithoutRecipeKeysUnique(amounts, id);
    WithoutRecipeRows(amounts, id);
    forall k | 0 <= k < |rest|
      ensures rest[k].amount >= 1 && rest[k].recipe in keys
      ensures FindIngredient(catalog, rest[k].ingredient).Some?
    {
      var m :| 0 <= m < |amounts| && amounts[m] == rest[k];
    }
  }

  /** Replacing the lines of recipe `id` by the rows of a list gives that
      recipe exactly the list's lines and leaves every other recipe's lines
      as they were. */
  lemma ReplaceLines(amounts: seq<Amount>, id: int, entries: seq<IngredientEntry>)
    ensures LinesOf(WithoutRecipe(amounts, id) + Rows(id, entries), id) == Lines(entries)
    ensures forall q :: q != id ==>
      LinesOf(WithoutRecipe(amounts, id) + Rows(id, entries), q) == LinesOf(amounts, q)
  {
    WithoutRecipeLines(amounts, id);
    AppendRowsLines(WithoutRecipe(amounts, id), id, entries);
  }

  /** Inserting a recipe under a fresh id together with the rows of a valid
      ingredient list keeps every constraint of the store. */
  lemma InsertKeepsValid(
    users: set<int>, catalog: seq<Ingredient>, recipes: map<int, Recipe>, amounts: seq<Amount>,
    follows: seq<(int, int)>, favorites: seq<(int, int)>, cart: seq<(int, int)>, nextRecipeId: int,
    recipe: Recipe, entries: seq<IngredientEntry>)
    requires StoreValid(users, catalog, recipes, amounts, follows, favorites, cart, nextRecipeId)
    requires recipe.author in users && recipe.cookingTime >= 1
    requires IngredientsValid(entries, catalog)
    ensures StoreValid(users, catalog, recipes[nextRecipeId := recipe], amounts + Rows(nextRecipeId, entries),
                       follows, favorites, cart, nextRecipeId + 1)
  {
    var id := nextRecipeId;
    var recipes' := recipes[id := recipe];
    FreshIdUnused(users, catalog, recipes, amounts, follows, favorites, cart, nextRecipeId);
    AppendRowsValid(amounts, id, entries, recipes'.Keys, catalog);
    AppendRowsLines(amounts, id, entries);
    forall q | q in recipes'
      ensures q < id + 1 && recipes'[q].author in users && recipes'[q].cookingTime >= 1
    {
    }
  }

  /** Replacing one recipe's row and all its lines with the rows of a valid
      ingredient list keeps every constraint of the store. */
  lemma ReplaceKeepsValid(
    users: set<int>, catalog: seq<Ingredient>, recipes: map<int, Recipe>, amounts: seq<Amount>,
    follows: seq<(int, int)>, favorites: seq<(int, int)>, cart: seq<(int, int)>, nextRecipeId: int,
    id: int, recipe: Recipe, entries: seq<IngredientEntry>)
    requires StoreValid(users, catalog, recipes, amounts, follows, favorites, cart, nextRecipeId)
    requires id in recipes && recipe.author in users && recipe.cookingTime >= 1
    requires IngredientsValid(entries, catalog)
    ensures StoreValid(users, catalog, recipes[id := recipe], WithoutRecipe(amounts, id) + Rows(id, entries),
                       follows, favorites, cart, nextRecipeId)
  {
    var rest := WithoutRecipe(amounts, id);
    var recipes' := recipes[id := recipe];
    assert recipes'.Keys == recipes.Keys;
    WithoutRecipeValid(amounts, recipes.Keys, catalog, id);
    AppendRowsValid(rest, id, entries, recipes.Keys, catalog);
    forall q | q in recipes' ensures LinesOf(rest + Rows(id, entries), q) != [] {
      WithoutRecipeLines(amounts, id);
      AppendRowsLines(rest, id, entries);
    }
    forall q | q in recipes'
      ensures q < nextRecipeId && recipes'[q].author in users && recipes'[q].cookingTime >= 1
    {
    }
    assert UserRecipeValid(favorites, users, recipes'.Keys);
    assert UserRecipeValid(cart, users, recipes'.Keys);
  }

  /** The loop of create and update: one AmountIngredientInRecipe row per
      entry, in list order, for recipe r. */
  method InsertLines(store: Store, r: int, entries: seq<IngredientEntry>)
    modifies store
    ensures store.db == old(store.db).(amounts := old(store.db.amounts) + Rows(r, entries))
  {
    var i := 0;
    while i < |entries|
      invariant 0 <= i <= |entries|
      invariant store.db == old(store.db).(amounts := old(store.db.amounts) + Rows(r, entries[..i]))
    {
      assert Rows(r, entries[..i + 1]) == Rows(r, entries[..i]) + [Amount(r, entries[i].id, entries[i].amount)];
      store.db := store.db.(amounts := store.db.amounts + [Amount(r, entries[i].id, entries[i].amount)]);
      i := i + 1;
    }
    assert entries[..i] == entries;
  }

  /** RecipeCreateSerializer.create: the recipe row under the next id, then
      its lines. */
  method InsertRecipe(store: Store, recipe: Recipe, entries: seq<IngredientEntry>) returns (id: int)
    requires store.Valid() && recipe.author in store.db.users && recipe.cookingTime >= 1
    requires IngredientsValid(entries, store.db.catalog)
    modifies store
    ensures store.Valid()
    ensures id == old(store.db.nextRecipeId) && id !in old(store.db.recipes)
    ensures store.db == old(store.db).(recipes := old(store.db.recipes)[id := recipe],
                                       amounts := old(store.db.amounts) + Rows(id, entries),
                                       nextRecipeId := id + 1)
    ensures LinesOf(store.db.amounts, id) == Lines(entries)
    ensures forall q :: q != id ==> LinesOf(store.db.amounts, q) == LinesOf(old(store.db.amounts), q)
  {
    var db := store.db;
    id := db.nextRecipeId;
    InsertKeepsValid(db.users, db.catalog, db.recipes, db.amounts, db.follows, db.favorites, db.cart, id, recipe, entries);
    FreshIdUnused(db.users, db.catalog, db.recipes, db.amounts, db.follows, db.favorites, db.cart, id);
    AppendRowsLines(db.amounts, id, entries);
    store.db := db.(recipes := db.recipes[id := recipe], nextRecipeId := id + 1);
    InsertLines(store, id, entries);
  }

  /** POST /recipes/: validation (400 with the errors), then
      RecipeCreateSerializer.create, which inserts the recipe with the
      requester as author and one AmountIngredientInRecipe row per entry
      (201). The author is the authenticated requester. */
  method CreateRecipe(store: Store, author: int, input: RecipeInput) returns (status: int, errors: seq<FieldError>, id: Option<int>)
    requires store.Valid() && author in store.db.users
    modifies store
    ensures store.Valid()
    ensures errors == CreateErrors(input, old(store.db.catalog))
    ensures status == if errors == [] then 201 else 400
    ensures errors != [] ==> id.None? && store.db == old(store.db)
    ensures errors == [] ==>
      && id == Some(old(store.db.nextRecipeId)) && id.value !in old(store.db.recipes)
      && store.db == old(store.db).(recipes := old(store.db.recipes)[id.value := NewRecipe(author, input)],
                                    amounts := old(store.db.amounts) + Rows(id.value, input.ingredients.value),
                                    nextRecipeId := old(store.db.nextRecipeId) + 1)
      && LinesOf(store.db.amounts, id.value) == Lines(input.ingredients.value)
      && (forall q :: q != id.value ==> LinesOf(store.db.amounts, q) == LinesOf(old(store.db.amounts), q))
  {
    errors := CreateErrors(input, store.db.catalog);
    if errors != [] {
      return 400, errors, None;
    }
    CreateAccepted(input, store.db.catalog);
    var rid := InsertRecipe(store, NewRecipe(author, input), input.ingredients.value);
    status, id := 201, Some(rid);
  }

  /** PUT/PATCH /recipes/{id}/: validation (400 with the errors), then
      RecipeUpdateSerializer.update: the payload's fields overwrite the
      recipe's, every old line of the recipe is deleted and one line per
      entry is inserted (200). */
  method UpdateRecipe(store: Store, id: int, input: RecipeInput, partial: bool) returns (status: int, errors: seq<FieldError>)
    requires store.Valid() && id in store.db.recipes
    modifies store
    ensures store.Valid()
    ensures errors == UpdateErrors(input, old(store.db.catalog), partial)
    ensures status == if errors == [] then 200 else 400
    ensures errors != [] ==> store.db == old(store.db)
    ensures errors == [] ==>
      && store.db == old(store.db).(recipes := old(store.db.recipes)[id := UpdatedRecipe(old(store.db.recipes)[id], input)],
                                    amounts := WithoutRecipe(old(store.db.amounts), id) + Rows(id, input.ingredients.value))
      && LinesOf(store.db.amounts, id) == Lines(input.ingredients.value)
      && (forall q :: q != id ==> LinesOf(store.db.amounts, q) == LinesOf(old(store.db.amounts), q))
  {
    errors := UpdateErrors(input, store.db.catalog, partial);
    if errors != [] {
      return 400, errors;
    }
    UpdateAccepted(input, store.db.catalog, partial);
    var entries := input.ingredients.value;
    var db := store.db;
    var recipe := UpdatedRecipe(db.recipes[id], input);
    ReplaceKeepsValid(db.users, db.catalog, db.recipes, db.amounts, db.follows, db.favorites, db.cart, db.nextRecipeId,
                      id, recipe, entries);
    ReplaceLines(db.amounts, id, entries);
    store.db := db.(recipes := db.recipes[id := recipe], amounts := WithoutRecipe(db.amounts, id));
    InsertLines(store, id, entries);
    status := 200;
  }

  // ---------------------------------------------------------------------
  // Read-side flags and recipes_limit

  /** get_is_subscribed, get_is_favorited and get_is_in_shopping_cart: false
      without an authenticated requester, otherwise whether the row
      (requester, target) exists in the table (Follow for an author,
      UserFavorite or WishList for a recipe). */
  function RelationFlag(requester: Option<int>, target: int, rows: seq<(int, int)>): (r: bool)
    ensures r <==> requester.Some? && (requester.value, target) in rows
  {
    match requester
    case None => false
    case Some(u) => exists k :: 0 <= k < |rows| && rows[k].0 == u && rows[k].1 == target
  }

  /** Python's s[:k]: the first k items, or all but the last -k when k is negative. */
  function SliceTo<T>(s: seq<T>, k: int): (r: seq<T>)
    ensures |r| <= |s| && r == s[..|r|]
    ensures k >= 0 ==> |r| == if k <= |s| then k else |s|
    ensures k < 0 ==> |r| == if |s| + k >= 0 then |s| + k else 0
  {
    if k >= 0 then (if k <= |s| then s[..k] else s)
    else if |s| + k >= 0 then s[..|s| + k]
    else []
  }

  /** FollowUserSerializer.to_representation: a non-empty recipes_limit that
      int() accepts cuts the author's recipe list to [:limit]; any other value
      leaves it alone. */
  function LimitRecipes<T>(recipes: seq<T>, hasRequest: bool, recipesLimit: Option<string>): (r: seq<T>)
    ensures |r| <= |recipes| && r == recipes[..|r|]
    ensures hasRequest && recipesLimit.Some? && recipesLimit.value != "" && ParseInt(recipesLimit.value).Some? ==>
      r == SliceTo(recipes, ParseInt(recipesLimit.value).value)
    ensures !(hasRequest && recipesLimit.Some? && ParseInt(recipesLimit.value).Some?) ==> r == recipes
  {
    if hasRequest && recipesLimit.Some? && recipesLimit.value != "" then
      match ParseInt(recipesLimit.value)
      case Some(k) => SliceTo(recipes, k)
      case None => recipes
    else recipes
  }

  /** A limit written as a number keeps exactly the first `limit` recipes. */
  lemma LimitRecipesByNumber<T>(recipes: seq<T>, limit: nat)
    ensures LimitRecipes(recipes, true, Some(IntToString(limit))) == recipes[..if limit <= |recipes| then limit else |recipes|]
  {
    ParseIntOfIntToString(limit);
  }

  /** int() reads the limit as Python does: surrounding whitespace, a plus
      sign and leading zeros are ignored, and a minus sign makes the slice
      drop recipes from the end. */
  lemma LimitRecipesWritten<T>(recipes: seq<T>, pre: string, sign: string, zeros: string, n: nat, post: string)
    requires forall k :: 0 <= k < |pre| ==> IsSpace(pre[k])
    requires forall k :: 0 <= k < |post| ==> IsSpace(post[k])
    requires sign == "" || sign == "+" || sign == "-"
    requires forall k :: 0 <= k < |zeros| ==> zeros[k] == '0'
    ensures var limit := pre + (sign + (zeros + IntToString(n))) + post;
      LimitRecipes(recipes, true, Some(limit)) == SliceTo(recipes, if sign == "-" then 0 - n else n)
  {
    ParseIntWritten(pre, sign, zeros, n, post);
  }

  /** recipes_limit=-1 shows every recipe but the last. */
  lemma LimitRecipesMinusOne<T>(recipes: seq<T>)
    requires recipes != []
    ensures LimitRecipes(recipes, true, Some("-1")) == recipes[..|recipes| - 1]
  {
    assert IntToString(1) == "1";
    ParseIntWritten("", "-", "", 1, "");
    assert "" + ("-" + ("" + IntToString(1))) + "" == "-1";
  }

  /** A limit int() refuses leaves the list unchanged. */
  lemma LimitRecipesUnparsable<T>(recipes: seq<T>, hasRequest: bool, recipesLimit: string)
    requires ParseInt(recipesLimit).None?
    ensures LimitRecipes(recipes, hasRequest, Some(recipesLimit)) == recipes
  {
  }
}
