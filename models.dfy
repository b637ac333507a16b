/** The schema of recipes/models.py: the ingredient catalog, recipes, their
    ingredient lines and the three user relations, held by a Store whose
    Valid() is the conjunction of the schema's declared constraints. */
module Models {
  import opened Text
  import opened Tables

  /** Ingredient.Measurment: the twelve units an ingredient can be measured in. */
  datatype Unit =
    | Gram | Milliliter | Pieces | TeaSpoon | TableSpoon | Drop
    | Jar | Chunk | Handful | Sprig | Pinch | Glass

  /** The value stored in the `measurment` column. */
  function UnitLabel(u: Unit): string {
    match u
    case Gram => "г"
    case Milliliter => "мл"
    case Pieces => "шт"
    case TeaSpoon => "ч. л."
    case TableSpoon => "ст. л."
    case Drop => "капля"
    case Jar => "банка"
    case Chunk => "кусок"
    case Handful => "горсть"
    case Sprig => "веточка"
    case Pinch => "щепотка"
    case Glass => "стакан"
  }

  /** The `choices` check on the column: a stored string is one of the twelve labels. */
  function ParseUnit(stored: string): (u: Option<Unit>)
    ensures u.Some? ==> UnitLabel(u.value) == stored
  {
    if stored == "г" then Some(Gram)
    else if stored == "мл" then Some(Milliliter)
    else if stored == "шт" then Some(Pieces)
    else if stored == "ч. л." then Some(TeaSpoon)
    else if stored == "ст. л." then Some(TableSpoon)
    else if stored == "капля" then Some(Drop)
    else if stored == "банка" then Some(Jar)
    else if stored == "кусок" then Some(Chunk)
    else if stored == "горсть" then Some(Handful)
    else if stored == "веточка" then Some(Sprig)
    else if stored == "щепотка" then Some(Pinch)
    else if stored == "стакан" then Some(Glass)
    else None
  }

  /** Every unit's label passes the choices check and names that unit again,
      so grouping by label and grouping by unit agree. */
  lemma ParseUnitLabel(u: Unit)
    ensures ParseUnit(UnitLabel(u)) == Some(u)
  {
  }

  datatype Ingredient = Ingredient(id: int, name: string, unit: Unit)

  datatype Recipe = Recipe(author: int, name: string, image: string, description: string, cookingTime: int)

  /** A row of AmountIngredientInRecipe: `amount` of ingredient `ingredient` in recipe `recipe`. */
  datatype Amount = Amount(recipe: int, ingredient: int, amount: int)

  /** Ingredient ids are primary keys, and (name, measurment) is unique_ingredient. */
  predicate CatalogValid(catalog: seq<Ingredient>) {
    && (forall i, j :: 0 <= i < j < |catalog| ==> catalog[i].id != catalog[j].id)
    && (forall i, j :: 0 <= i < j < |catalog| ==>
          catalog[i].name != catalog[j].name || catalog[i].unit != catalog[j].unit)
  }

  /** Ingredient.objects.filter(id=id): the catalog row with that id, if any. */
  function FindIngredient(catalog: seq<Ingredient>, id: int): (r: Option<Ingredient>)
    ensures r.Some? ==> r.value in catalog && r.value.id == id
    ensures r.None? ==> forall k :: 0 <= k < |catalog| ==> catalog[k].id != id
  {
    if catalog == [] then None
    else if catalog[0].id == id then Some(catalog[0])
    else FindIngredient(catalog[1..], id)
  }

  /** unique_recipe_ingredient: no two rows share (recipe, ingredient). */
  predicate AmountKeysUnique(amounts: seq<Amount>) {
    forall i, j :: 0 <= i < j < |amounts| ==>
      amounts[i].recipe != amounts[j].recipe || amounts[i].ingredient != amounts[j].ingredient
  }

  /** Every line has amount >= 1, points at an existing recipe and ingredient,
      and (recipe, ingredient) is unique. */
  predicate AmountsValid(amounts: seq<Amount>, recipeIds: set<int>, catalog: seq<Ingredient>) {
    && (forall k :: 0 <= k < |amounts| ==>
          amounts[k].amount >= 1 && amounts[k].recipe in recipeIds
          && FindIngredient(catalog, amounts[k].ingredient).Some?)
    && AmountKeysUnique(amounts)
  }

  /** get_unique_follow and check_self_follow, plus both foreign keys. */
  predicate FollowsValid(follows: seq<(int, int)>, users: set<int>) {
    && NoDuplicates(follows)
    && forall k :: 0 <= k < |follows| ==>
         follows[k].0 != follows[k].1 && follows[k].0 in users && follows[k].1 in users
  }

  /** UserFavorite and WishList: (user, recipe) unique, both foreign keys valid. */
  predicate UserRecipeValid(rows: seq<(int, int)>, users: set<int>, recipeIds: set<int>) {
    && NoDuplicates(rows)
    && forall k :: 0 <= k < |rows| ==> rows[k].0 in users && rows[k].1 in recipeIds
  }

  /** recipe.amountingredientinrecipe_set: the (ingredient, amount) lines of
      recipe r, in table order. */
  function LinesOf(amounts: seq<Amount>, r: int): seq<(int, int)>
    decreases |amounts|
  {
    if amounts == [] then []
    else
      var last := amounts[|amounts| - 1];
      LinesOf(amounts[..|amounts| - 1], r) + (if last.recipe == r then [(last.ingredient, last.amount)] else [])
  }

  lemma {:induction false} LinesOfAppend(a: seq<Amount>, b: seq<Amount>, r: int)
    ensures LinesOf(a + b, r) == LinesOf(a, r) + LinesOf(b, r)
    decreases |b|
  {
    if b != [] {
      var b' := b[..|b| - 1];
      assert (a + b)[..|a + b| - 1] == a + b';
      LinesOfAppend(a, b', r);
    } else {
      assert a + b == a;
    }
  }

  /** A recipe has a line exactly when some row of the table belongs to it. */
  lemma {:induction false} LinesOfNonEmpty(amounts: seq<Amount>, r: int)
    ensures LinesOf(amounts, r) != [] <==> exists k :: 0 <= k < |amounts| && amounts[k].recipe == r
    decreases |amounts|
  {
    if amounts != [] {
      var init := amounts[..|amounts| - 1];
      LinesOfNonEmpty(init, r);
      if exists k :: 0 <= k < |init| && init[k].recipe == r {
        var k :| 0 <= k < |init| && init[k].recipe == r;
        assert amounts[k] == init[k];
      }
    }
  }

  /** instance.amountingredientinrecipe_set.all().delete(): the rows of
      every other recipe, in order. */
  function WithoutRecipe(amounts: seq<Amount>, r: int): seq<Amount>
    decreases |amounts|
  {
    if amounts == [] then []
    else
      var last := amounts[|amounts| - 1];
      WithoutRecipe(amounts[..|amounts| - 1], r) + (if last.recipe != r then [last] else [])
  }

  /** The rows left are exactly the rows of other recipes. */
  lemma {:induction false} WithoutRecipeRows(amounts: seq<Amount>, r: int)
    ensures var rest := WithoutRecipe(amounts, r);
      && (forall k :: 0 <= k < |rest| ==> rest[k] in amounts && rest[k].recipe != r)
      && (forall k :: 0 <= k < |amounts| && amounts[k].recipe != r ==> amounts[k] in rest)
    decreases |amounts|
  {
    if amounts != [] {
      var last := amounts[|amounts| - 1];
      var init := amounts[..|amounts| - 1];
      WithoutRecipeRows(init, r);
      assert amounts == init + [last];
    }
  }

  /** Deleting a recipe's lines leaves it without lines and leaves every
      other recipe's lines exactly as they were. */
  lemma {:induction false} WithoutRecipeLines(amounts: seq<Amount>, r: int)
    ensures LinesOf(WithoutRecipe(amounts, r), r) == []
    ensures forall q :: q != r ==> LinesOf(WithoutRecipe(amounts, r), q) == LinesOf(amounts, q)
    decreases |amounts|
  {
    if amounts != [] {
      var last := amounts[|amounts| - 1];
      var init := amounts[..|amounts| - 1];
      WithoutRecipeLines(init, r);
      var rest := WithoutRecipe(init, r);
      var tail := if last.recipe != r then [last] else [];
      assert WithoutRecipe(amounts, r) == rest + tail;
      forall q ensures LinesOf(rest + tail, q) == LinesOf(rest, q) + LinesOf(tail, q) {
        LinesOfAppend(rest, tail, q);
      }
    }
  }

  /** Deleting rows keeps (recipe, ingredient) unique. */
  lemma {:induction false} WithoutRecipeKeysUnique(amounts: seq<Amount>, r: int)
    requires AmountKeysUnique(amounts)
    ensures AmountKeysUnique(WithoutRecipe(amounts, r))
    decreases |amounts|
  {
    if amounts != [] {
      var last := amounts[|amounts| - 1];
      var init := amounts[..|amounts| - 1];
      assert AmountKeysUnique(init) by {
        forall i, j | 0 <= i < j < |init|
          ensures init[i].recipe != init[j].recipe || init[i].ingredient != init[j].ingredient
        {
          assert init[i] == amounts[i] && init[j] == amounts[j];
        }
      }
      WithoutRecipeKeysUnique(init, r);
      WithoutRecipeRows(init, r);
      var rest := WithoutRecipe(init, r);
      if last.recipe != r {
        var all := rest + [last];
        assert WithoutRecipe(amounts, r) == all;
        forall i, j | 0 <= i < j < |all|
          ensures all[i].recipe != all[j].recipe || all[i].ingredient != all[j].ingredient
        {
          if j == |rest| {
            assert all[i] == rest[i] && rest[i] in init;
            var m :| 0 <= m < |init| && init[m] == rest[i];
            assert amounts[m] == init[m];
          } else {
            assert all[i] == rest[i] && all[j] == rest[j];
          }
        }
      } else {
        assert WithoutRecipe(amounts, r) == rest;
      }
    }
  }

  /** on_delete=CASCADE from a recipe: the (user, recipe) rows that do not
      point at r, in order. */
  function WithoutTarget(rows: seq<(int, int)>, r: int): seq<(int, int)>
    decreases |rows|
  {
    if rows == [] then []
    else
      WithoutTarget(rows[..|rows| - 1], r) + (if rows[|rows| - 1].1 != r then [rows[|rows| - 1]] else [])
  }

  /** The rows left are exactly the rows that point at another recipe. */
  lemma {:induction false} WithoutTargetRows(rows: seq<(int, int)>, r: int)
    ensures var rest := WithoutTarget(rows, r);
      && (forall k :: 0 <= k < |rest| ==> rest[k] in rows && rest[k].1 != r)
      && (forall k :: 0 <= k < |rows| && rows[k].1 != r ==> rows[k] in rest)
    decreases |rows|
  {
    if rows != [] {
      var init := rows[..|rows| - 1];
      WithoutTargetRows(init, r);
      assert rows == init + [rows[|rows| - 1]];
    }
  }

  lemma {:induction false} WithoutTargetNoDuplicates(rows: seq<(int, int)>, r: int)
    requires NoDuplicates(rows)
    ensures NoDuplicates(WithoutTarget(rows, r))
    decreases |rows|
  {
    if rows != [] {
      var init := rows[..|rows| - 1];
      var last := rows[|rows| - 1];
      assert NoDuplicates(init) by {
        forall i, j | 0 <= i < j < |init| ensures init[i] != init[j] {
          assert init[i] == rows[i] && init[j] == rows[j];
        }
      }
      WithoutTargetNoDuplicates(init, r);
      WithoutTargetRows(init, r);
      if last.1 != r {
        var rest := WithoutTarget(init, r);
        assert last !in rest;
        NoDuplicatesAppend(rest, last);
      }
    }
  }

  /** AmountIngredientInRecipe.__str__: "{name} - {amount} {measurment}". */
  function AmountLabel(ingredient: Ingredient, amount: int): string {
    ingredient.name + " - " + IntToString(amount) + " " + UnitLabel(ingredient.unit)
  }

  /** The label of a line determines its amount. */
  lemma AmountLabelShowsAmount(ingredient: Ingredient, a: int, b: int)
    ensures AmountLabel(ingredient, a) == AmountLabel(ingredient, b) ==> a == b
  {
    if AmountLabel(ingredient, a) == AmountLabel(ingredient, b) {
      SameMiddle(ingredient.name + " - ", IntToString(a), IntToString(b), " ", UnitLabel(ingredient.unit));
      IntToStringInjective(a, b);
    }
  }

  /** Two strings with the same text around them are equal. */
  lemma SameMiddle(p: string, x: string, y: string, sp: string, u: string)
    requires p + x + sp + u == p + y + sp + u
    ensures x == y
  {
    var l, r := p + x + sp + u, p + y + sp + u;
    assert |x| == |y|;
    assert forall k :: 0 <= k < |x| ==> x[k] == l[|p| + k] == r[|p| + k] == y[k];
  }

  /** Every recipe has an id below the next one, an existing author and a
      cooking time of at least one minute. */
  predicate RecipesValid(recipes: map<int, Recipe>, users: set<int>, nextRecipeId: int) {
    forall id :: id in recipes ==>
      id < nextRecipeId && recipes[id].author in users && recipes[id].cookingTime >= 1
  }

  /** Every recipe has at least one ingredient line. */
  predicate RecipesHaveLines(recipes: map<int, Recipe>, amounts: seq<Amount>) {
    forall id :: id in recipes ==> LinesOf(amounts, id) != []
  }

  /** The store's invariant, over the contents of its tables. */
  ghost predicate StoreValid(
    users: set<int>, catalog: seq<Ingredient>, recipes: map<int, Recipe>, amounts: seq<Amount>,
    follows: seq<(int, int)>, favorites: seq<(int, int)>, cart: seq<(int, int)>, nextRecipeId: int)
  {
    && CatalogValid(catalog)
    && RecipesValid(recipes, users, nextRecipeId)
    && AmountsValid(amounts, recipes.Keys, catalog)
    && RecipesHaveLines(recipes, amounts)
    && FollowsValid(follows, users)
    && UserRecipeValid(favorites, users, recipes.Keys)
    && UserRecipeValid(cart, users, recipes.Keys)
  }

  /** The next id belongs to no recipe and to no line. */
  lemma FreshIdUnused(
    users: set<int>, catalog: seq<Ingredient>, recipes: map<int, Recipe>, amounts: seq<Amount>,
    follows: seq<(int, int)>, favorites: seq<(int, int)>, cart: seq<(int, int)>, nextRecipeId: int)
    requires StoreValid(users, catalog, recipes, amounts, follows, favorites, cart, nextRecipeId)
    ensures nextRecipeId !in recipes
    ensures forall k :: 0 <= k < |amounts| ==> amounts[k].recipe != nextRecipeId
    ensures LinesOf(amounts, nextRecipeId) == []
  {
    forall k | 0 <= k < |amounts| ensures amounts[k].recipe != nextRecipeId {
      assert amounts[k].recipe in recipes;
    }
    LinesOfNonEmpty(amounts, nextRecipeId);
  }

  /** Deleting a recipe's row with its cascade keeps every constraint. */
  lemma CascadeKeepsValid(
    users: set<int>, catalog: seq<Ingredient>, recipes: map<int, Recipe>, amounts: seq<Amount>,
    follows: seq<(int, int)>, favorites: seq<(int, int)>, cart: seq<(int, int)>, nextRecipeId: int,
    id: int)
    requires StoreValid(users, catalog, recipes, amounts, follows, favorites, cart, nextRecipeId)
    ensures StoreValid(users, catalog, recipes - {id}, WithoutRecipe(amounts, id), follows,
                       WithoutTarget(favorites, id), WithoutTarget(cart, id), nextRecipeId)
  {
    AmountsCascade(amounts, recipes, catalog, id);
    LinesCascade(recipes, amounts, id);
    RecipeRowsCascade(favorites, users, recipes, id);
    RecipeRowsCascade(cart, users, recipes, id);
  }

  lemma AmountsCascade(amounts: seq<Amount>, recipes: map<int, Recipe>, catalog: seq<Ingredient>, id: int)
    requires AmountsValid(amounts, recipes.Keys, catalog)
    ensures AmountsValid(WithoutRecipe(amounts, id), (recipes - {id}).Keys, catalog)
  {
    var amounts' := WithoutRecipe(amounts, id);
    WithoutRecipeKeysUnique(amounts, id);
    WithoutRecipeRows(amounts, id);
    forall k | 0 <= k < |amounts'|
      ensures amounts'[k].amount >= 1 && amounts'[k].recipe in (recipes - {id}).Keys
      ensures FindIngredient(catalog, amounts'[k].ingredient).Some?
    {
      var m :| 0 <= m < |amounts| && amounts[m] == amounts'[k];
    }
  }

  lemma LinesCascade(recipes: map<int, Recipe>, amounts: seq<Amount>, id: int)
    requires RecipesHaveLines(recipes, amounts)
    ensures RecipesHaveLines(recipes - {id}, WithoutRecipe(amounts, id))
  {
    WithoutRecipeLines(amounts, id);
  }

  lemma RecipeRowsCascade(rows: seq<(int, int)>, users: set<int>, recipes: map<int, Recipe>, id: int)
    requires UserRecipeValid(rows, users, recipes.Keys)
    ensures UserRecipeValid(WithoutTarget(rows, id), users, (recipes - {id}).Keys)
  {
    WithoutTargetNoDuplicates(rows, id);
    WithoutTargetRows(rows, id);
    var rows' := WithoutTarget(rows, id);
    forall k | 0 <= k < |rows'| ensures rows'[k].0 in users && rows'[k].1 in (recipes - {id}).Keys {
      var m :| 0 <= m < |rows| && rows[m] == rows'[k];
    }
  }

  /** The database: one table per model of recipes/models.py. Users are
      identified by id; the user table itself belongs to the account layer. */
  datatype Db = Db(
    users: set<int>,
    catalog: seq<Ingredient>,
    recipes: map<int, Recipe>,
    amounts: seq<Amount>,
    follows: seq<(int, int)>,
    favorites: seq<(int, int)>,
    cart: seq<(int, int)>,
    nextRecipeId: int)

  /** The store the views write through: its tables change in place. */
  class Store {
    var db: Db

    /** The declared constraints of every table, the foreign keys, the
        cooking-time minimum, and: every recipe has at least one line. */
    ghost predicate Valid()
      reads this
    {
      StoreValid(db.users, db.catalog, db.recipes, db.amounts, db.follows, db.favorites, db.cart, db.nextRecipeId)
    }

    constructor (users: set<int>, catalog: seq<Ingredient>)
      requires CatalogValid(catalog)
      ensures Valid()
      ensures db == Db(users, catalog, map[], [], [], [], [], 0)
    {
      db := Db(users, catalog, map[], [], [], [], [], 0);
    }

    /** recipe.delete(): on_delete=CASCADE also deletes the recipe's ingredient
        lines and every favorite and shopping-cart row pointing at it. */
    method DeleteRecipe(id: int)
      requires Valid() && id in db.recipes
      modifies this
      ensures Valid()
      ensures db == old(db).(recipes := old(db.recipes) - {id}, amounts := WithoutRecipe(old(db.amounts), id),
                             favorites := WithoutTarget(old(db.favorites), id), cart := WithoutTarget(old(db.cart), id))
      ensures LinesOf(db.amounts, id) == []
      ensures forall r :: r != id ==> LinesOf(db.amounts, r) == LinesOf(old(db.amounts), r)
    {
      CascadeKeepsValid(db.users, db.catalog, db.recipes, db.amounts, db.follows, db.favorites, db.cart, db.nextRecipeId, id);
      WithoutRecipeLines(db.amounts, id);
      db := db.(recipes := db.recipes - {id}, amounts := WithoutRecipe(db.amounts, id),
                favorites := WithoutTarget(db.favorites, id), cart := WithoutTarget(db.cart, id));
    }
  }
}
