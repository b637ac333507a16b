/** The relation handlers of api/views.py (subscribe, favorite,
    shopping_cart) and download_shopping_cart. Each handler answers with an
    HTTP status and changes its relation table only on success. The
    requester is None when the request carries no credentials. */
module Views {
  import opened Text
  import opened Tables
  import opened Models
  import opened Serializers
  import opened ShoppingList

  /** The two methods the relation actions accept. */
  datatype HttpMethod = Post | Delete

  const Ok := 200
  const Created := 201
  const NoContent := 204
  const BadRequest := 400
  const Unauthorized := 401
  const NotFound := 404

  // ---------------------------------------------------------------------
  // Table-level facts the handlers rely on

  lemma AddFollowKeepsValid(follows: seq<(int, int)>, users: set<int>, pair: (int, int))
    requires FollowsValid(follows, users)
    requires pair !in follows && pair.0 != pair.1 && pair.0 in users && pair.1 in users
    ensures FollowsValid(follows + [pair], users)
  {
    NoDuplicatesAppend(follows, pair);
  }

  lemma RemoveFollowKeepsValid(follows: seq<(int, int)>, users: set<int>, pair: (int, int))
    requires FollowsValid(follows, users)
    ensures FollowsValid(Without(follows, pair), users)
  {
    WithoutOneRow(follows, pair);
    var rest := Without(follows, pair);
    forall k | 0 <= k < |rest| ensures rest[k].0 != rest[k].1 && rest[k].0 in users && rest[k].1 in users {
      assert rest[k] in rest;
      var m :| 0 <= m < |follows| && follows[m] == rest[k];
    }
  }

  lemma AddMarkKeepsValid(rows: seq<(int, int)>, users: set<int>, recipeIds: set<int>, pair: (int, int))
    requires UserRecipeValid(rows, users, recipeIds)
    requires pair !in rows && pair.0 in users && pair.1 in recipeIds
    ensures UserRecipeValid(rows + [pair], users, recipeIds)
  {
    NoDuplicatesAppend(rows, pair);
  }

  lemma RemoveMarkKeepsValid(rows: seq<(int, int)>, users: set<int>, recipeIds: set<int>, pair: (int, int))
    requires UserRecipeValid(rows, users, recipeIds)
    ensures UserRecipeValid(Without(rows, pair), users, recipeIds)
  {
    WithoutOneRow(rows, pair);
    var rest := Without(rows, pair);
    forall k | 0 <= k < |rest| ensures rest[k].0 in users && rest[k].1 in recipeIds {
      assert rest[k] in rest;
      var m :| 0 <= m < |rows| && rows[m] == rest[k];
    }
  }

  /** Removing a pair that is present removes exactly one row. */
  lemma RemoveOne(rows: seq<(int, int)>, pair: (int, int))
    requires NoDuplicates(rows) && pair in rows
    ensures |Without(rows, pair)| == |rows| - 1 && pair !in Without(rows, pair)
    ensures forall p :: p != pair ==> (p in Without(rows, pair) <==> p in rows)
  {
    WithoutOneRow(rows, pair);
    var rest := Without(rows, pair);
    forall p | p != pair && p in rows ensures p in rest {
      var m :| 0 <= m < |rows| && rows[m] == p;
    }
  }

  // ---------------------------------------------------------------------
  // Handlers

  /** POST/DELETE /users/{id}/subscribe/. 401 without credentials, 404 for
      an unknown target, 400 for the requester's own id; POST adds the Follow
      row (201) unless it exists (400); DELETE removes it (204) unless it is
      absent (400). */
  method Subscribe(store: Store, requester: Option<int>, target: int, m: HttpMethod) returns (status: int)
    requires store.Valid()
    requires requester.Some? ==> requester.value in store.db.users
    modifies store
    ensures store.Valid()
    ensures requester.None? ==> status == Unauthorized
    ensures requester.Some? && target !in store.db.users ==> status == NotFound
    ensures requester.Some? && target in store.db.users && requester.value == target ==> status == BadRequest
    ensures requester.Some? && target in store.db.users && requester.value != target ==>
      var pair := (requester.value, target);
      && (m == Post && pair in old(store.db.follows) ==> status == BadRequest)
      && (m == Post && pair !in old(store.db.follows) ==> status == Created && store.db.follows == old(store.db.follows) + [pair])
      && (m == Delete && pair in old(store.db.follows) ==>
            status == NoContent && store.db.follows == Without(old(store.db.follows), pair)
            && |store.db.follows| == |old(store.db.follows)| - 1)
      && (m == Delete && pair !in old(store.db.follows) ==> status == BadRequest)
    ensures status != Created && status != NoContent ==> store.db == old(store.db)
    ensures status == Created ==> RelationFlag(requester, target, store.db.follows)
    ensures status == NoContent ==> !RelationFlag(requester, target, store.db.follows)
    ensures store.db == old(store.db).(follows := store.db.follows)
  {
    if requester.None? {
      return Unauthorized;
    }
    var user := requester.value;
    if target !in store.db.users {
      return NotFound;
    }
    if user == target {
      return BadRequest;
    }
    var pair := (user, target);
    match m
    case Post =>
      if pair in store.db.follows {
        return BadRequest;
      }
      AddFollowKeepsValid(store.db.follows, store.db.users, pair);
      store.db := store.db.(follows := store.db.follows + [pair]);
      status := Created;
    case Delete =>
      if pair !in store.db.follows {
        return BadRequest;
      }
      RemoveFollowKeepsValid(store.db.follows, store.db.users, pair);
      RemoveOne(store.db.follows, pair);
      store.db := store.db.(follows := Without(store.db.follows, pair));
      status := NoContent;
  }

  /** POST/DELETE /recipes/{id}/favorite/. 401 without credentials, 404 for
      an unknown recipe; POST adds the UserFavorite row (201) unless it
      exists (400); DELETE removes it (204) unless it is absent (400). */
  method Favorite(store: Store, requester: Option<int>, recipe: int, m: HttpMethod) returns (status: int)
    requires store.Valid()
    requires requester.Some? ==> requester.value in store.db.users
    modifies store
    ensures store.Valid()
    ensures requester.None? ==> status == Unauthorized
    ensures requester.Some? && recipe !in store.db.recipes ==> status == NotFound
    ensures requester.Some? && recipe in store.db.recipes ==>
      var pair := (requester.value, recipe);
      && (m == Post && pair in old(store.db.favorites) ==> status == BadRequest)
      && (m == Post && pair !in old(store.db.favorites) ==>
            status == Created && store.db.favorites == old(store.db.favorites) + [pair])
      && (m == Delete && pair in old(store.db.favorites) ==>
            status == NoContent && store.db.favorites == Without(old(store.db.favorites), pair)
            && |store.db.favorites| == |old(store.db.favorites)| - 1)
      && (m == Delete && pair !in old(store.db.favorites) ==> status == BadRequest)
    ensures status != Created && status != NoContent ==> store.db == old(store.db)
    ensures status == Created ==> RelationFlag(requester, recipe, store.db.favorites)
    ensures status == NoContent ==> !RelationFlag(requester, recipe, store.db.favorites)
    ensures store.db == old(store.db).(favorites := store.db.favorites)
  {
    if requester.None? {
      return Unauthorized;
    }
    var user := requester.value;
    if recipe !in store.db.recipes {
      return NotFound;
    }
    var pair := (user, recipe);
    match m
    case Post =>
      if pair in store.db.favorites {
        return BadRequest;
      }
      AddMarkKeepsValid(store.db.favorites, store.db.users, store.db.recipes.Keys, pair);
      store.db := store.db.(favorites := store.db.favorites + [pair]);
      status := Created;
    case Delete =>
      if pair !in store.db.favorites {
        return BadRequest;
      }
      RemoveMarkKeepsValid(store.db.favorites, store.db.users, store.db.recipes.Keys, pair);
      RemoveOne(store.db.favorites, pair);
      store.db := store.db.(favorites := Without(store.db.favorites, pair));
      status := NoContent;
  }

  /** POST/DELETE /recipes/{id}/shopping_cart/: as Favorite, on the WishList
      table; the recipe lookup (404) happens inside each method branch. */
  method ShoppingCart(store: Store, requester: Option<int>, recipe: int, m: HttpMethod) returns (status: int)
    requires store.Valid()
    requires requester.Some? ==> requester.value in store.db.users
    modifies store
    ensures store.Valid()
    ensures requester.None? ==> status == Unauthorized
    ensures requester.Some? && recipe !in store.db.recipes ==> status == NotFound
    ensures requester.Some? && recipe in store.db.recipes ==>
      var pair := (requester.value, recipe);
      && (m == Post && pair in old(store.db.cart) ==> status == BadRequest)
      && (m == Post && pair !in old(store.db.cart) ==> status == Created && store.db.cart == old(store.db.cart) + [pair])
      && (m == Delete && pair in old(store.db.cart) ==>
            status == NoContent && store.db.cart == Without(old(store.db.cart), pair)
            && |store.db.cart| == |old(store.db.cart)| - 1)
      && (m == Delete && pair !in old(store.db.cart) ==> status == BadRequest)
    ensures status != Created && status != NoContent ==> store.db == old(store.db)
    ensures status == Created ==> RelationFlag(requester, recipe, store.db.cart)
    ensures status == NoContent ==> !RelationFlag(requester, recipe, store.db.cart)
    ensures store.db == old(store.db).(cart := store.db.cart)
  {
    if requester.None? {
      return Unauthorized;
    }
    var user := requester.value;
    match m
    case Post =>
      if recipe !in store.db.recipes {
        return NotFound;
      }
      var pair := (user, recipe);
      if pair in store.db.cart {
        return BadRequest;
      }
      AddMarkKeepsValid(store.db.cart, store.db.users, store.db.recipes.Keys, pair);
      store.db := store.db.(cart := store.db.cart + [pair]);
      status := Created;
    case Delete =>
      if recipe !in store.db.recipes {
        return NotFound;
      }
      var pair := (user, recipe);
      if pair !in store.db.cart {
        return BadRequest;
      }
      RemoveMarkKeepsValid(store.db.cart, store.db.users, store.db.recipes.Keys, pair);
      RemoveOne(store.db.cart, pair);
      store.db := store.db.(cart := Without(store.db.cart, pair));
      status := NoContent;
  }

  /** The set of recipes whose lines the list sums: recipe__in=wishlist_recipes. */
  function CartSet(recipes: seq<int>): set<int> {
    set r | r in recipes
  }

  /** The text download_shopping_cart sends for a cart. */
  function ShoppingListText(amounts: seq<Amount>, catalog: seq<Ingredient>, cartRecipes: seq<int>): string {
    Join(ShoppingLines(Aggregate(CartItems(amounts, catalog, CartSet(cartRecipes)))), "\n")
  }

  /** GET /recipes/download_shopping_cart/. 401 without credentials, 400
      when the requester's cart is empty, otherwise 200 with the list. */
  method DownloadShoppingCart(store: Store, requester: Option<int>) returns (status: int, content: Option<string>)
    ensures requester.None? ==> status == Unauthorized && content.None?
    ensures requester.Some? && CartRecipes(store.db.cart, requester.value) == [] ==>
      status == BadRequest && content.None?
    ensures requester.Some? && CartRecipes(store.db.cart, requester.value) != [] ==>
      status == Ok && content == Some(ShoppingListText(store.db.amounts, store.db.catalog, CartRecipes(store.db.cart, requester.value)))
  {
    if requester.None? {
      return Unauthorized, None;
    }
    var wishlist := CartRecipes(store.db.cart, requester.value);
    if wishlist == [] {
      return BadRequest, None;
    }
    var groups := Aggregate(CartItems(store.db.amounts, store.db.catalog, CartSet(wishlist)));
    var lines := RenderLines(groups);
    status, content := Ok, Some(Join(lines, "\n"));
  }

  /** What the downloaded list says: each (name, unit) key once; every
      group's key is the key of the ingredient of some line of a cart
      recipe, and every such line whose ingredient exists has its group;
      the group of an ingredient of the catalog shows the total of the cart
      recipes' lines for that ingredient; and, when every line's ingredient
      exists, the groups add up to the amounts of all the cart recipes'
      lines. */
  lemma ShoppingListMeaning(amounts: seq<Amount>, catalog: seq<Ingredient>, cartRecipes: seq<int>, ing: Ingredient)
    requires CatalogValid(catalog) && ing in catalog
    ensures var cart := CartSet(cartRecipes);
      var groups := Aggregate(CartItems(amounts, catalog, cart));
      && KeysDistinct(groups)
      && (forall k :: 0 <= k < |groups| ==>
            exists m :: 0 <= m < |amounts| && KeyOfLine(groups[k], amounts[m], catalog, cart))
      && (forall m :: 0 <= m < |amounts| && amounts[m].recipe in cart && FindIngredient(catalog, amounts[m].ingredient).Some? ==>
            LineGrouped(groups, amounts[m], catalog, cart))
      && (forall k :: 0 <= k < |groups| && HasKey(groups[k], ing.name, UnitLabel(ing.unit)) ==>
            groups[k].amount == LinesTotal(amounts, cart, ing.id))
      && (LinesKnown(amounts, catalog) ==> Total(groups) == CartLinesAmount(amounts, cart))
  {
    var cart := CartSet(cartRecipes);
    var items := CartItems(amounts, catalog, cart);
    AggregateMeaning(items);
    AggregateTotal(items);
    CartItemsSum(amounts, catalog, cart, ing);
    if LinesKnown(amounts, catalog) {
      CartItemsTotal(amounts, catalog, cart);
    }
    GroupsFromLines(amounts, catalog, cart);
    LinesHaveGroups(amounts, catalog, cart);
  }
}
