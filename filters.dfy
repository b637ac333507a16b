/** api/filters.py: RecipeFilter. A queryset is the sequence of recipe ids it
    yields; a query parameter that is absent is None and leaves the queryset
    alone, as django-filter skips a filter whose value is empty. */
module Filters {
  import opened Text
  import opened Tables
  import opened Models

  /** filter_in_shopping_cart and filter_favorited, over the relation rows
      they join (WishList, respectively UserFavorite). An anonymous requester
      asking for value=true gets queryset.none(); value=false never filters. */
  function FilterByRelation(queryset: seq<int>, requester: Option<int>, value: Option<bool>, rows: seq<(int, int)>): (r: seq<int>)
    ensures value != Some(true) ==> r == queryset
    ensures value == Some(true) && requester.None? ==> r == []
    ensures value == Some(true) && requester.Some? ==>
      forall x :: x in r <==> x in queryset && (requester.value, x) in rows
  {
    match value
    case None => queryset
    case Some(v) =>
      match requester
      case None => if v then [] else queryset
      case Some(u) => if v then Keep(queryset, x => (u, x) in rows) else queryset
  }

  /** author = NumberFilter(field_name="author__id"). */
  function FilterByAuthor(queryset: seq<int>, recipes: map<int, Recipe>, author: Option<int>): (r: seq<int>)
    ensures author.None? ==> r == queryset
    ensures author.Some? ==>
      forall x :: x in r <==> x in queryset && x in recipes && recipes[x].author == author.value
  {
    match author
    case None => queryset
    case Some(a) => Keep(queryset, x => x in recipes && recipes[x].author == a)
  }

  /** RecipeFilter.qs: the author filter, then is_in_shopping_cart, then
      is_favorited, each on the result of the previous one. A recipe
      survives exactly when it is in the queryset and meets every filter
      that was asked for: the author's, and for value=true an authenticated
      requester with the recipe in the cart, respectively among the
      favorites. */
  function ApplyRecipeFilter(
    queryset: seq<int>, recipes: map<int, Recipe>, favorites: seq<(int, int)>, cart: seq<(int, int)>,
    requester: Option<int>, isInShoppingCart: Option<bool>, isFavorited: Option<bool>, author: Option<int>): (r: seq<int>)
    ensures forall x :: x in r <==>
      && x in queryset
      && (author.Some? ==> x in recipes && recipes[x].author == author.value)
      && (isInShoppingCart == Some(true) ==> requester.Some? && (requester.value, x) in cart)
      && (isFavorited == Some(true) ==> requester.Some? && (requester.value, x) in favorites)
  {
    var byAuthor := FilterByAuthor(queryset, recipes, author);
    var inCart := FilterByRelation(byAuthor, requester, isInShoppingCart, cart);
    FilterByRelation(inCart, requester, isFavorited, favorites)
  }

  /** Filtering never adds a recipe and never repeats one. */
  lemma {:induction false} RecipeFilterSubset(
    queryset: seq<int>, recipes: map<int, Recipe>, favorites: seq<(int, int)>, cart: seq<(int, int)>,
    requester: Option<int>, isInShoppingCart: Option<bool>, isFavorited: Option<bool>, author: Option<int>)
    requires NoDuplicates(queryset)
    ensures var r := ApplyRecipeFilter(queryset, recipes, favorites, cart, requester, isInShoppingCart, isFavorited, author);
      NoDuplicates(r) && |r| <= |queryset| && forall x :: x in r ==> x in queryset
  {
    var byAuthor := FilterByAuthor(queryset, recipes, author);
    if author.Some? {
      KeepNoDuplicates(queryset, x => x in recipes && recipes[x].author == author.value);
    }
    var inCart := FilterByRelation(byAuthor, requester, isInShoppingCart, cart);
    if isInShoppingCart == Some(true) && requester.Some? {
      KeepNoDuplicates(byAuthor, x => (requester.value, x) in cart);
    }
    if isFavorited == Some(true) && requester.Some? {
      KeepNoDuplicates(inCart, x => (requester.value, x) in favorites);
    }
  }
}
