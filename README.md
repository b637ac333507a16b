# foodgram backend — a Dafny model of its recipe core

The model covers the foodgram recipe-sharing backend, a Django REST
Framework application. It follows the data a request reads and writes and
the decisions the handlers make:

- **The schema of `recipes/models.py`** is the `Db` value of a `Store`
  object. It holds:
  - the users;
  - the ingredient catalog;
  - the recipes, keyed by id;
  - the `AmountIngredientInRecipe` lines;
  - the `Follow`, `UserFavorite` and `WishList` rows;
  - the next primary key.

  `Store.Valid` is the conjunction of every foreign key, unique
  constraint, check constraint and `MinValueValidator` of that file. Every
  handler that changes the store is proved to preserve it.
- **Recipe create and update.** This covers the DRF field validation of
  `RecipeCreateSerializer` and `RecipeUpdateSerializer`, which runs
  `validate_ingredients` with its three rejections, and the error list a
  payload produces. It also covers `create` (a new recipe plus one line
  per entry) and `update` (the fields overwritten, the old lines deleted,
  the new ones inserted).
- **Recipe deletion** with its database cascades: the ingredient lines,
  the favorites and the shopping-cart rows.
- **The POST/DELETE actions** `subscribe`, `favorite` and
  `shopping_cart`, with the status code of every branch and the row they
  add or remove.
- **`download_shopping_cart`.** The cart's ingredient lines are grouped by
  (name, unit) and their amounts summed. The result is rendered as the
  header, a 50-space spacer and one `• name (unit) — amount` line per
  group, joined by newlines.
- **Ingredient search** (`IngredientViewSet.get_queryset`): a
  case-insensitive prefix filter, then ordering by name.
- **`RecipeFilter`**: the author, is_in_shopping_cart and is_favorited
  filters.
- **The read-side flags and the limit:**
  - `is_subscribed`, `is_favorited` and `is_in_shopping_cart`;
  - the `recipes_limit` cut in `FollowUserSerializer.to_representation`.

Database tables are sequences of rows. A unique constraint is therefore an
invariant the handlers must keep, not something a `set` makes hold by
construction. Python's `str(int)`, `int(str)`, `str.strip`, `str.split`
and `"\n".join` are written out in module `Text`.

Two places in the code do not do what they read as doing:

- **The amount check.** The amount check of `validate_ingredients` reads
  as a live rejection. In the code, the nested
  `IntegerField(min_value=1)` runs first and refuses such an entry before
  that check is reached. This is modelled as the code behaves, and
  `Serializers.AmountRejectionUnreachable` proves the check dead.
- **The unknown-id message.** The message for an unknown ingredient does
  not carry the id. The message as written is modelled and its flaw
  exhibited; the rest of the model, `Serializers.CheckMessage` included,
  uses the corrected message that names the id (see Findings).

## Model

| member | source | states |
|---|---|---|
| Models.ParseUnit | backend/foodgram_backend/recipes/models.py:44-63 | a stored measurement is accepted only as the unit whose label it is |
| Models.ParseUnitLabel | backend/foodgram_backend/recipes/models.py:44-63 | every `Measurment` choice is accepted back as itself |
| Models.FindIngredient | backend/foodgram_backend/api/serializers.py:157 | the lookup `Ingredient.objects.filter(id=…)` finds a catalog row with that id, or there is none |
| Models.LinesOfAppend | backend/foodgram_backend/recipes/models.py:109-124 | the lines of a recipe in two concatenated tables are the lines in the first followed by those in the second |
| Models.LinesOfNonEmpty | backend/foodgram_backend/recipes/models.py:109-124 | a recipe has lines exactly when some row of the lines table points at it |
| Models.WithoutRecipeRows | backend/foodgram_backend/recipes/models.py:110-112 | the cascade on `recipe` leaves exactly the rows of the other recipes |
| Models.WithoutRecipeLines | backend/foodgram_backend/recipes/models.py:110-112 | after the cascade the deleted recipe has no lines, and every other recipe keeps its lines in order |
| Models.WithoutRecipeKeysUnique | backend/foodgram_backend/recipes/models.py:129-134 | deleting a recipe's lines keeps (recipe, ingredient) unique |
| Models.WithoutTargetRows | backend/foodgram_backend/recipes/models.py:151-156 | the cascade from a recipe to favorites and cart rows removes exactly the rows naming that recipe |
| Models.WithoutTargetNoDuplicates | backend/foodgram_backend/recipes/models.py:165-184 | that cascade keeps the (user, recipe) unique constraints |
| Models.AmountLabelShowsAmount | backend/foodgram_backend/recipes/models.py:136-140 | `__str__` of a line shows its amount: two labels of one ingredient are equal only if the amounts are |
| Models.FreshIdUnused | backend/foodgram_backend/recipes/models.py:76-106 | the next primary key names no recipe and no ingredient line |
| Models.AmountsCascade | backend/foodgram_backend/recipes/models.py:109-134 | after the cascade every line still has an amount of at least 1, a live recipe and a catalog ingredient, and the keys stay unique |
| Models.LinesCascade | backend/foodgram_backend/recipes/models.py:110-112 | after the cascade every remaining recipe still has lines |
| Models.RecipeRowsCascade | backend/foodgram_backend/recipes/models.py:143-184 | after the cascade, favorites and cart rows name live users and recipes and stay unique |
| Models.CascadeKeepsValid | backend/foodgram_backend/recipes/models.py:109-184 | deleting a recipe together with its cascaded rows keeps every model constraint |
| Models.Store.constructor | backend/foodgram_backend/recipes/models.py:43-73 | a store with users and a valid catalog and nothing else is valid |
| Models.Store.DeleteRecipe | backend/foodgram_backend/recipes/models.py:109-184 | deleting a recipe removes it and cascades to its lines, favorites and cart rows, nothing else changes, other recipes keep their lines, and the store stays valid |
| Tables.NoDuplicatesAppend | backend/foodgram_backend/api/views.py:178-191 | creating a row that is not yet there keeps the table free of duplicates |
| Tables.Without | backend/foodgram_backend/api/views.py:198-205 | `.delete()` of one row leaves exactly the other rows |
| Tables.WithoutNoDuplicates | backend/foodgram_backend/api/views.py:198-205 | deleting a row keeps a table free of duplicates |
| Tables.WithoutLength | backend/foodgram_backend/api/views.py:198-205 | deleting a present row shortens the table by one, and deleting an absent row changes nothing |
| Tables.WithoutOneRow | backend/foodgram_backend/api/views.py:198-205 | both facts above together for a table without duplicates |
| Tables.WithoutAppended | backend/foodgram_backend/api/views.py:178-205 | creating a row and then deleting it gives back the table as it was |
| Tables.Keep | backend/foodgram_backend/api/filters.py:22-23 | `queryset.filter(…)` keeps exactly the rows that satisfy the condition |
| Tables.KeepNoDuplicates | backend/foodgram_backend/api/filters.py:22-23 | filtering a queryset without duplicates gives one without duplicates |
| Text.IntToString | backend/foodgram_backend/api/views.py:403 | `str(n)` is the canonical decimal: non-empty digits with a leading minus exactly for negative numbers, and no leading zero except in `"0"`, which is `str(0)` alone |
| Text.ParseIntOfIntToString | backend/foodgram_backend/api/serializers.py:293 | `int(str(n)) == n` |
| Text.IntToStringInjective | backend/foodgram_backend/api/views.py:403 | different numbers print differently |
| Text.LeadingSpaces | backend/foodgram_backend/api/serializers.py:124 | the length of the whitespace run that opens the text |
| Text.TrailingSpaces | backend/foodgram_backend/api/serializers.py:124 | the length of the whitespace run that closes the text |
| Text.ParseLiteral | backend/foodgram_backend/api/serializers.py:293 | a stripped literal is a number exactly when it is ASCII digits with at most one leading sign |
| Text.ParseInt | backend/foodgram_backend/api/serializers.py:293 | `int()` accepts a text exactly when, once stripped of whitespace, it is ASCII digits with at most one leading sign |
| Text.DigitsValueLeadingZeros | backend/foodgram_backend/api/serializers.py:293 | leading zeros do not change the value of a digit string |
| Text.ParseIntSigned | backend/foodgram_backend/api/serializers.py:293 | a sign followed by digits parses to the signed value of the digits |
| Text.ParseIntWritten | backend/foodgram_backend/api/serializers.py:293 | whitespace, an optional sign, any leading zeros and the decimal form of n, then whitespace, parse to n (or -n) |
| Text.ParseIntPadded | backend/foodgram_backend/api/serializers.py:293 | surrounding whitespace does not change what `int()` makes of a text it accepts |
| Text.Strip | backend/foodgram_backend/api/serializers.py:124 | `str.strip()` with Python's whitespace set: the text between the leading and the trailing whitespace runs; empty exactly when the input is all whitespace, and otherwise neither starting nor ending with whitespace |
| Text.StripPadded | backend/foodgram_backend/api/serializers.py:124 | stripping whitespace around a text that neither starts nor ends with whitespace gives that text |
| Text.StripAround | backend/foodgram_backend/api/serializers.py:124 | more whitespace around a text does not change what stripping gives, unless the text is all whitespace |
| Text.SplitJoin | backend/foodgram_backend/api/views.py:405 | splitting the newline-joined document at newlines gives back its lines when none of them holds a newline |
| Text.IStartsWithUpperQuery | backend/foodgram_backend/api/views.py:259 | `istartswith` ignores the case of the query |
| Serializers.CheckFrom | backend/foodgram_backend/api/serializers.py:150-160 | the loop from position i on never reports an empty list, and a rejection names a position from i on |
| Serializers.CheckIngredients | backend/foodgram_backend/api/serializers.py:147-162 | an empty list is reported as such and nothing else is, and a rejection names an entry of the list |
| Serializers.CheckFromMeaning | backend/foodgram_backend/api/serializers.py:150-160 | the loop from position i passes exactly when every later entry passes, and a rejection names the first failing entry |
| Serializers.AllEntriesPass | backend/foodgram_backend/api/serializers.py:150-160 | every entry passes its check exactly when the ids are distinct and known and every amount is at least 1 |
| Serializers.CheckIngredientsMeaning | backend/foodgram_backend/api/serializers.py:147-162 | `validate_ingredients` accepts exactly a non-empty list with distinct known ids and amounts of at least 1, and rejects "not passed" exactly the empty list |
| Serializers.ValidateIngredients | backend/foodgram_backend/api/serializers.py:147-162 | the loop with its `all_ingredients` list gives the verdict of `CheckIngredients`: the first duplicate, unknown id or low amount, in that order of checks |
| Serializers.UnknownIngredientMessageAsWrittenHidesId | backend/foodgram_backend/api/serializers.py:158 | as written, the unknown-ingredient message is the same for ids 1 and 2 |
| Serializers.UnknownIngredientMessageNamesId | backend/foodgram_backend/api/serializers.py:158 | the corrected message names the id: different ids give different messages |
| Serializers.CheckMessage | backend/foodgram_backend/api/serializers.py:148-160 | every verdict of `validate_ingredients` but a pass raises an error with a non-empty message |
| Serializers.AmountsBelowOne | backend/foodgram_backend/api/serializers.py:69-71 | the nested entry serializer reports exactly the positions whose amount is below 1 |
| Serializers.CreateAccepted | backend/foodgram_backend/api/serializers.py:121-162 | a create payload is accepted exactly when every field is present; name and text, once stripped of Python whitespace, are non-empty and hold no NUL character; the stripped name fits 256 characters; the cooking time is at least 1; and the ingredient list is valid |
| Serializers.UpdateAccepted | backend/foodgram_backend/api/serializers.py:182-234 | an update payload is accepted exactly when it carries a valid ingredient list and every field it carries (every field but the image, unless the update is partial) meets the same conditions as on create |
| Serializers.CookingTimeBelowOneRefused | backend/foodgram_backend/api/serializers.py:122 | a cooking time below 1 is reported on create and on update |
| Serializers.EmptyIngredientsRefused | backend/foodgram_backend/api/serializers.py:147-149 | an empty ingredient list is refused with "Ингредиенты не переданы" on create and on update |
| Serializers.UpdateWithoutIngredientsRefused | backend/foodgram_backend/api/serializers.py:195-201 | an update without the ingredients key is refused, even a partial one |
| Serializers.AmountRejectionUnreachable | backend/foodgram_backend/api/serializers.py:159-160 | the amount rejection of `validate_ingredients` never appears among the errors |
| Serializers.LinesOfRows | backend/foodgram_backend/api/serializers.py:169-174 | the rows inserted for a recipe are exactly the entries' lines for it and none for another recipe |
| Serializers.AppendRowsValid | backend/foodgram_backend/recipes/models.py:109-134 | inserting the rows of a valid list for a recipe that had none keeps the line constraints |
| Serializers.AppendRowsLines | backend/foodgram_backend/api/serializers.py:169-174 | inserting the rows adds the entries' lines to that recipe and changes no other recipe's lines |
| Serializers.WithoutRecipeValid | backend/foodgram_backend/api/serializers.py:241 | `amountingredientinrecipe_set.all().delete()` keeps the line constraints and leaves no line of that recipe |
| Serializers.ReplaceLines | backend/foodgram_backend/api/serializers.py:241-247 | delete-then-insert makes the recipe's lines exactly the new entries and leaves other recipes' lines alone |
| Serializers.InsertKeepsValid | backend/foodgram_backend/api/serializers.py:164-175 | inserting a new recipe under the next id with a valid list keeps every model constraint |
| Serializers.ReplaceKeepsValid | backend/foodgram_backend/api/serializers.py:236-248 | overwriting a recipe and replacing its lines with a valid list keeps every model constraint |
| Serializers.InsertLines | backend/foodgram_backend/api/serializers.py:169-174 | the loop appends exactly the entries' rows, in order, and changes nothing else |
| Serializers.InsertRecipe | backend/foodgram_backend/api/serializers.py:164-175 | `create` stores the recipe under the next unused id, its lines are exactly the entries, other recipes keep theirs, and the store stays valid |
| Serializers.CreateRecipe | backend/foodgram_backend/api/serializers.py:121-175 | POST answers 400 with the field errors and changes nothing, or 201 with the new recipe and its lines |
| Serializers.UpdateRecipe | backend/foodgram_backend/api/serializers.py:182-248 | PUT/PATCH answers 400 with the field errors and changes nothing, or 200 with the fields overwritten and the lines replaced by the entries |
| Serializers.RelationFlag | backend/foodgram_backend/api/serializers.py:19-103 | `get_is_subscribed` (lines 19-23), `get_is_favorited` and `get_is_in_shopping_cart` (lines 93-103): true exactly for an authenticated requester with a Follow, respectively favorite or cart, row for the target |
| Serializers.SliceTo | backend/foodgram_backend/api/serializers.py:294 | Python's `[:k]` is a prefix of the list, of length k clamped to the list, or with -k items dropped from the end for negative k |
| Serializers.LimitRecipes | backend/foodgram_backend/api/serializers.py:285-298 | with a request and a non-empty `recipes_limit` that `int()` accepts, the recipes shown are the list cut by Python's `[:k]` at that number; otherwise the list is shown whole |
| Serializers.LimitRecipesWritten | backend/foodgram_backend/api/serializers.py:292-294 | a limit written with surrounding whitespace, a sign and leading zeros cuts the list at the signed number it spells |
| Serializers.LimitRecipesMinusOne | backend/foodgram_backend/api/serializers.py:292-294 | `recipes_limit=-1` drops the last recipe |
| Serializers.LimitRecipesByNumber | backend/foodgram_backend/api/serializers.py:285-298 | `recipes_limit=n` shows the first n recipes, or all of them if there are fewer |
| Serializers.LimitRecipesUnparsable | backend/foodgram_backend/api/serializers.py:292-296 | a limit `int()` refuses leaves the list whole |
| Views.AddFollowKeepsValid | backend/foodgram_backend/recipes/models.py:28-37 | a new Follow row between two distinct users that is not yet there keeps the follow constraints |
| Views.RemoveFollowKeepsValid | backend/foodgram_backend/recipes/models.py:28-37 | deleting a Follow row keeps the follow constraints |
| Views.AddMarkKeepsValid | backend/foodgram_backend/recipes/models.py:165-184 | a new favorite or cart row for a live user and recipe that is not yet there keeps the constraints |
| Views.RemoveMarkKeepsValid | backend/foodgram_backend/recipes/models.py:165-184 | deleting a favorite or cart row keeps the constraints |
| Views.RemoveOne | backend/foodgram_backend/api/views.py:198-205 | deleting a present row of a table without duplicates removes exactly that row |
| Views.Subscribe | backend/foodgram_backend/api/views.py:161-210 | 401 for an anonymous requester, 404 for an unknown user, 400 for oneself, a repeated follow or a missing follow, 201 with the Follow row added or 204 with it removed; only the follows change, and only on 201 or 204 |
| Views.Favorite | backend/foodgram_backend/api/views.py:284-326 | 401, 404 for an unknown recipe, 400 for a repeated or missing favorite, 201 with the row added or 204 with it removed; only the favorites change |
| Views.ShoppingCart | backend/foodgram_backend/api/views.py:328-371 | the same answers for the cart; only the cart changes |
| Views.DownloadShoppingCart | backend/foodgram_backend/api/views.py:373-416 | 401 for an anonymous requester, 400 for an empty cart, otherwise 200 with the shopping-list text of the cart; the store is only read |
| Views.ShoppingListMeaning | backend/foodgram_backend/api/views.py:381-405 | each (name, unit) key once; every group is the key of an ingredient of some line of a cart recipe, and every such line whose ingredient exists has its group; the group of a catalog ingredient sums that ingredient's amounts over the cart's recipes; and, when every line names a catalog ingredient, the groups add up to the amounts of all the cart recipes' lines |
| ShoppingList.CartRecipes | backend/foodgram_backend/api/views.py:381 | `wishlist_set` of the user holds exactly the recipes with a cart row of that user |
| ShoppingList.CartItems | backend/foodgram_backend/api/views.py:389-391 | no more items than ingredient lines |
| ShoppingList.CartItemsFromLines | backend/foodgram_backend/api/views.py:381-391 | every item is the (name, unit label, amount) of a line of a cart recipe whose ingredient is in the catalog |
| ShoppingList.CartItemsCoverLines | backend/foodgram_backend/api/views.py:381-391 | every line of a cart recipe whose ingredient is in the catalog gives its item |
| ShoppingList.CartItemsTotal | backend/foodgram_backend/api/views.py:381-391 | when every line names a catalog ingredient, the items carry exactly the amounts of the cart recipes' lines |
| ShoppingList.GroupsFromLines | backend/foodgram_backend/api/views.py:381-391 | every group's key is the key of the ingredient of some line of a cart recipe |
| ShoppingList.LinesHaveGroups | backend/foodgram_backend/api/views.py:381-391 | every line of a cart recipe whose ingredient is in the catalog has a group with its key |
| ShoppingList.FindGroup | backend/foodgram_backend/api/views.py:389-391 | finds the group with a given (name, unit), or there is none |
| ShoppingList.SumForAbsent | backend/foodgram_backend/api/views.py:389-391 | a (name, unit) without items sums to 0 |
| ShoppingList.OccursAppend | backend/foodgram_backend/api/views.py:389-391 | a key occurs in items plus one more item exactly when it occurs in the items or is that item's key |
| ShoppingList.AddItemStep | backend/foodgram_backend/api/views.py:389-391 | adding one item keeps one group per key and adds its amount to the sum of its own key only |
| ShoppingList.AggregateMeaning | backend/foodgram_backend/api/views.py:389-391 | `.values(name, unit).annotate(Sum)` gives one group per (name, unit) that occurs and no other, each with the sum of the amounts of that key |
| ShoppingList.TotalAppend | backend/foodgram_backend/api/views.py:389-391 | the amounts of two concatenated lists add up |
| ShoppingList.TotalUpdate | backend/foodgram_backend/api/views.py:389-391 | replacing one group changes the total by the difference of the amounts |
| ShoppingList.AggregateTotal | backend/foodgram_backend/api/views.py:389-391 | grouping neither loses nor invents an amount |
| ShoppingList.UnitLabelInjective | backend/foodgram_backend/recipes/models.py:44-56 | different units have different labels |
| ShoppingList.FindIngredientKey | backend/foodgram_backend/recipes/models.py:69-73 | in a catalog where (name, unit) is unique, a line carries an ingredient's name and unit exactly when it points at that ingredient |
| ShoppingList.CartItemsSum | backend/foodgram_backend/api/views.py:389-391 | the (name, unit) sum of the cart items is the sum of that ingredient's amounts over the cart's recipes |
| ShoppingList.Spaces | backend/foodgram_backend/api/views.py:396 | `" " * n` is n spaces |
| ShoppingList.RenderLines | backend/foodgram_backend/api/views.py:394-403 | the `append` loop builds exactly those lines |
| ShoppingList.ShoppingLinesStep | backend/foodgram_backend/api/views.py:399-403 | one more group adds its line at the end |
| ShoppingList.GroupLineAmount | backend/foodgram_backend/api/views.py:403 | a group's line ends with the decimal form of its amount |
| ShoppingList.GroupLineOneLine | backend/foodgram_backend/api/views.py:403 | a group's line holds no newline when its name and unit hold none |
| ShoppingList.ContentLines | backend/foodgram_backend/api/views.py:394-405 | the downloaded text splits back into exactly its lines |
| IngredientSearch.NameLeTotal | backend/foodgram_backend/api/views.py:261 | any two names are ordered one way or the other |
| IngredientSearch.NameLeTransitive | backend/foodgram_backend/api/views.py:261 | the name order is transitive |
| IngredientSearch.InsertPermutes | backend/foodgram_backend/api/views.py:261 | inserting a row adds it and keeps every other row |
| IngredientSearch.SortedHead | backend/foodgram_backend/api/views.py:261 | the rest of a sorted list is sorted and follows its head |
| IngredientSearch.ConsSorted | backend/foodgram_backend/api/views.py:261 | a head that precedes a sorted rest gives a sorted list |
| IngredientSearch.InsertSorted | backend/foodgram_backend/api/views.py:261 | inserting into a sorted list keeps it sorted |
| IngredientSearch.SortByNamePermutes | backend/foodgram_backend/api/views.py:261 | `order_by('name')` keeps every row as often as it occurs |
| IngredientSearch.SortByNameSorted | backend/foodgram_backend/api/views.py:261 | `order_by('name')` orders the rows by name |
| IngredientSearch.SearchIngredients | backend/foodgram_backend/api/views.py:254-261 | the result is sorted by name and holds exactly the catalog rows whose names start with the query, ignoring case; without a query (or with an empty one) it holds the whole catalog, each row as often as there |
| IngredientSearch.SearchNoDuplicates | backend/foodgram_backend/api/views.py:254-261 | the result repeats no catalog row |
| IngredientSearch.PermutationNoDuplicates | backend/foodgram_backend/api/views.py:261 | reordering a list without duplicates gives one without duplicates |
| IngredientSearch.CountInDistinct | backend/foodgram_backend/recipes/models.py:69-73 | in a list without duplicates every row occurs once |
| Filters.FilterByRelation | backend/foodgram_backend/api/filters.py:16-34 | a false or absent value leaves the queryset, true gives nothing for an anonymous requester and otherwise exactly the recipes with a row of the requester |
| Filters.FilterByAuthor | backend/foodgram_backend/api/filters.py:10 | `author__id=n` keeps exactly the recipes of author n |
| Filters.ApplyRecipeFilter | backend/foodgram_backend/api/filters.py:5-34 | a recipe passes the filter set exactly when it is in the queryset and meets every filter asked for: the author's, and for value=true an authenticated requester with the recipe in the cart, respectively among the favorites |
| Filters.RecipeFilterSubset | backend/foodgram_backend/api/filters.py:5-34 | filtering never adds or repeats a recipe |

## Left out

- **Users:** the user model of `users/models.py`, registration, the user
  list, the avatar endpoint, the password change and the subscriptions
  listing. The model only reads them, as a set of user ids.
- **Image handling:** `Base64ImageField` decoding and image storage. An
  image is an opaque string.
- **Object-level permissions.** `permissions.py` and `pagination.py` are
  not part of this model. Recipe update and delete take the recipe as
  given, without an owner check, and the author of a new recipe is a
  parameter.
- **Framework plumbing:** HTTP routing, JSON rendering of responses,
  response bodies other than the status and the shopping-list text, and
  the `print` calls.
- **Database machinery:** transactions and concurrent requests. The model
  runs one request at a time.
- **Other deletions:** deleting a user or an ingredient, with their
  cascades. Only recipe deletion is modelled.
- **Other parts of the repository:** migrations, the ingredient data load,
  the admin classes, `exceptions.py` and the URL configuration.
- **Short links:** the hashids short link and its redirect.
- **`update` on a non-dict payload.** `RecipeUpdateSerializer.to_internal_value`
  wraps unexpected exceptions as `{'error': [...]}`. Payloads are modelled
  as well-formed records, so that path does not arise.
- **Create's second ingredient check.** `RecipeCreateSerializer.to_internal_value`
  re-validates the nested list after the field validation. With
  well-formed payloads this gives the same verdict as the field
  validation, so it is modelled once.
- Text.ParseInt: Python's `int()` also accepts underscores between digits
  and non-ASCII decimal digits. The model accepts ASCII digits with an
  optional sign, surrounded by whitespace, only.
- Text.Upper: the database's case folding is modelled for ASCII and the
  basic Cyrillic alphabet (with ё) only.
- IngredientSearch.SortByName: `order_by('name')` is code-point
  lexicographic order. The database collation is not modelled.
- ShoppingList.Aggregate: the query has no `ORDER BY`. The groups are
  modelled in order of first appearance in the lines table; the database
  may return them in another order.
- Filters.FilterByAuthor: `NumberFilter` also accepts decimal values. The
  model takes an integer author id.
- Serializers.CreateAccepted: the `cooking_time` and `amount` fields have
  no upper bound, but their columns do (`IntegerField` and
  `PositiveIntegerField`: at most 2147483647 on PostgreSQL and MySQL,
  9223372036854775807 on SQLite). A larger value is accepted here as it
  is by the serializer, and the database refuses it afterwards. The
  database backend and its settings are not part of this model, so the
  bound is not modelled.
- Serializers.UpdateAccepted: the same column bound is not modelled.
- Serializers.CookingTimeErrors: the cooking-time column bound is not
  modelled; the field itself checks only the minimum of 1.
- Serializers.AmountsBelowOne: the amount column bound is not modelled;
  the nested field itself checks only the minimum of 1.
- Serializers.CreateRecipe: a cooking time or an amount beyond the column
  bound is not modelled. In the code the database raises `DataError` and
  the request ends in a 500. Nothing is wrapped in `transaction.atomic`,
  so the recipe can stay with only the lines inserted before the failing
  one.
- Serializers.UpdateRecipe: the same bound is not modelled. In the code
  an amount beyond it fails after `super().update` has saved the fields
  and the old lines have been deleted, so the recipe is left with the new
  fields and only the lines inserted before the failing one.
- Serializers.CheckMessage: the unknown-ingredient message it raises is
  the corrected one that names the id. The code's message, which names
  Python's builtin `id` instead, is modelled as
  `UnknownIngredientMessageAsWritten` (see Findings).
- Text.IsSpace: `str.strip()` and `int()` strip Python's whitespace set,
  which is written out code point by code point. A `char` is a Unicode
  scalar value, so the surrogate check of DRF's `CharField` has nothing to
  refuse and is not modelled.
- **Models.RecipesHaveLines** (every recipe has at least one line) is kept
  as a model invariant. The code keeps it because create and update
  refuse an empty list, not through a database constraint.

## Findings

| source | as written | input that shows it | evidently intended | confidence | as-written member | corrected member |
|---|---|---|---|---|---|---|
| backend/foodgram_backend/api/serializers.py:158 (and :230) | the f-string `f"Ингредиента с {id} id не существует."` interpolates Python's builtin function `id`, so the message reads "Ингредиента с <built-in function id> id не существует." for every unknown ingredient | an ingredient list `[{"id": 1, "amount": 1}]` and another with id 2, neither id in the catalog: both are refused with the same text | the message names the unknown id (`ingredient_id`) | high, not executed | Serializers.UnknownIngredientMessageAsWrittenHidesId | Serializers.UnknownIngredientMessageNamesId |

`Serializers.CheckMessage`, the text of the error `validate_ingredients`
raises, uses the corrected message.
