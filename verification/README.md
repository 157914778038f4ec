# Foodgram backend: the rules under the views

Foodgram is a recipe-sharing web backend. Users follow authors, bookmark recipes as favorites, put recipes into a shopping cart, and download an aggregated shopping list. This project models the small rule sets that sit underneath the Django views. The database is replaced by immutable values: a `Db` datatype whose join tables are sequences of rows. Every request is a pure, atomic transition from a database to a status and a new database.

Modules, following the source layout:

- `Schema` (`schema.dfy`, from `backend/food/models.py`). It holds the entities and the constraints the schema declares: `unique_together`, the unique ingredient name, referential integrity and the `cooking_time` range. These make up the predicate `Valid`. It also holds `following_count` / `followers_count` and the `on_delete=CASCADE` behaviour of deleting a recipe, a user or an ingredient.
- `Toggles` (`toggles.dfy`, from `backend/api/views.py`). It models `subscribe`, `favorite` and `shopping_cart`: a POST inserts a pair only when it is absent, a DELETE removes the pair and answers 400 when it removed nothing, and following oneself is refused.
- `ShoppingList` (`shopping.dfy`, from `download_shopping_cart`). It joins the cart rows with their ingredients, groups them by (name, unit) and sums them, orders the groups by name, and renders a two-line header followed by one line per group.
- `IngredientSearch` (`search.dfy`, from `IngredientViewSet.get_queryset`). It is the case-insensitive prefix filter.
- `IngredientLoader` (`loader.dfy`, from the `load_ingredients` command). It is an upsert fold over the parsed JSON items with three counters.
- `Permissions` (`permissions.dfy`) models `IsAuthorOrReadOnly`. `Serializers` (`serializers.dfy`) models `UserSerializer` with `is_subscribed` and the write-only password.
- `Subscriptions` (`subscriptions.dfy`) models the `subscriptions` list. It is described under Findings.
- Helpers: `Tables` holds the row-level operations (filter, delete with a count, uniqueness), `Text` holds Python's `strip()`, SQLite's ASCII case folding and code-point ordering, and line splitting, and `Wrappers` holds `Option`. `Http` holds the status codes and the requesting user.

The default database in `backend/foodgram/settings.py:62-71` is SQLite, and the model follows it in two places. Names are ordered by code point, which is SQLite's BINARY collation. `istartswith` folds only ASCII letters, as SQLite's `LIKE` does.

Where the written design and the code differ, the model follows the code:

- There is no lower bound on `RecipeIngredient.quantity`, which is a float with default 1.0.
- No validation of duplicate or empty ingredient lists appears in the serializers.
- The shopping list uses the ingredient's `measurement_unit`, not the join row's own `unit`.

## Model

| member | source | states |
|---|---|---|
| Toggles.Toggle | backend/api/views.py:129-147 | POST: 400 iff the pair is present, else 201 and the pair appended. DELETE: 400 iff the pair is absent, else 204, and the table keeps exactly the other rows. A 400 changes nothing. Uniqueness of rows is preserved. |
| Toggles.Subscribe | backend/api/views.py:51-82 | 401 for an anonymous requester. 404 for an unknown author. 400 with no change for a POST on oneself. Otherwise 400 iff the follow already exists (POST) or is missing (DELETE), and a request that is not refused answers 201 (POST) or 204 (DELETE). 201 appends (user, author). 204 removes exactly that pair. Only the Follow table can change. |
| Toggles.RecipeToggle | backend/api/views.py:123-147 | The shared favorite/cart shape: 401 for an anonymous requester, 404 for an unknown recipe, then 400 iff the pair is present (POST) or absent (DELETE). Otherwise 201 inserts or 204 removes exactly the pair. |
| Toggles.Favorite | backend/api/views.py:180-204 | 401 for an anonymous requester and 404 for an unknown recipe, both with no change. Otherwise 400 iff the favorite already exists (POST) or is missing (DELETE), and a request that is not refused answers 201 (POST) or 204 (DELETE). 201 appends (user, recipe). 204 removes exactly that pair. Only the Favorite table can change, and any other status leaves the database unchanged. |
| Toggles.ShoppingCart | backend/api/views.py:123-147 | 401 for an anonymous requester and 404 for an unknown recipe, both with no change. Otherwise 400 iff the recipe is already in the cart (POST) or is not in it (DELETE), and a request that is not refused answers 201 (POST) or 204 (DELETE). 201 appends (user, recipe). 204 removes exactly that pair. Only the ShoppingCart table can change, and any other status leaves the database unchanged. |
| Toggles.SubscribeValid | backend/food/models.py:46-55 | For a logged-in, existing requester, subscribe keeps every schema constraint. In particular a (follower, following) pair never occurs twice. |
| Toggles.FavoriteValid | backend/food/models.py:130-148 | Favorite keeps every schema constraint, including the (user, recipe) uniqueness. |
| Toggles.ShoppingCartValid | backend/food/models.py:152-170 | ShoppingCart keeps every schema constraint, including the (user, recipe) uniqueness. |
| Toggles.SubscribeNoSelfFollow | backend/api/views.py:57-62 | If nobody followed themselves before a subscribe request, nobody does after it. |
| Toggles.SubscribeRoundTrip | backend/api/views.py:57-82 | Subscribing to a new other author gives 201. Unsubscribing then gives 204 and restores the database exactly. |
| Toggles.FavoriteRoundTrip | backend/api/views.py:186-204 | Favoriting an unfavorited recipe gives 201. Removing it then gives 204 and restores the database exactly. |
| Toggles.ShoppingCartRoundTrip | backend/api/views.py:129-147 | Adding a recipe not in the cart gives 201. Removing it then gives 204 and restores the database exactly. |
| Toggles.SubscribeRepeated | backend/api/views.py:63-82 | Repeating a successful POST or DELETE gives 400 and changes nothing. |
| Toggles.FavoriteRepeated | backend/api/views.py:186-204 | Repeating a successful POST or DELETE gives 400 and changes nothing. |
| Toggles.ShoppingCartRepeated | backend/api/views.py:129-147 | Repeating a successful POST or DELETE gives 400 and changes nothing. |
| Toggles.SubscribeOthersUntouched | backend/api/views.py:68-76 | No Follow pair other than (user, author) appears or disappears. |
| Toggles.FavoriteOthersUntouched | backend/api/views.py:192-198 | No Favorite pair other than (user, recipe) appears or disappears. |
| Toggles.ShoppingCartOthersUntouched | backend/api/views.py:135-141 | No cart pair other than (user, recipe) appears or disappears. |
| Toggles.SubscribeCounts | backend/food/models.py:20-26 | A 201 raises the requester's following_count and the author's followers_count by one. A 204 lowers both by one. Nobody else's counts change. |
| Schema.FollowCountsAfterInsert | backend/food/models.py:20-26 | A new Follow row (f, a) adds one to f's following_count and one to a's followers_count, and nothing to anyone else's. |
| Schema.FollowCountsAfterDelete | backend/food/models.py:20-26 | Deleting an existing row (f, a) from a duplicate-free table subtracts one from each of those two counts, and nothing from anyone else's. |
| Tables.NoDupOccurrences | backend/api/views.py:74-77 | Under the uniqueness constraint a delete reports at most one row, and exactly one when the pair is present. |
| Schema.CleanCookingTime | backend/food/models.py:95-99 | A cooking time is accepted iff 1 <= t <= 32767. An accepted value is at least 1. |
| Schema.DeleteRecipe | backend/food/models.py:110-163 | Deleting a recipe removes it and every RecipeIngredient, Favorite and ShoppingCart row pointing at it. Every other row, user, ingredient and follow is kept. |
| Schema.DeleteRecipeValid | backend/food/models.py:110-171 | The recipe cascade keeps every schema constraint, including referential integrity. |
| Schema.DeleteUser | backend/food/models.py:46-163 | Deleting a user removes the user, every Follow row on either side, their recipes and everything pointing at those recipes, and their favorites and cart rows. Nothing else is removed, and every remaining user and recipe keeps its values. |
| Schema.DeleteUserValid | backend/food/models.py:46-171 | The user cascade keeps every schema constraint. |
| Schema.DeleteIngredient | backend/food/models.py:114-116 | Deleting an ingredient removes it and exactly the RecipeIngredient rows that use it. Every remaining ingredient keeps its values, and no other table changes. |
| Schema.DeleteIngredientValid | backend/food/models.py:110-122 | The ingredient cascade keeps every schema constraint. |
| ShoppingList.AddItem | backend/api/views.py:154-161 | Adding a row adds its (name, unit) to the set of keys. It raises that key's total by the row's quantity and leaves every other total as it was. |
| ShoppingList.AddItemSorted | backend/api/views.py:156-161 | Adding a row keeps the lines in name order and keeps one line per (name, unit). |
| ShoppingList.Aggregate | backend/api/views.py:154-161 | The groups are in name order with one line per key. Their keys are exactly the rows' keys, and each key's total is the sum of that key's quantities. |
| ShoppingList.ItemsTotal | backend/api/views.py:154-160 | Summing the joined cart rows by key equals the reference total computed directly over the RecipeIngredient table. |
| ShoppingList.ItemsKeys | backend/api/views.py:154-158 | The keys of the joined rows are exactly the (name, unit) pairs of ingredients used by recipes in the cart. |
| ShoppingList.ItemsOf | backend/api/views.py:154-158 | A RecipeIngredient row appears joined with its ingredient iff its recipe is in the user's cart and its ingredient exists. |
| ShoppingList.OutsideCartIgnored | backend/api/views.py:154-156 | Adding RecipeIngredient rows for recipes outside the user's cart changes neither the joined rows nor any key or total of the list. |
| ShoppingList.GroupIsIngredient | backend/food/models.py:33 | Ingredient names are unique, so the total for an ingredient's (name, unit) equals the total of the rows using that ingredient id. |
| ShoppingList.NamesStrictlyAscend | backend/food/models.py:33 | With unique names no two lines share a name, so the lines are in strictly ascending name order. |
| ShoppingList.TotalOfLine | backend/api/views.py:159-171 | With one line per key, the total recorded for a key is the one written on its line. |
| ShoppingList.RenderLines | backend/api/views.py:163-172 | When no field contains a newline, the text reads back as the requester line, the date line, an empty line, and then exactly one `name (unit) — total` line per group, in order. |
| ShoppingList.DownloadShoppingCart | backend/api/views.py:149-178 | The groups are sorted, with one line per key. Their keys are those of the user's cart, and every total equals the cart total of its key. The text renders them under the requester's own username. An empty cart yields only the header. |
| IngredientSearch.Search | backend/api/views.py:213-218 | A missing or empty query returns every ingredient. Otherwise each ingredient appears as often as it was listed if its name starts with the query up to ASCII case, and not at all otherwise. |
| IngredientSearch.SearchIgnoresCase | backend/api/views.py:216-217 | Queries equal up to ASCII case return identical results. |
| IngredientSearch.SearchNarrows | backend/api/views.py:217 | Extending a non-empty query never adds ingredients. |
| IngredientSearch.SearchFindsByPrefix | backend/api/views.py:217 | Every ingredient is found by every non-empty prefix of its name. |
| IngredientLoader.Field | backend/food/management/commands/load_ingredients.py:26-27 | A missing key reads as an empty string, and a string value reads as its `strip()`. A non-string value raises, which the model returns as None. Whatever is read is already stripped. |
| IngredientLoader.Parse | backend/food/management/commands/load_ingredients.py:25-45 | A non-object item, or one whose name or unit is not a string, is malformed. Otherwise a name that strips to nothing is blank. Any other item is stored as its stripped name with its stripped unit, a missing unit reading as "". |
| IngredientLoader.Step | backend/food/management/commands/load_ingredients.py:29-45 | A new name is inserted and counted as created. An existing name gets its unit overwritten and is counted as updated. A blank or failing item changes no row and is counted as skipped. |
| IngredientLoader.Load | backend/food/management/commands/load_ingredients.py:24-45 | The counters add up to the number of items. `skipped` counts the blank and failing items. Each name maps to the unit of its last occurrence, and names absent from the input are untouched. `created` is the number of new names. |
| IngredientLoader.Handle | backend/food/management/commands/load_ingredients.py:23-47 | A non-array document changes nothing and reports zeros. For an array, the loop runs over every item. Each name ends with the unit of its last stored occurrence, and a name that never occurs keeps its old unit. `skipped` counts the blank and failing items, `created` counts the new names, and the three counters add up to the length. |
| IngredientLoader.LoadIdempotent | backend/food/management/commands/load_ingredients.py:30-39 | Loading the same file twice leaves the table as the first run left it, and the second run creates nothing. |
| IngredientLoader.ParseTrims | backend/food/management/commands/load_ingredients.py:26-27 | Surrounding whitespace in a name or unit does not change what the item loads as. |
| IngredientLoader.MalformedSkipped | backend/food/management/commands/load_ingredients.py:42-45 | A failing or blank item counts as one skip and does not abort the loop. The final table is the same as if the item were absent. |
| Permissions.HasObjectPermission | backend/api/permissions.py:10-14 | GET, HEAD and OPTIONS are always allowed. The author is always allowed. Any other method is allowed iff the requester is the logged-in author. |
| Permissions.AuthorPermitted | backend/api/permissions.py:12-14 | The author's permitted methods are all methods. |
| Permissions.OthersReadOnly | backend/api/permissions.py:12-14 | For anyone but the author, the anonymous user included, the permitted methods are exactly the safe ones. |
| Serializers.IsSubscribed | backend/api/serializers.py:21-30 | False without a request and false for an anonymous requester. Otherwise true iff (requester, obj) is a Follow row. |
| Serializers.SerializeUser | backend/api/serializers.py:32-36 | The keys are exactly the declared fields minus the write-only ones, and no key is `password`. Every entry is a readable field under its own name with that field's value, so the password value never appears. `is_subscribed` carries the given flag. |
| Serializers.UserFor | backend/api/serializers.py:18-36 | The rendered user carries `is_subscribed` as computed for the request. |
| Serializers.SubscribeSetsFlag | backend/api/serializers.py:27-30 | After a 201 subscribe the author renders as subscribed. After a 204 unsubscribe the author renders as not subscribed. |
| Serializers.SubscribeRefusedIffSubscribed | backend/api/views.py:63-67 | For an existing other author, a subscribe POST is refused iff `is_subscribed` already reads true. |
| Subscriptions.AsWrittenIsSelf | backend/api/views.py:44 | The query as written lists only the requester, once per Follow row of theirs. |
| Subscriptions.AsWrittenCounterexample | backend/api/views.py:44 | If user 1 follows user 2, the query as written lists [1] and the intended list is [2]. |
| Subscriptions.Following | backend/api/views.py:41-49 | An author is listed iff the requester follows them. The list length is the requester's following_count. |
| Subscriptions.FollowingNoDup | backend/food/models.py:55 | Because Follow rows are unique, nobody is listed twice. |
| Subscriptions.FollowingAreSubscribed | backend/api/serializers.py:27-30 | Everybody on the list renders with `is_subscribed` true for the requester. |

## Findings

| source | as written | input that shows it | evidently intended | confidence | as-written member | corrected member |
|---|---|---|---|---|---|---|
| backend/api/views.py:44 | `User.objects.filter(following__follower=user)`. `following` is the reverse name of `Follow.follower` (models.py:47-49), so the filter selects the user whose follow row has `user` as follower, which is the requester. | User 1 follows user 2. `GET /api/users/subscriptions/` as user 1 lists user 1 once, not user 2. | The users the requester follows, i.e. `followers__follower=user`. | high; not executed | Subscriptions.AsWrittenCounterexample | Subscriptions.Following |

## Left out

- Response bodies, routing, pagination and token authentication are framework I/O. The serializers `SubscriptionSerializer` and `RecipeShortSerializer` that the views import are not part of this model.
- The check-then-insert race on the toggle endpoints is not modelled. Each request is modelled as atomic.
- `datetime.now()` in the shopping-list header is not modelled: the formatted date is a parameter.
- The text form of a float total is not modelled: it is a parameter `show`. Quantities are `real`, and float rounding in the database `Sum` is not modelled.
- PostgreSQL is not modelled; SQLite is. With PostgreSQL, name order would follow the locale collation and `istartswith` would upper-case all of Unicode.
- ShoppingList.DownloadShoppingCart: takes the logged-in user as a parameter and requires that the user exists, which token authentication guarantees. The 401 for an anonymous requester is modelled only for the toggle endpoints.
- ShoppingList.CartItems selects rows whose recipe is in the cart, instead of joining once per cart row. The two agree when cart rows are unique, which `Valid` guarantees.
- Tags, images, recipe text, recipe create and update through `RecipeSerializer`, `TagViewSet` and `get_link` are left out. They are declarative CRUD with no rule beyond the schema.
- User registration and the unique username and email are left out, for the same reason.
- Avatar upload and deletion are file storage, so they are left out.
- Schema.CleanCookingTime: the upper bound 32767 is the range Django checks for a positive small integer column on PostgreSQL, and on every backend before Django 5.0. No Django version is pinned in the source. With SQLite on Django 5.0 or later the range check is 64-bit, and the model does not cover that case. models.py itself states only the lower bound of 1.
- IngredientLoader: ingredients are keyed by their unique name. Row ids, file reading, JSON parsing and the messages written to stdout are not modelled.
- The admin site, settings and the registration smoke script are configuration and a live-HTTP script, so they are left out.
