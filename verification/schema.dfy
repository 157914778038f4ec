/** The relational schema of the `food` application: users, ingredients,
    recipes and the join tables between them, with the constraints the
    model declares and the cascades its foreign keys perform. */
module Schema {
  import opened Wrappers
  import opened Tables

  type UserId = nat
  type RecipeId = nat
  type IngredientId = nat

  datatype User = User(
    username: string,
    email: string,
    firstName: string,
    lastName: string,
    password: string,
    avatar: Option<string>)

  /** Reference data shared by all recipes; the name is unique. */
  datatype Ingredient = Ingredient(name: string, unit: string)

  /** Tags, image and description are not part of this model. */
  datatype Recipe = Recipe(author: UserId, name: string, cookingTime: int)

  /** The quantified link between a recipe and one ingredient. Its own
      `unit` column is stored but the shopping list reads the unit of the
      ingredient instead. */
  datatype RecipeIngredient = RecipeIngredient(
    recipe: RecipeId,
    ingredient: IngredientId,
    quantity: real,
    unit: string)

  /** The whole database. Follow rows are (follower, following); Favorite
      and ShoppingCart rows are (user, recipe). */
  datatype Db = Db(
    users: map<UserId, User>,
    ingredients: map<IngredientId, Ingredient>,
    recipes: map<RecipeId, Recipe>,
    recipeIngredients: seq<RecipeIngredient>,
    follows: seq<(UserId, UserId)>,
    favorites: seq<(UserId, RecipeId)>,
    carts: seq<(UserId, RecipeId)>)

  /** Largest value of a `PositiveSmallIntegerField` column, as Django
      checks it on PostgreSQL and, before Django 5.0, on every backend. */
  const MaxSmallInt: int := 32767

  /** `cooking_time`: a positive small integer of at least one minute. */
  predicate ValidCookingTime(t: int) {
    1 <= t <= MaxSmallInt
  }

  /** `unique=True` on the ingredient name. */
  predicate UniqueNames(ingredients: map<IngredientId, Ingredient>) {
    forall i, j :: i in ingredients && j in ingredients && ingredients[i].name == ingredients[j].name ==> i == j
  }

  /** `unique_together = ('recipe', 'ingredient')`. */
  predicate UniqueRecipeIngredients(rows: seq<RecipeIngredient>) {
    && NoDup(rows)
    && forall x, y :: x in rows && y in rows && x.recipe == y.recipe && x.ingredient == y.ingredient ==> x == y
  }

  /** Every foreign key points at an existing row. */
  predicate References(db: Db) {
    && (forall id :: id in db.recipes ==> db.recipes[id].author in db.users)
    && (forall x :: x in db.recipeIngredients ==> x.recipe in db.recipes && x.ingredient in db.ingredients)
    && (forall p :: p in db.follows ==> p.0 in db.users && p.1 in db.users)
    && (forall p :: p in db.favorites ==> p.0 in db.users && p.1 in db.recipes)
    && (forall p :: p in db.carts ==> p.0 in db.users && p.1 in db.recipes)
  }

  /** Everything the schema guarantees of a stored database. */
  predicate Valid(db: Db) {
    && NoDup(db.follows)
    && NoDup(db.favorites)
    && NoDup(db.carts)
    && UniqueRecipeIngredients(db.recipeIngredients)
    && UniqueNames(db.ingredients)
    && (forall id :: id in db.recipes ==> ValidCookingTime(db.recipes[id].cookingTime))
    && References(db)
  }

  /** The field validation of `cooking_time`: `MinValueValidator(1)` and the
      range of a positive small integer column. */
  function CleanCookingTime(t: int): (r: Option<nat>)
    ensures r.Some? ==> r.value >= 1 && r.value == t
    ensures r.None? <==> (t < 1 || t > MaxSmallInt)
  {
    if t < 1 || t > MaxSmallInt then None else Some(t)
  }

  /** `User.following_count`: the Follow rows whose follower is `u`. */
  function FollowingCount(follows: seq<(UserId, UserId)>, u: UserId): nat {
    CountIf(follows, (p: (UserId, UserId)) => p.0 == u)
  }

  /** `User.followers_count`: the Follow rows whose followed author is `u`. */
  function FollowersCount(follows: seq<(UserId, UserId)>, u: UserId): nat {
    CountIf(follows, (p: (UserId, UserId)) => p.1 == u)
  }

  /** A new Follow row (f, a) raises the following count of f and the
      followers count of a by one and leaves every other count alone. */
  lemma FollowCountsAfterInsert(follows: seq<(UserId, UserId)>, f: UserId, a: UserId, u: UserId)
    ensures FollowingCount(follows + [(f, a)], u) == FollowingCount(follows, u) + (if u == f then 1 else 0)
    ensures FollowersCount(follows + [(f, a)], u) == FollowersCount(follows, u) + (if u == a then 1 else 0)
  {
    CountIfAppend(follows, (f, a), (p: (UserId, UserId)) => p.0 == u);
    CountIfAppend(follows, (f, a), (p: (UserId, UserId)) => p.1 == u);
  }

  /** Deleting an existing Follow row (f, a) from a duplicate-free table
      lowers the following count of f and the followers count of a by one
      and leaves every other count alone. */
  lemma FollowCountsAfterDelete(follows: seq<(UserId, UserId)>, f: UserId, a: UserId, u: UserId)
    requires NoDup(follows) && (f, a) in follows
    ensures FollowingCount(Without(follows, (f, a)), u) == FollowingCount(follows, u) - (if u == f then 1 else 0)
    ensures FollowersCount(Without(follows, (f, a)), u) == FollowersCount(follows, u) - (if u == a then 1 else 0)
  {
    NoDupOccurrences(follows, (f, a));
    CountIfWithout(follows, (f, a), (p: (UserId, UserId)) => p.0 == u);
    CountIfWithout(follows, (f, a), (p: (UserId, UserId)) => p.1 == u);
  }

  /** Deleting a recipe: `on_delete=CASCADE` on RecipeIngredient, Favorite
      and ShoppingCart removes every row that points at it. */
  function DeleteRecipe(db: Db, rid: RecipeId): (r: Db)
    ensures rid !in r.recipes
    ensures forall id :: id in r.recipes <==> id in db.recipes && id != rid
    ensures forall id :: id in r.recipes ==> r.recipes[id] == db.recipes[id]
    ensures forall x :: x in r.recipeIngredients <==> x in db.recipeIngredients && x.recipe != rid
    ensures forall p :: p in r.favorites <==> p in db.favorites && p.1 != rid
    ensures forall p :: p in r.carts <==> p in db.carts && p.1 != rid
    ensures r.users == db.users && r.ingredients == db.ingredients && r.follows == db.follows
  {
    db.(recipes := db.recipes - {rid},
        recipeIngredients := Where(db.recipeIngredients, (x: RecipeIngredient) => x.recipe != rid),
        favorites := Where(db.favorites, (p: (UserId, RecipeId)) => p.1 != rid),
        carts := Where(db.carts, (p: (UserId, RecipeId)) => p.1 != rid))
  }

  lemma DeleteRecipeValid(db: Db, rid: RecipeId)
    requires Valid(db)
    ensures Valid(DeleteRecipe(db, rid))
  {
  }

  /** Recipe `rid` exists and was written by `u`. */
  predicate Authored(db: Db, u: UserId, rid: RecipeId) {
    rid in db.recipes && db.recipes[rid].author == u
  }

  /** Deleting a user: the cascades on Follow (both columns), Recipe.author,
      Favorite.user and ShoppingCart.user, and through the deleted recipes
      the cascades of `DeleteRecipe`. */
  function DeleteUser(db: Db, uid: UserId): (r: Db)
    ensures uid !in r.users
    ensures forall u :: u in r.users <==> u in db.users && u != uid
    ensures forall u :: u in r.users ==> r.users[u] == db.users[u]
    ensures forall id :: id in r.recipes <==> id in db.recipes && db.recipes[id].author != uid
    ensures forall id :: id in r.recipes ==> r.recipes[id] == db.recipes[id]
    ensures forall x :: x in r.recipeIngredients <==> x in db.recipeIngredients && !Authored(db, uid, x.recipe)
    ensures forall p :: p in r.follows <==> p in db.follows && p.0 != uid && p.1 != uid
    ensures forall p :: p in r.favorites <==> p in db.favorites && p.0 != uid && !Authored(db, uid, p.1)
    ensures forall p :: p in r.carts <==> p in db.carts && p.0 != uid && !Authored(db, uid, p.1)
    ensures r.ingredients == db.ingredients
  {
    db.(users := db.users - {uid},
        recipes := map id | id in db.recipes && db.recipes[id].author != uid :: db.recipes[id],
        recipeIngredients := Where(db.recipeIngredients, (x: RecipeIngredient) => !Authored(db, uid, x.recipe)),
        follows := Where(db.follows, (p: (UserId, UserId)) => p.0 != uid && p.1 != uid),
        favorites := Where(db.favorites, (p: (UserId, RecipeId)) => p.0 != uid && !Authored(db, uid, p.1)),
        carts := Where(db.carts, (p: (UserId, RecipeId)) => p.0 != uid && !Authored(db, uid, p.1)))
  }

  lemma DeleteUserValid(db: Db, uid: UserId)
    requires Valid(db)
    ensures Valid(DeleteUser(db, uid))
  {
  }

  /** Deleting an ingredient: the cascade on `RecipeIngredient.ingredient`
      removes the rows that use it. */
  function DeleteIngredient(db: Db, iid: IngredientId): (r: Db)
    ensures forall i :: i in r.ingredients <==> i in db.ingredients && i != iid
    ensures forall i :: i in r.ingredients ==> r.ingredients[i] == db.ingredients[i]
    ensures forall x :: x in r.recipeIngredients <==> x in db.recipeIngredients && x.ingredient != iid
    ensures r == db.(ingredients := r.ingredients, recipeIngredients := r.recipeIngredients)
  {
    db.(ingredients := db.ingredients - {iid},
        recipeIngredients := Where(db.recipeIngredients, (x: RecipeIngredient) => x.ingredient != iid))
  }

  lemma DeleteIngredientValid(db: Db, iid: IngredientId)
    requires Valid(db)
    ensures Valid(DeleteIngredient(db, iid))
  {
  }
}
