/** The POST/DELETE actions of the views that add or remove one row of a
    join table: `UserViewSet.subscribe` (Follow), `RecipeViewSet.favorite`
    (Favorite) and `RecipeViewSet.shopping_cart` (ShoppingCart). Each
    request is one atomic transition from a database to a status and a new
    database. */
module Toggles {
  import opened Tables
  import opened Schema
  import opened Http

  datatype Method = Post | Delete

  datatype Response = Response(status: Status, db: Db)

  /** The body shared by the three actions once the requester is logged in
      and the target exists: POST inserts the pair unless it is already
      there; DELETE removes every row equal to it and reports 400 when it
      removed none. */
  function Toggle<T(==,!new)>(rows: seq<T>, p: T, m: Method): (r: (Status, seq<T>))
    ensures m == Post ==> (r.0 == BadRequest <==> p in rows)
    ensures m == Post && r.0 != BadRequest ==> r.0 == Created && r.1 == rows + [p]
    ensures m == Delete ==> (r.0 == BadRequest <==> p !in rows)
    ensures m == Delete && r.0 != BadRequest ==> r.0 == NoContent
    ensures m == Delete ==> forall y :: y in r.1 <==> y in rows && y != p
    ensures r.0 == BadRequest ==> r.1 == rows
    ensures NoDup(rows) ==> NoDup(r.1)
  {
    match m
    case Post =>
      if p in rows then (BadRequest, rows)
      else
        AppendNoDup(rows, p);
        (Created, rows + [p])
    case Delete =>
      var rest := Without(rows, p);
      if Occurrences(rows, p) == 0 then
        WithoutAbsent(rows, p);
        (BadRequest, rest)
      else (NoContent, rest)
  }

  /** `UserViewSet.subscribe`: 401 for an anonymous requester, 404 for an
      unknown author, 400 for a POST on oneself or on an existing
      subscription and for a DELETE of a missing one. Only the Follow table
      can change. */
  function Subscribe(db: Db, req: Requester, author: UserId, m: Method): (r: Response)
    ensures r.db == db.(follows := r.db.follows)
    ensures req.Anonymous? ==> r == Response(Unauthorized, db)
    ensures req.Authenticated? && author !in db.users ==> r == Response(NotFound, db)
    ensures req == Authenticated(author) && author in db.users && m == Post ==> r == Response(BadRequest, db)
    ensures r.status == Created ==>
      && req.Authenticated? && req.id != author && author in db.users && m == Post
      && (req.id, author) !in db.follows && r.db.follows == db.follows + [(req.id, author)]
    ensures r.status == NoContent ==>
      && req.Authenticated? && author in db.users && m == Delete && (req.id, author) in db.follows
      && forall p :: p in r.db.follows <==> p in db.follows && p != (req.id, author)
    ensures req.Authenticated? && author in db.users && !(m == Post && req.id == author) ==>
      (r.status == BadRequest <==>
         (if m == Post then (req.id, author) in db.follows else (req.id, author) !in db.follows))
    ensures req.Authenticated? && author in db.users && !(m == Post && req.id == author) && r.status != BadRequest ==>
      r.status == (if m == Post then Created else NoContent)
    ensures r.status == BadRequest ==> r.db == db
    ensures NoDup(db.follows) ==> NoDup(r.db.follows)
  {
    if req.Anonymous? then Response(Unauthorized, db)
    else if author !in db.users then Response(NotFound, db)
    else if m == Post && req.id == author then Response(BadRequest, db)
    else
      var (s, rows) := Toggle(db.follows, (req.id, author), m);
      Response(s, db.(follows := rows))
  }

  /** The Favorite and ShoppingCart actions differ only in their table; this
      is their common shape for a table of (user, recipe) rows. */
  function RecipeToggle(db: Db, rows: seq<(UserId, RecipeId)>, req: Requester, recipe: RecipeId, m: Method)
    : (r: (Status, seq<(UserId, RecipeId)>))
    ensures req.Anonymous? ==> r == (Unauthorized, rows)
    ensures req.Authenticated? && recipe !in db.recipes ==> r == (NotFound, rows)
    ensures r.0 == Created ==>
      && req.Authenticated? && recipe in db.recipes && m == Post
      && (req.id, recipe) !in rows && r.1 == rows + [(req.id, recipe)]
    ensures r.0 == NoContent ==>
      && req.Authenticated? && recipe in db.recipes && m == Delete && (req.id, recipe) in rows
      && forall p :: p in r.1 <==> p in rows && p != (req.id, recipe)
    ensures req.Authenticated? && recipe in db.recipes ==>
      (r.0 == BadRequest <==> (if m == Post then (req.id, recipe) in rows else (req.id, recipe) !in rows))
    ensures req.Authenticated? && recipe in db.recipes && r.0 != BadRequest ==>
      r.0 == (if m == Post then Created else NoContent)
    ensures r.0 !in {Created, NoContent} ==> r.1 == rows
    ensures NoDup(rows) ==> NoDup(r.1)
  {
    if req.Anonymous? then (Unauthorized, rows)
    else if recipe !in db.recipes then (NotFound, rows)
    else Toggle(rows, (req.id, recipe), m)
  }

  /** `RecipeViewSet.favorite`: only the Favorite table can change. */
  function Favorite(db: Db, req: Requester, recipe: RecipeId, m: Method): (r: Response)
    ensures r.db == db.(favorites := r.db.favorites)
    ensures req.Anonymous? ==> r == Response(Unauthorized, db)
    ensures req.Authenticated? && recipe !in db.recipes ==> r == Response(NotFound, db)
    ensures req.Authenticated? && recipe in db.recipes ==>
      (r.status == BadRequest <==>
         (if m == Post then (req.id, recipe) in db.favorites else (req.id, recipe) !in db.favorites))
    ensures req.Authenticated? && recipe in db.recipes && r.status != BadRequest ==>
      r.status == (if m == Post then Created else NoContent)
    ensures r.status == Created ==> req.Authenticated? && r.db.favorites == db.favorites + [(req.id, recipe)]
    ensures r.status == NoContent ==>
      && req.Authenticated? && (req.id, recipe) in db.favorites
      && forall p :: p in r.db.favorites <==> p in db.favorites && p != (req.id, recipe)
    ensures r.status == Created || r.status == NoContent || r == Response(r.status, db)
  {
    var (s, rows) := RecipeToggle(db, db.favorites, req, recipe, m);
    Response(s, db.(favorites := rows))
  }

  /** `RecipeViewSet.shopping_cart`: only the ShoppingCart table can change. */
  function ShoppingCart(db: Db, req: Requester, recipe: RecipeId, m: Method): (r: Response)
    ensures r.db == db.(carts := r.db.carts)
    ensures req.Anonymous? ==> r == Response(Unauthorized, db)
    ensures req.Authenticated? && recipe !in db.recipes ==> r == Response(NotFound, db)
    ensures req.Authenticated? && recipe in db.recipes ==>
      (r.status == BadRequest <==>
         (if m == Post then (req.id, recipe) in db.carts else (req.id, recipe) !in db.carts))
    ensures req.Authenticated? && recipe in db.recipes && r.status != BadRequest ==>
      r.status == (if m == Post then Created else NoContent)
    ensures r.status == Created ==> req.Authenticated? && r.db.carts == db.carts + [(req.id, recipe)]
    ensures r.status == NoContent ==>
      && req.Authenticated? && (req.id, recipe) in db.carts
      && forall p :: p in r.db.carts <==> p in db.carts && p != (req.id, recipe)
    ensures r.status == Created || r.status == NoContent || r == Response(r.status, db)
  {
    var (s, rows) := RecipeToggle(db, db.carts, req, recipe, m);
    Response(s, db.(carts := rows))
  }

  /** A logged-in requester whose account exists: what token authentication
      yields. */
  predicate KnownRequester(db: Db, req: Requester) {
    req.Authenticated? && req.id in db.users
  }

  lemma SubscribeValid(db: Db, req: Requester, author: UserId, m: Method)
    requires Valid(db) && KnownRequester(db, req)
    ensures Valid(Subscribe(db, req, author, m).db)
  {
  }

  lemma FavoriteValid(db: Db, req: Requester, recipe: RecipeId, m: Method)
    requires Valid(db) && KnownRequester(db, req)
    ensures Valid(Favorite(db, req, recipe, m).db)
  {
  }

  lemma ShoppingCartValid(db: Db, req: Requester, recipe: RecipeId, m: Method)
    requires Valid(db) && KnownRequester(db, req)
    ensures Valid(ShoppingCart(db, req, recipe, m).db)
  {
  }

  /** The application-level rule no database constraint enforces: nobody
      follows themselves. Subscribing never breaks it. */
  predicate NoSelfFollow(follows: seq<(UserId, UserId)>) {
    forall p :: p in follows ==> p.0 != p.1
  }

  lemma SubscribeNoSelfFollow(db: Db, req: Requester, author: UserId, m: Method)
    requires NoSelfFollow(db.follows)
    ensures NoSelfFollow(Subscribe(db, req, author, m).db.follows)
  {
  }

  /** Subscribing to an author one did not follow and then unsubscribing
      returns 201, then 204, and restores the database exactly. */
  lemma SubscribeRoundTrip(db: Db, u: UserId, author: UserId)
    requires author in db.users && u != author && (u, author) !in db.follows
    ensures Subscribe(db, Authenticated(u), author, Post).status == Created
    ensures var r := Subscribe(db, Authenticated(u), author, Post);
            Subscribe(r.db, Authenticated(u), author, Delete) == Response(NoContent, db)
  {
    WithoutAppended(db.follows, (u, author));
  }

  lemma FavoriteRoundTrip(db: Db, u: UserId, recipe: RecipeId)
    requires recipe in db.recipes && (u, recipe) !in db.favorites
    ensures Favorite(db, Authenticated(u), recipe, Post).status == Created
    ensures var r := Favorite(db, Authenticated(u), recipe, Post);
            Favorite(r.db, Authenticated(u), recipe, Delete) == Response(NoContent, db)
  {
    WithoutAppended(db.favorites, (u, recipe));
  }

  lemma ShoppingCartRoundTrip(db: Db, u: UserId, recipe: RecipeId)
    requires recipe in db.recipes && (u, recipe) !in db.carts
    ensures ShoppingCart(db, Authenticated(u), recipe, Post).status == Created
    ensures var r := ShoppingCart(db, Authenticated(u), recipe, Post);
            ShoppingCart(r.db, Authenticated(u), recipe, Delete) == Response(NoContent, db)
  {
    WithoutAppended(db.carts, (u, recipe));
  }

  /** A second identical request after a successful one is refused and
      changes nothing: POST twice and DELETE twice both end in 400. */
  lemma SubscribeRepeated(db: Db, req: Requester, author: UserId, m: Method)
    requires Subscribe(db, req, author, m).status in {Created, NoContent}
    ensures var r := Subscribe(db, req, author, m);
            Subscribe(r.db, req, author, m) == Response(BadRequest, r.db)
  {
  }

  lemma FavoriteRepeated(db: Db, req: Requester, recipe: RecipeId, m: Method)
    requires Favorite(db, req, recipe, m).status in {Created, NoContent}
    ensures var r := Favorite(db, req, recipe, m);
            Favorite(r.db, req, recipe, m) == Response(BadRequest, r.db)
  {
  }

  lemma ShoppingCartRepeated(db: Db, req: Requester, recipe: RecipeId, m: Method)
    requires ShoppingCart(db, req, recipe, m).status in {Created, NoContent}
    ensures var r := ShoppingCart(db, req, recipe, m);
            ShoppingCart(r.db, req, recipe, m) == Response(BadRequest, r.db)
  {
  }

  /** A toggle by one user never touches another user's rows. */
  lemma FavoriteOthersUntouched(db: Db, u: UserId, recipe: RecipeId, m: Method, p: (UserId, RecipeId))
    requires p != (u, recipe)
    ensures p in Favorite(db, Authenticated(u), recipe, m).db.favorites <==> p in db.favorites
  {
  }

  lemma ShoppingCartOthersUntouched(db: Db, u: UserId, recipe: RecipeId, m: Method, p: (UserId, RecipeId))
    requires p != (u, recipe)
    ensures p in ShoppingCart(db, Authenticated(u), recipe, m).db.carts <==> p in db.carts
  {
  }

  lemma SubscribeOthersUntouched(db: Db, u: UserId, author: UserId, m: Method, p: (UserId, UserId))
    requires p != (u, author)
    ensures p in Subscribe(db, Authenticated(u), author, m).db.follows <==> p in db.follows
  {
  }

  /** A successful subscribe raises the requester's following count and the
      author's followers count by one; a successful unsubscribe lowers both
      by one; no one else's counts move. */
  lemma SubscribeCounts(db: Db, u: UserId, author: UserId, m: Method, x: UserId)
    requires NoDup(db.follows)
    ensures var r := Subscribe(db, Authenticated(u), author, m);
            var d := if r.status == Created then 1 else if r.status == NoContent then -1 else 0;
            && FollowingCount(r.db.follows, x) == FollowingCount(db.follows, x) + (if x == u then d else 0)
            && FollowersCount(r.db.follows, x) == FollowersCount(db.follows, x) + (if x == author then d else 0)
  {
    var r := Subscribe(db, Authenticated(u), author, m);
    if r.status == Created {
      FollowCountsAfterInsert(db.follows, u, author, x);
    } else if r.status == NoContent {
      FollowCountsAfterDelete(db.follows, u, author, x);
    }
  }
}
