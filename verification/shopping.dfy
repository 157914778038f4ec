/** `RecipeViewSet.download_shopping_cart`: the RecipeIngredient rows of the
    recipes in a user's cart, grouped by the name and measurement unit of
    their ingredient, quantities summed, groups ordered by name, rendered
    as a plain-text list under a two-line header. */
module ShoppingList {
  import opened Tables
  import opened Text
  import opened Schema

  /** One RecipeIngredient row joined with its ingredient. */
  datatype Item = Item(name: string, unit: string, quantity: real)

  /** One row of the grouped query, i.e. one line of the list. */
  datatype Group = Group(name: string, unit: string, total: real)

  // ---------------------------------------------------------------------
  // The database side: which rows take part and what they should add up to

  /** The cart rows of `u`, joined with their ingredient, in table order. */
  function CartItems(db: Db, u: UserId): seq<Item> {
    ItemsOf(db.ingredients, db.carts, u, db.recipeIngredients)
  }

  /** A row contributes when its recipe is in `u`'s cart; the inner join
      also drops a row whose ingredient is missing. */
  predicate Contributes(ingredients: map<IngredientId, Ingredient>, carts: seq<(UserId, RecipeId)>,
                        u: UserId, x: RecipeIngredient) {
    (u, x.recipe) in carts && x.ingredient in ingredients
  }

  /** Row `x` joined with its ingredient. */
  function ItemFor(ingredients: map<IngredientId, Ingredient>, x: RecipeIngredient): Item
    requires x.ingredient in ingredients
  {
    Item(ingredients[x.ingredient].name, ingredients[x.ingredient].unit, x.quantity)
  }

  /** The contributing rows of `rows`, joined, in table order. */
  function ItemsOf(ingredients: map<IngredientId, Ingredient>, carts: seq<(UserId, RecipeId)>,
                   u: UserId, rows: seq<RecipeIngredient>): (r: seq<Item>)
    ensures |r| <= |rows|
    ensures forall x :: x in rows && Contributes(ingredients, carts, u, x) ==> ItemFor(ingredients, x) in r
    ensures forall it :: it in r ==>
      exists x :: x in rows && Contributes(ingredients, carts, u, x) && it == ItemFor(ingredients, x)
  {
    if |rows| == 0 then []
    else
      var x := rows[0];
      (if Contributes(ingredients, carts, u, x)
       then [ItemFor(ingredients, x)]
       else [])
      + ItemsOf(ingredients, carts, u, rows[1..])
  }

  /** Reference total for one (name, unit): the quantities of the rows
      whose recipe is in `u`'s cart and whose ingredient has that name and
      unit. */
  function RowTotal(ingredients: map<IngredientId, Ingredient>, carts: seq<(UserId, RecipeId)>,
                    u: UserId, rows: seq<RecipeIngredient>, name: string, unit: string): real
  {
    if |rows| == 0 then 0.0
    else
      var x := rows[0];
      (if Contributes(ingredients, carts, u, x) && ingredients[x.ingredient] == Ingredient(name, unit)
       then x.quantity else 0.0)
      + RowTotal(ingredients, carts, u, rows[1..], name, unit)
  }

  function CartTotal(db: Db, u: UserId, name: string, unit: string): real {
    RowTotal(db.ingredients, db.carts, u, db.recipeIngredients, name, unit)
  }

  /** The (name, unit) pairs that occur in `u`'s cart. */
  function CartKeys(db: Db, u: UserId): set<(string, string)> {
    set x | x in db.recipeIngredients && Contributes(db.ingredients, db.carts, u, x)
      :: (db.ingredients[x.ingredient].name, db.ingredients[x.ingredient].unit)
  }

  /** Reference total for one ingredient, by its id. */
  function RowTotalById(carts: seq<(UserId, RecipeId)>, u: UserId, rows: seq<RecipeIngredient>,
                        i: IngredientId): real
  {
    if |rows| == 0 then 0.0
    else
      (if (u, rows[0].recipe) in carts && rows[0].ingredient == i then rows[0].quantity else 0.0)
      + RowTotalById(carts, u, rows[1..], i)
  }

  // ---------------------------------------------------------------------
  // Grouping

  function SumFor(items: seq<Item>, name: string, unit: string): real {
    if |items| == 0 then 0.0
    else (if items[0].name == name && items[0].unit == unit then items[0].quantity else 0.0)
         + SumFor(items[1..], name, unit)
  }

  function ItemKeys(items: seq<Item>): set<(string, string)> {
    set it | it in items :: (it.name, it.unit)
  }

  function Keys(groups: seq<Group>): set<(string, string)> {
    set g | g in groups :: (g.name, g.unit)
  }

  /** The total the groups show for (name, unit); 0 when no line has it. */
  function TotalOf(groups: seq<Group>, name: string, unit: string): real {
    if |groups| == 0 then 0.0
    else (if groups[0].name == name && groups[0].unit == unit then groups[0].total else 0.0)
         + TotalOf(groups[1..], name, unit)
  }

  /** `order_by('ingredient__name')`. */
  predicate Sorted(groups: seq<Group>) {
    forall i, j :: 0 <= i < j < |groups| ==> LexLe(groups[i].name, groups[j].name)
  }

  /** `values(name, unit).annotate(Sum)`: one line per (name, unit). */
  predicate DistinctKeys(groups: seq<Group>) {
    forall i, j :: 0 <= i < j < |groups| ==> (groups[i].name, groups[i].unit) != (groups[j].name, groups[j].unit)
  }

  /** Adds one row to the groups: into the line with its key when there is
      one, otherwise as a new line placed before the first greater name. */
  function AddItem(groups: seq<Group>, it: Item): (r: seq<Group>)
    ensures Keys(r) == Keys(groups) + {(it.name, it.unit)}
    ensures forall n, u :: TotalOf(r, n, u)
                        == TotalOf(groups, n, u) + (if n == it.name && u == it.unit then it.quantity else 0.0)
  {
    if |groups| == 0 then
      var r := [Group(it.name, it.unit, it.quantity)];
      KeysCons(r[0], []);
      TotalOfCons(r[0], []);
      r
    else
      var g := groups[0];
      assert groups == [g] + groups[1..];
      KeysCons(g, groups[1..]);
      TotalOfCons(g, groups[1..]);
      if g.name == it.name && g.unit == it.unit then
        var r := [g.(total := g.total + it.quantity)] + groups[1..];
        KeysCons(r[0], groups[1..]);
        TotalOfCons(r[0], groups[1..]);
        r
      else if LexLe(it.name, g.name) && it.name != g.name then
        var r := [Group(it.name, it.unit, it.quantity)] + groups;
        KeysCons(r[0], groups);
        TotalOfCons(r[0], groups);
        r
      else
        var rest := AddItem(groups[1..], it);
        KeysCons(g, rest);
        TotalOfCons(g, rest);
        [g] + rest
  }

  /** The total of a key over a line followed by more lines. */
  lemma TotalOfCons(g: Group, groups: seq<Group>)
    ensures forall n, u :: TotalOf([g] + groups, n, u)
                        == (if g.name == n && g.unit == u then g.total else 0.0) + TotalOf(groups, n, u)
  {
  }

  lemma KeysCons(g: Group, groups: seq<Group>)
    ensures Keys([g] + groups) == {(g.name, g.unit)} + Keys(groups)
  {
  }

  lemma LexLeReflexive(a: string)
    ensures LexLe(a, a)
  {
  }

  /** A lower bound of the groups and of the row is one of the result. */
  lemma {:induction false} AddItemBound(groups: seq<Group>, it: Item, b: string)
    requires LexLe(b, it.name)
    requires forall k :: 0 <= k < |groups| ==> LexLe(b, groups[k].name)
    ensures forall k :: 0 <= k < |AddItem(groups, it)| ==> LexLe(b, AddItem(groups, it)[k].name)
  {
    if |groups| > 0 {
      var g := groups[0];
      if !(g.name == it.name && g.unit == it.unit) && !(LexLe(it.name, g.name) && it.name != g.name) {
        AddItemBound(groups[1..], it, b);
      }
    }
  }

  /** A line placed before sorted, distinct lines that it bounds and whose
      keys differ from its own keeps them sorted and distinct. */
  lemma ConsSorted(g: Group, rest: seq<Group>)
    requires Sorted(rest) && DistinctKeys(rest)
    requires forall k :: 0 <= k < |rest| ==> LexLe(g.name, rest[k].name)
    requires forall k :: 0 <= k < |rest| ==> (rest[k].name, rest[k].unit) != (g.name, g.unit)
    ensures Sorted([g] + rest) && DistinctKeys([g] + rest)
  {
  }

  /** A new line with a name below every existing name keeps the order. */
  lemma InsertFrontSorted(groups: seq<Group>, it: Item)
    requires Sorted(groups) && DistinctKeys(groups) && |groups| > 0
    requires LexLe(it.name, groups[0].name) && it.name != groups[0].name
    ensures Sorted([Group(it.name, it.unit, it.quantity)] + groups)
    ensures DistinctKeys([Group(it.name, it.unit, it.quantity)] + groups)
  {
    var g := groups[0];
    forall k | 0 <= k < |groups|
      ensures LexLe(it.name, groups[k].name) && groups[k].name != it.name
    {
      if k > 0 {
        LexLeTransitive(it.name, g.name, groups[k].name);
        if groups[k].name == it.name {
          LexLeAntisymmetric(it.name, g.name);
        }
      }
    }
    ConsSorted(Group(it.name, it.unit, it.quantity), groups);
  }

  /** Merging into the first line keeps names and keys as they were. */
  lemma MergeFrontSorted(groups: seq<Group>, q: real)
    requires Sorted(groups) && DistinctKeys(groups) && |groups| > 0
    ensures Sorted([groups[0].(total := groups[0].total + q)] + groups[1..])
    ensures DistinctKeys([groups[0].(total := groups[0].total + q)] + groups[1..])
  {
  }

  /** Inserting keeps the groups in name order and keeps one line per key. */
  lemma {:induction false} AddItemSorted(groups: seq<Group>, it: Item)
    requires Sorted(groups) && DistinctKeys(groups)
    ensures Sorted(AddItem(groups, it)) && DistinctKeys(AddItem(groups, it))
  {
    if |groups| > 0 {
      var g := groups[0];
      if g.name == it.name && g.unit == it.unit {
        MergeFrontSorted(groups, it.quantity);
      } else if LexLe(it.name, g.name) && it.name != g.name {
        InsertFrontSorted(groups, it);
      } else {
        var rest := AddItem(groups[1..], it);
        assert AddItem(groups, it) == [g] + rest;
        if it.name != g.name {
          LexLeTotal(it.name, g.name);
        } else {
          LexLeReflexive(g.name);
        }
        TailSorted(groups);
        AddItemBound(groups[1..], it, g.name);
        AddItemSorted(groups[1..], it);
        KeysDiffer(g, rest);
        ConsSorted(g, rest);
      }
    }
  }

  /** The lines after the first are sorted and distinct, bounded by the
      first name, and none shares the first key. */
  lemma TailSorted(groups: seq<Group>)
    requires Sorted(groups) && DistinctKeys(groups) && |groups| > 0
    ensures Sorted(groups[1..]) && DistinctKeys(groups[1..])
    ensures forall k :: 0 <= k < |groups[1..]| ==> LexLe(groups[0].name, groups[1..][k].name)
    ensures (groups[0].name, groups[0].unit) !in Keys(groups[1..])
  {
  }

  /** A key absent from the lines' key set differs from every line's key. */
  lemma KeysDiffer(g: Group, rest: seq<Group>)
    requires (g.name, g.unit) !in Keys(rest)
    ensures forall k :: 0 <= k < |rest| ==> (rest[k].name, rest[k].unit) != (g.name, g.unit)
  {
  }

  lemma {:induction false} SumForAppend(a: seq<Item>, b: seq<Item>, n: string, u: string)
    ensures SumFor(a + b, n, u) == SumFor(a, n, u) + SumFor(b, n, u)
  {
    if |a| > 0 {
      assert (a + b)[1..] == a[1..] + b;
      SumForAppend(a[1..], b, n, u);
    } else {
      assert a + b == b;
    }
  }

  /** The grouping query: one line per (name, unit) of the rows, in name
      order, each carrying the sum of that key's quantities. */
  method Aggregate(items: seq<Item>) returns (groups: seq<Group>)
    ensures Sorted(groups) && DistinctKeys(groups)
    ensures Keys(groups) == ItemKeys(items)
    ensures forall n, u :: TotalOf(groups, n, u) == SumFor(items, n, u)
  {
    groups := [];
    var i := 0;
    while i < |items|
      invariant 0 <= i <= |items|
      invariant Sorted(groups) && DistinctKeys(groups)
      invariant Keys(groups) == ItemKeys(items[..i])
      invariant forall n, u :: TotalOf(groups, n, u) == SumFor(items[..i], n, u)
    {
      AddItemSorted(groups, items[i]);
      var next := AddItem(groups, items[i]);
      assert items[..i + 1] == items[..i] + [items[i]];
      forall n, u
        ensures TotalOf(next, n, u) == SumFor(items[..i + 1], n, u)
      {
        SumForAppend(items[..i], [items[i]], n, u);
        assert [items[i]][1..] == [];
      }
      groups := next;
      i := i + 1;
    }
    assert items[..i] == items;
  }

  // ---------------------------------------------------------------------
  // Connecting the grouped rows to the database

  lemma {:induction false} ItemsTotal(ingredients: map<IngredientId, Ingredient>, carts: seq<(UserId, RecipeId)>,
                                      u: UserId, rows: seq<RecipeIngredient>, n: string, un: string)
    ensures SumFor(ItemsOf(ingredients, carts, u, rows), n, un) == RowTotal(ingredients, carts, u, rows, n, un)
  {
    if |rows| > 0 {
      var head := ItemsOf(ingredients, carts, u, [rows[0]]);
      assert ItemsOf(ingredients, carts, u, rows) == head + ItemsOf(ingredients, carts, u, rows[1..]);
      SumForAppend(head, ItemsOf(ingredients, carts, u, rows[1..]), n, un);
      ItemsTotal(ingredients, carts, u, rows[1..], n, un);
    }
  }

  lemma {:induction false} ItemsKeys(ingredients: map<IngredientId, Ingredient>, carts: seq<(UserId, RecipeId)>,
                                     u: UserId, rows: seq<RecipeIngredient>)
    ensures ItemKeys(ItemsOf(ingredients, carts, u, rows))
         == set x | x in rows && Contributes(ingredients, carts, u, x)
              :: (ingredients[x.ingredient].name, ingredients[x.ingredient].unit)
  {
    var keys := set x | x in rows && Contributes(ingredients, carts, u, x)
                  :: (ingredients[x.ingredient].name, ingredients[x.ingredient].unit);
    if |rows| == 0 {
      assert keys == {};
    } else {
      var x := rows[0];
      var rest := ItemsOf(ingredients, carts, u, rows[1..]);
      ItemsKeys(ingredients, carts, u, rows[1..]);
      var restKeys := set y | y in rows[1..] && Contributes(ingredients, carts, u, y)
                        :: (ingredients[y.ingredient].name, ingredients[y.ingredient].unit);
      assert forall y :: y in rows <==> y == x || y in rows[1..] by {
        assert rows == [x] + rows[1..];
      }
      if Contributes(ingredients, carts, u, x) {
        var k := (ingredients[x.ingredient].name, ingredients[x.ingredient].unit);
        assert keys == {k} + restKeys;
        assert ItemsOf(ingredients, carts, u, rows) == [Item(k.0, k.1, x.quantity)] + rest;
        assert ItemKeys([Item(k.0, k.1, x.quantity)] + rest) == {k} + ItemKeys(rest);
      } else {
        assert keys == restKeys;
      }
    }
  }

  lemma {:induction false} ItemsOfAppend(ingredients: map<IngredientId, Ingredient>,
                                         carts: seq<(UserId, RecipeId)>, u: UserId,
                                         a: seq<RecipeIngredient>, b: seq<RecipeIngredient>)
    ensures ItemsOf(ingredients, carts, u, a + b)
         == ItemsOf(ingredients, carts, u, a) + ItemsOf(ingredients, carts, u, b)
  {
    if |a| > 0 {
      assert (a + b)[1..] == a[1..] + b;
      ItemsOfAppend(ingredients, carts, u, a[1..], b);
    } else {
      assert a + b == b;
    }
  }

  /** Rows of recipes outside the cart join to nothing. */
  lemma {:induction false} ItemsOfOutside(ingredients: map<IngredientId, Ingredient>,
                                          carts: seq<(UserId, RecipeId)>, u: UserId,
                                          rows: seq<RecipeIngredient>)
    requires forall x :: x in rows ==> (u, x.recipe) !in carts
    ensures ItemsOf(ingredients, carts, u, rows) == []
  {
    if |rows| > 0 {
      assert rows[0] in rows;
      assert forall x :: x in rows[1..] ==> x in rows;
      ItemsOfOutside(ingredients, carts, u, rows[1..]);
    }
  }

  /** Adding RecipeIngredient rows for recipes outside `u`'s cart changes
      neither the joined rows of the list nor any key or total on it. */
  lemma OutsideCartIgnored(db: Db, u: UserId, extra: seq<RecipeIngredient>)
    requires forall x :: x in extra ==> (u, x.recipe) !in db.carts
    ensures CartItems(db.(recipeIngredients := db.recipeIngredients + extra), u) == CartItems(db, u)
    ensures CartKeys(db.(recipeIngredients := db.recipeIngredients + extra), u) == CartKeys(db, u)
    ensures forall n, un :: CartTotal(db.(recipeIngredients := db.recipeIngredients + extra), u, n, un)
                         == CartTotal(db, u, n, un)
  {
    var db2 := db.(recipeIngredients := db.recipeIngredients + extra);
    ItemsOfAppend(db.ingredients, db.carts, u, db.recipeIngredients, extra);
    ItemsOfOutside(db.ingredients, db.carts, u, extra);
    assert db.recipeIngredients + extra == db2.recipeIngredients;
    assert CartItems(db2, u) == CartItems(db, u);
    ItemsKeys(db.ingredients, db.carts, u, db.recipeIngredients);
    ItemsKeys(db2.ingredients, db2.carts, u, db2.recipeIngredients);
    forall n, un ensures CartTotal(db2, u, n, un) == CartTotal(db, u, n, un) {
      ItemsTotal(db.ingredients, db.carts, u, db.recipeIngredients, n, un);
      ItemsTotal(db2.ingredients, db2.carts, u, db2.recipeIngredients, n, un);
    }
  }

  /** Ingredient names are unique, so the total for an ingredient's (name,
      unit) is exactly the total of the rows that use that ingredient. */
  lemma {:induction false} GroupIsIngredient(ingredients: map<IngredientId, Ingredient>,
                                             carts: seq<(UserId, RecipeId)>, u: UserId,
                                             rows: seq<RecipeIngredient>, i: IngredientId)
    requires UniqueNames(ingredients) && i in ingredients
    ensures RowTotal(ingredients, carts, u, rows, ingredients[i].name, ingredients[i].unit)
         == RowTotalById(carts, u, rows, i)
  {
    if |rows| > 0 {
      GroupIsIngredient(ingredients, carts, u, rows[1..], i);
    }
  }

  /** Under unique ingredient names no two lines share a name, so the name
      order of the lines is strict. */
  lemma NamesStrictlyAscend(db: Db, u: UserId, groups: seq<Group>)
    requires UniqueNames(db.ingredients)
    requires Sorted(groups) && DistinctKeys(groups) && Keys(groups) == CartKeys(db, u)
    ensures forall i, j :: 0 <= i < j < |groups| ==> LexLe(groups[i].name, groups[j].name) && groups[i].name != groups[j].name
  {
    forall i, j | 0 <= i < j < |groups|
      ensures groups[i].name != groups[j].name
    {
      assert (groups[i].name, groups[i].unit) in CartKeys(db, u);
      assert (groups[j].name, groups[j].unit) in CartKeys(db, u);
    }
  }

  /** Under distinct keys, `TotalOf` is the total written on the line. */
  lemma {:induction false} TotalOfLine(groups: seq<Group>, k: nat)
    requires DistinctKeys(groups) && k < |groups|
    ensures TotalOf(groups, groups[k].name, groups[k].unit) == groups[k].total
  {
    if k == 0 {
      TotalOfAbsent(groups[1..], groups[0].name, groups[0].unit);
    } else {
      TotalOfLine(groups[1..], k - 1);
    }
  }

  lemma {:induction false} TotalOfAbsent(groups: seq<Group>, n: string, u: string)
    requires forall k :: 0 <= k < |groups| ==> (groups[k].name, groups[k].unit) != (n, u)
    ensures TotalOf(groups, n, u) == 0.0
  {
    if |groups| > 0 {
      TotalOfAbsent(groups[1..], n, u);
    }
  }

  // ---------------------------------------------------------------------
  // Rendering

  function UserLine(username: string): string {
    "Список покупок для: " + username
  }

  function DateLine(date: string): string {
    "Дата: " + date
  }

  /** Two header lines, the second followed by an empty line. */
  function Header(username: string, date: string): string {
    UserLine(username) + "\n" + DateLine(date) + "\n" + "\n"
  }

  /** One line without its newline: `name (unit) — total`. The textual form
      of a float total is left to `show`. */
  function Entry(g: Group, show: real -> string): string {
    g.name + " (" + g.unit + ") \U{2014} " + show(g.total)
  }

  function Body(groups: seq<Group>, show: real -> string): string {
    if |groups| == 0 then "" else Entry(groups[0], show) + "\n" + Body(groups[1..], show)
  }

  function Render(username: string, date: string, groups: seq<Group>, show: real -> string): string {
    Header(username, date) + Body(groups, show)
  }

  predicate NoNewlines(username: string, date: string, groups: seq<Group>, show: real -> string) {
    && '\n' !in username && '\n' !in date
    && forall k :: 0 <= k < |groups| ==> '\n' !in Entry(groups[k], show)
  }

  lemma {:induction false} BodyLines(groups: seq<Group>, show: real -> string)
    requires forall k :: 0 <= k < |groups| ==> '\n' !in Entry(groups[k], show)
    ensures Lines(Body(groups, show)) == seq(|groups|, k requires 0 <= k < |groups| => Entry(groups[k], show))
  {
    if |groups| > 0 {
      BodyLines(groups[1..], show);
      LinesCons(Entry(groups[0], show), Body(groups[1..], show));
    }
  }

  lemma HeaderNoNewlines(username: string, date: string)
    requires '\n' !in username && '\n' !in date
    ensures '\n' !in UserLine(username) && '\n' !in DateLine(date)
  {
  }

  lemma HeaderShape(h1: string, h2: string, body: string)
    ensures h1 + "\n" + h2 + "\n" + "\n" + body == h1 + "\n" + (h2 + "\n" + ("" + "\n" + body))
  {
  }

  lemma ThreeLines(h1: string, h2: string, rest: seq<string>)
    ensures [h1] + ([h2] + ([""] + rest)) == [h1, h2, ""] + rest
  {
  }

  /** Two newline-free header lines and an empty one split off the front. */
  lemma HeaderLines(h1: string, h2: string, body: string)
    requires '\n' !in h1 && '\n' !in h2
    ensures Lines(h1 + "\n" + h2 + "\n" + "\n" + body) == [h1, h2, ""] + Lines(body)
  {
    HeaderShape(h1, h2, body);
    LinesCons(h1, h2 + "\n" + ("" + "\n" + body));
    LinesCons(h2, "" + "\n" + body);
    LinesCons("", body);
    ThreeLines(h1, h2, Lines(body));
  }

  /** Reading the rendered text back line by line gives the two header
      lines, the blank line, and exactly one entry per group in order. */
  lemma RenderLines(username: string, date: string, groups: seq<Group>, show: real -> string)
    requires NoNewlines(username, date, groups, show)
    ensures Lines(Render(username, date, groups, show))
         == [UserLine(username), DateLine(date), ""]
            + seq(|groups|, k requires 0 <= k < |groups| => Entry(groups[k], show))
  {
    HeaderNoNewlines(username, date);
    HeaderLines(UserLine(username), DateLine(date), Body(groups, show));
    BodyLines(groups, show);
  }

  /** The endpoint for a logged-in `user` with the given name, on the given
      date. */
  method DownloadShoppingCart(db: Db, user: UserId, date: string, show: real -> string)
    returns (groups: seq<Group>, text: string)
    requires user in db.users
    ensures Sorted(groups) && DistinctKeys(groups)
    ensures Keys(groups) == CartKeys(db, user)
    ensures forall n, u :: TotalOf(groups, n, u) == CartTotal(db, user, n, u)
    ensures text == Render(db.users[user].username, date, groups, show)
    ensures (forall p :: p in db.carts ==> p.0 != user) ==> groups == [] && text == Header(db.users[user].username, date)
  {
    var items := CartItems(db, user);
    groups := Aggregate(items);
    ItemsKeys(db.ingredients, db.carts, user, db.recipeIngredients);
    forall n, u
      ensures TotalOf(groups, n, u) == CartTotal(db, user, n, u)
    {
      ItemsTotal(db.ingredients, db.carts, user, db.recipeIngredients, n, u);
    }
    if groups != [] {
      assert (groups[0].name, groups[0].unit) in Keys(groups);
    }
    text := Render(db.users[user].username, date, groups, show);
  }
}
