/** `IngredientViewSet.get_queryset`: the optional `name` query parameter
    narrows the ingredient list to the names that begin with it, compared
    as SQLite's `LIKE` compares (ASCII letters without regard to case). */
module IngredientSearch {
  import opened Wrappers
  import opened Tables
  import opened Text
  import opened Schema

  predicate Matches(ing: Ingredient, q: string) {
    StartsWithFolded(ing.name, q)
  }

  /** A missing or empty `name` returns every ingredient; otherwise exactly
      the matching ones, each as often as it was listed. */
  function Search(ingredients: seq<Ingredient>, name: Option<string>): (r: seq<Ingredient>)
    ensures name.None? || name == Some("") ==> r == ingredients
    ensures name.Some? && name.value != "" ==>
      forall x :: multiset(r)[x] == if Matches(x, name.value) then multiset(ingredients)[x] else 0
  {
    if name.None? || name.value == "" then ingredients
    else
      var q := name.value;
      var r := Where(ingredients, (x: Ingredient) => Matches(x, q));
      assert forall x :: multiset(r)[x] == if Matches(x, q) then multiset(ingredients)[x] else 0 by {
        forall x { WhereMultiset(ingredients, (y: Ingredient) => Matches(y, q), x); }
      }
      r
  }

  /** Queries that differ only in the case of ASCII letters find the same
      ingredients in the same order. */
  lemma SearchIgnoresCase(ingredients: seq<Ingredient>, q1: string, q2: string)
    requires Fold(q1) == Fold(q2)
    ensures Search(ingredients, Some(q1)) == Search(ingredients, Some(q2))
  {
    assert |q1| == |q2|;
    if q1 != "" {
      forall x | x in ingredients
        ensures Matches(x, q1) == Matches(x, q2)
      {
      }
      WhereSame(ingredients, (x: Ingredient) => Matches(x, q1), (x: Ingredient) => Matches(x, q2));
    }
  }

  /** Typing more of a name never widens the result. */
  lemma SearchNarrows(ingredients: seq<Ingredient>, q1: string, q2: string, x: Ingredient)
    requires q1 != "" && |q1| <= |q2| && q2[..|q1|] == q1
    requires x in Search(ingredients, Some(q2))
    ensures x in Search(ingredients, Some(q1))
  {
  }

  /** Every ingredient is found by any non-empty prefix of its own name. */
  lemma SearchFindsByPrefix(ingredients: seq<Ingredient>, x: Ingredient, k: nat)
    requires x in ingredients && 0 < k <= |x.name|
    ensures x in Search(ingredients, Some(x.name[..k]))
  {
  }
}
