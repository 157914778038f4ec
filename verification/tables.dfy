/** A database table seen as the sequence of its rows. A queryset
    `filter(...)` keeps the rows a predicate accepts, `filter(...).delete()`
    removes them and reports how many it removed, and a `unique_together`
    constraint forbids two equal rows. */
module Tables {

  /** No row occurs twice. */
  predicate NoDup<T(==,!new)>(rows: seq<T>) {
    forall i, j :: 0 <= i < j < |rows| ==> rows[i] != rows[j]
  }

  /** How many rows equal `x`: the count a delete of `x` reports. */
  function Occurrences<T(==,!new)>(rows: seq<T>, x: T): (n: nat)
    ensures n == 0 <==> x !in rows
    ensures n <= |rows|
  {
    if |rows| == 0 then 0
    else (if rows[0] == x then 1 else 0) + Occurrences(rows[1..], x)
  }

  /** How many rows satisfy `f`: a queryset `count()`. */
  function CountIf<T>(rows: seq<T>, f: T -> bool): (n: nat)
    ensures n <= |rows|
  {
    if |rows| == 0 then 0
    else (if f(rows[0]) then 1 else 0) + CountIf(rows[1..], f)
  }

  /** The rows `f` accepts, in table order. */
  function Where<T(==,!new)>(rows: seq<T>, f: T -> bool): (r: seq<T>)
    ensures forall y :: y in r <==> y in rows && f(y)
    ensures |r| <= |rows|
    ensures NoDup(rows) ==> NoDup(r)
  {
    if |rows| == 0 then []
    else if f(rows[0]) then [rows[0]] + Where(rows[1..], f)
    else Where(rows[1..], f)
  }

  /** The table after deleting every row equal to `x`. */
  function Without<T(==,!new)>(rows: seq<T>, x: T): (r: seq<T>)
    ensures forall y :: y in r <==> y in rows && y != x
    ensures NoDup(rows) ==> NoDup(r)
  {
    Where(rows, y => y != x)
  }

  lemma {:induction false} WhereAppend<T(!new)>(a: seq<T>, b: seq<T>, f: T -> bool)
    ensures Where(a + b, f) == Where(a, f) + Where(b, f)
  {
    if |a| > 0 {
      assert (a + b)[1..] == a[1..] + b;
      WhereAppend(a[1..], b, f);
    } else {
      assert a + b == b;
    }
  }

  /** Filtering keeps a table whose rows are all accepted unchanged. */
  lemma {:induction false} WhereAll<T(!new)>(rows: seq<T>, f: T -> bool)
    requires forall y :: y in rows ==> f(y)
    ensures Where(rows, f) == rows
  {
    if |rows| > 0 {
      assert rows[0] in rows;
      assert forall y :: y in rows[1..] ==> y in rows;
      WhereAll(rows[1..], f);
      assert rows == [rows[0]] + rows[1..];
    }
  }

  /** Deleting a pair that is absent changes nothing. */
  lemma WithoutAbsent<T(!new)>(rows: seq<T>, x: T)
    requires x !in rows
    ensures Without(rows, x) == rows
  {
    WhereAll(rows, y => y != x);
  }

  /** Inserting a row that was absent and deleting it again restores the
      table exactly, row order included. */
  lemma WithoutAppended<T(!new)>(rows: seq<T>, x: T)
    requires x !in rows
    ensures Without(rows + [x], x) == rows
  {
    WhereAppend(rows, [x], y => y != x);
    WithoutAbsent(rows, x);
  }

  /** Removing the rows equal to `x` shortens the table by their number. */
  lemma {:induction false} WithoutLength<T(!new)>(rows: seq<T>, x: T)
    ensures |Without(rows, x)| == |rows| - Occurrences(rows, x)
  {
    if |rows| > 0 {
      WithoutLength(rows[1..], x);
    }
  }

  /** Appending a row that was absent keeps a duplicate-free table so. */
  lemma AppendNoDup<T(!new)>(rows: seq<T>, x: T)
    requires x !in rows
    ensures NoDup(rows) ==> NoDup(rows + [x])
  {
  }

  /** Under the uniqueness constraint a delete reports at most one row. */
  lemma {:induction false} NoDupOccurrences<T(!new)>(rows: seq<T>, x: T)
    requires NoDup(rows)
    ensures Occurrences(rows, x) <= 1
    ensures x in rows ==> Occurrences(rows, x) == 1
  {
    if |rows| > 0 {
      assert NoDup(rows[1..]) by {
        forall i, j | 0 <= i < j < |rows[1..]|
          ensures rows[1..][i] != rows[1..][j]
        {
          assert rows[1..][i] == rows[i + 1] && rows[1..][j] == rows[j + 1];
        }
      }
      NoDupOccurrences(rows[1..], x);
      if rows[0] == x {
        assert x !in rows[1..] by {
          forall k | 0 <= k < |rows[1..]|
            ensures rows[1..][k] != x
          {
            assert rows[1..][k] == rows[k + 1];
          }
        }
      }
    }
  }

  lemma {:induction false} CountIfAppend<T>(rows: seq<T>, x: T, f: T -> bool)
    ensures CountIf(rows + [x], f) == CountIf(rows, f) + (if f(x) then 1 else 0)
  {
    if |rows| > 0 {
      assert (rows + [x])[1..] == rows[1..] + [x];
      CountIfAppend(rows[1..], x, f);
    } else {
      assert (rows + [x])[1..] == [];
    }
  }

  /** Deleting the rows equal to `x` lowers a count by the number of them
      the count accepted. */
  lemma {:induction false} CountIfWithout<T(!new)>(rows: seq<T>, x: T, f: T -> bool)
    ensures CountIf(Without(rows, x), f)
         == CountIf(rows, f) - (if f(x) then Occurrences(rows, x) else 0)
  {
    if |rows| > 0 {
      CountIfWithout(rows[1..], x, f);
      CountIfBound(rows[1..], x, f);
    }
  }

  /** The rows equal to an accepted `x` are among the accepted ones. */
  lemma {:induction false} CountIfBound<T(!new)>(rows: seq<T>, x: T, f: T -> bool)
    ensures f(x) ==> Occurrences(rows, x) <= CountIf(rows, f)
  {
    if |rows| > 0 {
      CountIfBound(rows[1..], x, f);
    }
  }

  /** Filtering keeps each accepted row as often as it occurred. */
  lemma {:induction false} WhereMultiset<T(!new)>(rows: seq<T>, f: T -> bool, x: T)
    ensures multiset(Where(rows, f))[x] == if f(x) then multiset(rows)[x] else 0
  {
    if |rows| > 0 {
      WhereMultiset(rows[1..], f, x);
      assert rows == [rows[0]] + rows[1..];
    }
  }

  /** Two filters that agree on every row select the same rows. */
  lemma {:induction false} WhereSame<T(!new)>(rows: seq<T>, f: T -> bool, g: T -> bool)
    requires forall y :: y in rows ==> f(y) == g(y)
    ensures Where(rows, f) == Where(rows, g)
  {
    if |rows| > 0 {
      assert forall y :: y in rows[1..] ==> y in rows;
      WhereSame(rows[1..], f, g);
    }
  }
}
