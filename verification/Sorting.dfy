/** Sorting by a strict total order, standing in for std::sort and std::set. */
module Sorting {
  import opened Ranking

  ghost predicate Descending<T>(lt: (T, T) -> bool, s: seq<T>) {
    forall i, j | 0 <= i < j < |s| :: !lt(s[i], s[j])
  }

  function InsertDescending<T>(lt: (T, T) -> bool, s: seq<T>, x: T): seq<T> {
    if s == [] || lt(s[0], x) then [x] + s
    else [s[0]] + InsertDescending(lt, s[1..], x)
  }

  function SortDescending<T>(lt: (T, T) -> bool, s: seq<T>): seq<T> {
    if s == [] then [] else InsertDescending(lt, SortDescending(lt, s[1..]), s[0])
  }

  lemma {:induction false} InsertDescendingItems<T>(lt: (T, T) -> bool, s: seq<T>, x: T)
    ensures multiset(InsertDescending(lt, s, x)) == multiset(s) + multiset{x}
  {
    if s != [] {
      assert s == [s[0]] + s[1..];
      if !lt(s[0], x) { InsertDescendingItems(lt, s[1..], x); }
    }
  }

  lemma InsertedItem<T>(lt: (T, T) -> bool, s: seq<T>, x: T, y: T)
    requires y in InsertDescending(lt, s, x)
    ensures y == x || y in s
  {
    InsertDescendingItems(lt, s, x);
    assert y in multiset(InsertDescending(lt, s, x));
  }

  lemma {:induction false} InsertDescendingSorts<T(!new)>(lt: (T, T) -> bool, s: seq<T>, x: T)
    requires StrictTotal(lt) && Descending(lt, s)
    ensures Descending(lt, InsertDescending(lt, s, x))
  {
    if s != [] && !lt(s[0], x) {
      InsertDescendingSorts(lt, s[1..], x);
      var t := InsertDescending(lt, s[1..], x);
      forall j | 0 <= j < |t| ensures !lt(s[0], t[j]) {
        InsertedItem(lt, s[1..], x, t[j]);
      }
    }
  }

  lemma {:induction false} SortDescendingSorts<T(!new)>(lt: (T, T) -> bool, s: seq<T>)
    requires StrictTotal(lt)
    ensures Descending(lt, SortDescending(lt, s)) && multiset(SortDescending(lt, s)) == multiset(s)
  {
    if s != [] {
      SortDescendingSorts(lt, s[1..]);
      InsertDescendingSorts(lt, SortDescending(lt, s[1..]), s[0]);
      InsertDescendingItems(lt, SortDescending(lt, s[1..]), s[0]);
      assert s == [s[0]] + s[1..];
    }
  }
}
