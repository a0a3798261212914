/** Facts about sets, maps and sequences that several modules share. */
module Collections {
  /** Hash container iteration: some remaining key comes next. */
  method Pick<T(==)>(keys: set<T>) returns (k: T)
    requires keys != {}
    ensures k in keys
  {
    k :| k in keys;
  }

  lemma AnyOf<T>(keys: set<T>) returns (k: T)
    requires keys != {}
    ensures k in keys
  {
    k :| k in keys;
  }

  lemma AnyBeyond<T>(a: set<T>, b: set<T>) returns (k: T)
    requires !(a <= b)
    ensures k in a && k !in b
  {
    k :| k in a && k !in b;
  }

  /** One element moves from those left to those done. */
  lemma MoveOne<T>(all: set<T>, left: set<T>, done: set<T>, x: T)
    requires left <= all && done == all - left && x in left
    ensures left - {x} <= all && done + {x} == all - (left - {x}) && x !in done
  {
  }

  lemma SameMap<K, V>(a: map<K, V>, b: map<K, V>)
    requires a.Keys == b.Keys && forall k | k in a :: a[k] == b[k]
    ensures a == b
  {
  }

  lemma Grow<K, V>(m: map<K, V>, key: K, value: V)
    requires key !in m
    ensures |m[key := value]| == |m| + 1
  {
    var m' := m[key := value];
    assert m'.Keys == m.Keys + {key};
    assert |m'| == |m'.Keys| && |m| == |m.Keys|;
  }

  ghost predicate NoRepeats<T>(s: seq<T>) {
    forall i, j | 0 <= i < j < |s| :: s[i] != s[j]
  }

  lemma {:induction false} RepeatsCount<T>(s: seq<T>)
    ensures NoRepeats(s) <==> forall x | x in s :: multiset(s)[x] <= 1
  {
    if s != [] {
      var front, last := s[..|s| - 1], s[|s| - 1];
      assert s == front + [last];
      RepeatsCount(front);
      assert forall x :: x in front ==> x in s;
      if NoRepeats(s) {
        assert last !in front;
      }
      if forall x | x in s :: multiset(s)[x] <= 1 {
        assert last in s && multiset(s)[last] <= 1;
        assert last !in front;
        forall x | x in front ensures multiset(front)[x] <= 1 {
          assert x in s;
        }
      }
    }
  }
}
