/**
 * ValueSortedMap and IncrementalPriorityQueue: the explicit form of the ranking,
 * an appearance list per item, ordered through a set of key-value pairs.
 */
module PriorityQueueV1 {
  import opened Options
  import opened Ranking

  // ---- std::set as a strictly sorted sequence ----

  ghost predicate StrictlySorted<E>(less: (E, E) -> bool, s: seq<E>) {
    forall i, j | 0 <= i < j < |s| :: less(s[i], s[j])
  }

  function SetInsert<E>(less: (E, E) -> bool, s: seq<E>, e: E): seq<E> {
    if s == [] || less(e, s[0]) then [e] + s
    else if less(s[0], e) then [s[0]] + SetInsert(less, s[1..], e)
    else s
  }

  function SetErase<E>(less: (E, E) -> bool, s: seq<E>, e: E): seq<E> {
    if s == [] || less(e, s[0]) then s
    else if less(s[0], e) then [s[0]] + SetErase(less, s[1..], e)
    else s[1..]
  }

  lemma {:induction false} SetInsertWorks<E(!new)>(less: (E, E) -> bool, s: seq<E>, e: E)
    requires StrictTotal(less) && StrictlySorted(less, s)
    ensures StrictlySorted(less, SetInsert(less, s, e))
    ensures forall x :: x in SetInsert(less, s, e) <==> x == e || x in s
  {
    if s != [] {
      assert s == [s[0]] + s[1..];
      if less(s[0], e) {
        SetInsertWorks(less, s[1..], e);
        var t := SetInsert(less, s[1..], e);
        forall j | 0 <= j < |t| ensures less(s[0], t[j]) {
          assert t[j] in t;
          if t[j] != e { assert t[j] in s[1..]; }
        }
        assert SetInsert(less, s, e) == [s[0]] + t;
      } else if less(e, s[0]) {
        assert SetInsert(less, s, e) == [e] + s;
      } else {
        assert e == s[0];
      }
    }
  }

  lemma {:induction false} SetEraseWorks<E(!new)>(less: (E, E) -> bool, s: seq<E>, e: E)
    requires StrictTotal(less) && StrictlySorted(less, s)
    ensures StrictlySorted(less, SetErase(less, s, e))
    ensures forall x :: x in SetErase(less, s, e) <==> x != e && x in s
  {
    if s != [] {
      assert s == [s[0]] + s[1..];
      assert s[0] !in s[1..];
      if less(s[0], e) {
        SetEraseWorks(less, s[1..], e);
        var t := SetErase(less, s[1..], e);
        forall j | 0 <= j < |t| ensures less(s[0], t[j]) {
          assert t[j] in t;
          assert t[j] in s[1..];
        }
        assert SetErase(less, s, e) == [s[0]] + t;
      } else if less(e, s[0]) {
        assert e !in s;
      }
    }
  }

  /** A hash map and an ordered set of its pairs, changed together. */
  class ValueSortedMap<K(==, !new), V(==, !new)> {
    const less: ((K, V), (K, V)) -> bool
    var contents: map<K, V>
    var order: seq<(K, V)>

    /** The ordered set holds exactly the map's pairs. */
    ghost predicate Valid()
      reads this
    {
      && StrictTotal(less) && StrictlySorted(less, order)
      && (forall p | p in order :: p.0 in contents && contents[p.0] == p.1)
      && (forall k | k in contents :: (k, contents[k]) in order)
    }

    constructor (less: ((K, V), (K, V)) -> bool)
      requires StrictTotal(less)
      ensures Valid() && contents == map[] && this.less == less
    {
      this.less, contents, order := less, map[], [];
    }

    method Erase(key: K)
      requires Valid()
      modifies this
      ensures Valid() && contents == old(contents) - {key}
    {
      if key in contents {
        SetEraseWorks(less, order, (key, contents[key]));
        order := SetErase(less, order, (key, contents[key]));
        contents := contents - {key};
      }
    }

    method Assign(key: K, value: V)
      requires Valid()
      modifies this
      ensures Valid() && contents == old(contents)[key := value]
    {
      if key in contents {
        SetEraseWorks(less, order, (key, contents[key]));
        order := SetErase(less, order, (key, contents[key]));
      }
      SetInsertWorks(less, order, (key, value));
      order := SetInsert(less, order, (key, value));
      contents := contents[key := value];
    }
  }

  // ---- the queue ----

  /** The queue's order on (item, appearance list) pairs. */
  predicate PairAhead<T(==)>(lt: (T, T) -> bool, p: (T, seq<nat>), q: (T, seq<nat>)) {
    if p.1 == q.1 then lt(p.0, q.0) else Before(p.1, q.1)
  }

  lemma PairAheadStrictTotal<T(!new)>(lt: (T, T) -> bool)
    requires StrictTotal(lt)
    ensures StrictTotal<(T, seq<nat>)>((p, q) => PairAhead(lt, p, q))
  {
    forall p: (T, seq<nat>), q: (T, seq<nat>) | p != q ensures PairAhead(lt, p, q) || PairAhead(lt, q, p) {
      BeforeTotal(p.1, q.1);
    }
    forall p: (T, seq<nat>), q: (T, seq<nat>), s: (T, seq<nat>) | PairAhead(lt, p, q) && PairAhead(lt, q, s)
      ensures PairAhead(lt, p, s)
    {
      if p.1 != q.1 && q.1 != s.1 {
        BeforeTransitive(p.1, q.1, s.1);
        BeforeIrreflexive(p.1);
      }
      if p.1 == s.1 && p.1 != q.1 { BeforeAsymmetric(p.1, q.1); }
    }
  }

  lemma {:induction false} BeforeAfterCommonPrefix(a: seq<nat>, b: seq<nat>, n: nat)
    requires n <= |a| && n <= |b| && a[..n] == b[..n]
    ensures Before(a, b) == Before(a[n..], b[n..])
  {
    if n > 0 {
      assert a[0] == a[..n][0] == b[0];
      assert a[1..][..n - 1] == a[..n][1..] == b[..n][1..] == b[1..][..n - 1];
      BeforeAfterCommonPrefix(a[1..], b[1..], n - 1);
      assert a[1..][n - 1..] == a[n..] && b[1..][n - 1..] == b[n..];
    } else {
      assert a[0..] == a && b[0..] == b;
    }
  }

  /** The comparison loop computes that order. */
  method Compare<T(==)>(lt: (T, T) -> bool, lhs: (T, seq<nat>), rhs: (T, seq<nat>)) returns (r: bool)
    ensures r == PairAhead(lt, lhs, rhs)
  {
    var lhsSize, rhsSize := |lhs.1|, |rhs.1|;
    var minSize := if lhsSize < rhsSize then lhsSize else rhsSize;
    for i := 0 to minSize
      invariant lhs.1[..i] == rhs.1[..i]
    {
      if lhs.1[i] != rhs.1[i] {
        BeforeAfterCommonPrefix(lhs.1, rhs.1, i);
        return lhs.1[i] < rhs.1[i];
      }
    }
    BeforeAfterCommonPrefix(lhs.1, rhs.1, minSize);
    if lhsSize == rhsSize {
      assert lhs.1 == lhs.1[..minSize] == rhs.1[..minSize] == rhs.1;
      return lt(lhs.0, rhs.0);
    }
    r := lhsSize > rhsSize;
  }

  class IncrementalPriorityQueue<T(==, !new)> {
    const lt: (T, T) -> bool
    var updateCount: nat
    var removed: set<T>
    const items: ValueSortedMap<T, seq<nat>>

    ghost function Model(): State<T>
      reads this, items
    {
      State(updateCount, removed, items.contents)
    }

    ghost predicate Valid()
      reads this, items
    {
      && StrictTotal(lt) && items.Valid() && items.less == ((p, q) => PairAhead(lt, p, q))
      && removed !! items.contents.Keys
    }

    constructor (lt: (T, T) -> bool)
      requires StrictTotal(lt)
      ensures Valid() && Model() == Initial() && this.lt == lt && fresh(items)
    {
      PairAheadStrictTotal(lt);
      this.lt, updateCount, removed := lt, 0, {};
      items := new ValueSortedMap<T, seq<nat>>((p, q) => PairAhead(lt, p, q));
    }

    method Remove(item: T)
      requires Valid()
      modifies this, items
      ensures Valid() && Model() == Ranking.Remove(old(Model()), item)
    {
      removed := removed + {item};
      items.Erase(item);
    }

    method Update(batch: seq<T>)
      requires Valid()
      modifies this, items
      ensures Valid() && Model() == Ranking.Update(old(Model()), batch)
    {
      var index := updateCount;
      updateCount := updateCount + 1;
      ghost var r := Model();
      for i := 0 to |batch|
        invariant Valid() && Model() == TouchAll(r, index, batch[..i])
      {
        var item := batch[i];
        assert batch[..i + 1][..i] == batch[..i];
        if item in removed {
        } else if item in items.contents {
          items.Assign(item, items.contents[item] + [index]);
        } else {
          assert [index] == [] + [index];
          items.Assign(item, [index]);
        }
        assert Model() == Touch(TouchAll(r, index, batch[..i]), index, item);
      }
      assert batch[..|batch|] == batch;
    }

    /** None stands for the exception thrown on an empty queue. */
    method Top() returns (r: Option<T>)
      requires Valid()
      ensures r.None? <==> |Model().stamps| == 0
      ensures r.Some? ==> IsTop(lt, Model().stamps, r.value)
    {
      if |items.contents| == 0 {
        return None;
      }
      FirstIsTop();
      r := Some(items.order[0].0);
    }

    lemma FirstIsTop()
      requires Valid() && |items.contents| != 0
      ensures items.order != [] && IsTop(lt, items.contents, items.order[0].0)
    {
      var k :| k in items.contents;
      assert (k, items.contents[k]) in items.order;
      var x := items.order[0];
      forall y | y in items.contents && y != x.0 ensures Ahead(lt, items.contents, x.0, y) {
        assert (y, items.contents[y]) in items.order;
        assert items.less(x, (y, items.contents[y]));
      }
    }

    method IsTopStrict() returns (r: Option<bool>)
      requires Valid()
      ensures r.None? <==> |Model().stamps| == 0
      ensures r.Some? ==> exists x :: IsTop(lt, Model().stamps, x) && (r.value <==> TopIsStrict(Model().stamps, x))
    {
      if |items.contents| == 0 {
        return None;
      }
      FirstIsTop();
      ghost var x := items.order[0];
      if |items.contents| < 2 {
        forall y | y in items.contents && y != x.0 ensures false {
          assert {x.0, y} <= items.contents.Keys;
          assert |{x.0, y}| == 2;
          SubsetSize({x.0, y}, items.contents.Keys);
        }
        return Some(true);
      }
      HasSecond();
      r := Some(items.order[0].1 != items.order[1].1);
      StrictnessFromSecond();
    }

    lemma HasSecond()
      requires Valid() && |items.contents| >= 2
      ensures |items.order| >= 2
    {
      FirstIsTop();
      var x := items.order[0].0;
      assert items.contents.Keys - {x} != {} by {
        if items.contents.Keys - {x} == {} { SubsetSize(items.contents.Keys, {x}); }
      }
      var y :| y in items.contents.Keys - {x};
      assert (y, items.contents[y]) in items.order;
    }

    /** The two best pairs already decide whether the top is strict. */
    lemma StrictnessFromSecond()
      requires Valid() && |items.order| >= 2
      ensures items.order[0].0 in items.contents
      ensures items.order[0].1 != items.order[1].1 <==> TopIsStrict(items.contents, items.order[0].0)
    {
      var x, y := items.order[0], items.order[1];
      assert items.less(x, y);
      if x.1 == y.1 {
        BeforeIrreflexive(x.1);
        assert x.0 != y.0;
      } else {
        forall z | z in items.contents && z != x.0 ensures Before(x.1, items.contents[z]) {
          assert (z, items.contents[z]) in items.order;
          var j :| 0 <= j < |items.order| && items.order[j] == (z, items.contents[z]);
          if j > 1 {
            assert items.less(y, items.order[j]);
            if y.1 != items.contents[z] { BeforeTransitive(x.1, y.1, items.contents[z]); }
          }
        }
      }
    }
  }

  lemma {:induction false} SubsetSize<T>(a: set<T>, b: set<T>)
    requires a <= b
    ensures |a| <= |b|
  {
    if a != {} {
      var x :| x in a;
      SubsetSize(a - {x}, b - {x});
    }
  }
}
