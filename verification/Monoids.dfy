/** Operations with a neutral element, and folds over sequences and maps. */
module Monoids {
  import opened Collections

  /** The operation and neutral element an aggregating container is built with. */
  datatype Monoid<!V> = Monoid(op: (V, V) -> V, neutral: V)

  ghost predicate HasNeutral<V(!new)>(m: Monoid<V>) {
    forall a :: m.op(m.neutral, a) == a && m.op(a, m.neutral) == a
  }

  ghost predicate Associative<V(!new)>(m: Monoid<V>) {
    forall a, b, c :: AssociatesAt(m, a, b, c)
  }

  ghost predicate AssociatesAt<V>(m: Monoid<V>, a: V, b: V, c: V) {
    m.op(m.op(a, b), c) == m.op(a, m.op(b, c))
  }

  ghost predicate Commutative<V(!new)>(m: Monoid<V>) {
    forall a, b :: CommutesAt(m, a, b)
  }

  ghost predicate CommutesAt<V>(m: Monoid<V>, a: V, b: V) {
    m.op(a, b) == m.op(b, a)
  }

  ghost predicate IsMonoid<V(!new)>(m: Monoid<V>) {
    HasNeutral(m) && Associative(m)
  }

  ghost predicate IsCommutativeMonoid<V(!new)>(m: Monoid<V>) {
    IsMonoid(m) && Commutative(m)
  }

  // ---- folds over sequences, in order ----

  function Fold<V>(m: Monoid<V>, s: seq<V>): V {
    if s == [] then m.neutral else m.op(s[0], Fold(m, s[1..]))
  }

  lemma {:induction false} FoldConcat<V(!new)>(m: Monoid<V>, s: seq<V>, t: seq<V>)
    requires IsMonoid(m)
    ensures Fold(m, s + t) == m.op(Fold(m, s), Fold(m, t))
  {
    if s == [] {
      assert s + t == t;
    } else {
      FoldConcat(m, s[1..], t);
      assert (s + t)[1..] == s[1..] + t;
      assert AssociatesAt(m, s[0], Fold(m, s[1..]), Fold(m, t));
    }
  }

  lemma FoldSingle<V(!new)>(m: Monoid<V>, v: V)
    requires HasNeutral(m)
    ensures Fold(m, [v]) == v
  {
    assert Fold(m, [v][1..]) == m.neutral;
  }

  /** Dropping the same element from both keeps two sequences permutations. */
  lemma CancelHead<T>(s: seq<T>, t: seq<T>, j: nat)
    requires multiset(s) == multiset(t) && s != [] && j < |t| && t[j] == s[0]
    ensures multiset(s[1..]) == multiset(t[..j] + t[j + 1..])
  {
    assert s == [s[0]] + s[1..] && t == t[..j] + [t[j]] + t[j + 1..];
    assert multiset(s) - multiset{s[0]} == multiset(s[1..]);
    assert multiset(t) - multiset{s[0]} == multiset(t[..j]) + multiset(t[j + 1..]);
  }

  function Mapped<T, V>(f: T -> V, s: seq<T>): (r: seq<V>)
    ensures |r| == |s| && forall i | 0 <= i < |s| :: r[i] == f(s[i])
  {
    seq(|s|, i requires 0 <= i < |s| => f(s[i]))
  }

  lemma {:induction false} MappedPermuted<T, V>(f: T -> V, s: seq<T>, t: seq<T>)
    requires multiset(s) == multiset(t)
    ensures multiset(Mapped(f, s)) == multiset(Mapped(f, t))
  {
    if s == [] {
      assert |t| == |multiset(t)| == 0;
    } else {
      assert s[0] in multiset(t);
      var j :| 0 <= j < |t| && t[j] == s[0];
      CancelHead(s, t, j);
      MappedPermuted(f, s[1..], t[..j] + t[j + 1..]);
      assert Mapped(f, s) == [f(s[0])] + Mapped(f, s[1..]);
      var a, b := Mapped(f, t[..j]), Mapped(f, t[j + 1..]);
      assert Mapped(f, t[..j] + t[j + 1..]) == a + b;
      assert Mapped(f, t) == a + [f(s[0])] + b;
    }
  }

  /** For a commutative monoid the order of a sequence does not matter. */
  lemma {:induction false} FoldPermuted<V(!new)>(m: Monoid<V>, s: seq<V>, t: seq<V>)
    requires IsCommutativeMonoid(m) && multiset(s) == multiset(t)
    ensures Fold(m, s) == Fold(m, t)
  {
    if s == [] {
      assert |t| == |multiset(t)| == 0;
    } else {
      assert s[0] in multiset(t);
      var j :| 0 <= j < |t| && t[j] == s[0];
      var a, b := t[..j], t[j + 1..];
      assert t == a + [s[0]] + b;
      CancelHead(s, t, j);
      FoldPermuted(m, s[1..], a + b);
      FoldConcat(m, a, b);
      FoldConcat(m, a + [s[0]], b);
      FoldConcat(m, a, [s[0]]);
      FoldSingle(m, s[0]);
      assert CommutesAt(m, Fold(m, a), s[0]);
      assert AssociatesAt(m, s[0], Fold(m, a), Fold(m, b));
    }
  }

  // ---- folds over maps with ordered keys ----

  lemma {:induction false} LeastExists(keys: set<int>)
    requires keys != {}
    ensures exists k :: k in keys && forall j | j in keys :: k <= j
  {
    var x := AnyOf(keys);
    var rest := keys - {x};
    if rest == {} {
      assert keys == {x};
    } else {
      LeastExists(rest);
      var y :| y in rest && forall j | j in rest :: y <= j;
      var k := if x < y then x else y;
      assert forall j | j in keys :: j == x || j in rest;
      assert k in keys && forall j | j in keys :: k <= j;
    }
  }

  ghost function Least(keys: set<int>): (k: int)
    requires keys != {}
    ensures k in keys && forall j | j in keys :: k <= j
  {
    LeastExists(keys);
    var k :| k in keys && forall j | j in keys :: k <= j;
    k
  }

  /** The values of a map, combined in ascending key order. */
  ghost function FoldMap<V>(m: Monoid<V>, kv: map<int, V>): V
    decreases |kv|
  {
    if kv == map[] then m.neutral
    else
      var k := Least(kv.Keys);
      assert (kv - {k}).Keys == kv.Keys - {k};
      m.op(kv[k], FoldMap(m, kv - {k}))
  }

  /** The part of a map with keys below `k`, or at most `k`. */
  function Below<V>(kv: map<int, V>, k: int, strict: bool): map<int, V> {
    map j | j in kv && (if strict then j < k else j <= k) :: kv[j]
  }

  /** For a commutative monoid any key may be combined first. */
  lemma {:induction false} FoldMapTake<V(!new)>(m: Monoid<V>, kv: map<int, V>, k: int)
    requires IsCommutativeMonoid(m) && k in kv
    ensures FoldMap(m, kv) == m.op(kv[k], FoldMap(m, kv - {k}))
    decreases |kv|
  {
    var l := Least(kv.Keys);
    if l != k {
      var a, b := kv - {l}, kv - {k};
      assert a.Keys == kv.Keys - {l} && b.Keys == kv.Keys - {k};
      FoldMapTake(m, a, k);
      assert l in b.Keys && Least(b.Keys) == l;
      assert a - {k} == b - {l};
      var rest := FoldMap(m, a - {k});
      assert AssociatesAt(m, kv[l], kv[k], rest) && AssociatesAt(m, kv[k], kv[l], rest) && CommutesAt(m, kv[l], kv[k]);
    }
  }

  lemma UnionMinus<V>(a: map<int, V>, b: map<int, V>, k: int)
    requires k in a && k !in b
    ensures (a + b) - {k} == (a - {k}) + b && (a + b)[k] == a[k]
  {
  }

  lemma {:induction false} FoldMapUnion<V(!new)>(m: Monoid<V>, a: map<int, V>, b: map<int, V>)
    requires IsCommutativeMonoid(m) && a.Keys !! b.Keys
    ensures FoldMap(m, a + b) == m.op(FoldMap(m, a), FoldMap(m, b))
    decreases |a|
  {
    if a == map[] {
      assert a + b == b;
    } else {
      var k := Least(a.Keys);
      assert (a - {k}).Keys == a.Keys - {k};
      FoldMapUnion(m, a - {k}, b);
      FoldMapTake(m, a + b, k);
      UnionMinus(a, b, k);
      assert AssociatesAt(m, a[k], FoldMap(m, a - {k}), FoldMap(m, b));
    }
  }
}
