/**
 * Whether an AssociativeMap's aggregate depends on the history of the map.  The
 * header promises, for any associative operation, an aggregate determined by the
 * set of keys alone; rotations make the combination order depend on the history,
 * so the promise holds exactly for commutative and associative operations.
 */
module AvlHistory {
  import opened Collections
  import opened Monoids
  import opened Powers
  import opened AvlMap

  datatype Step<V> = Update(key: int, value: V) | Remove(key: int) | Clear

  function Apply<V>(m: Monoid<V>, t: Tree<V>, s: Step<V>): (r: Tree<V>)
    requires HeightsOk(t)
    ensures HeightsOk(r)
  {
    match s
    case Update(key, value) => InsertOrUpdate(m, t, key, value).0
    case Remove(key) => RemoveKey(m, t, key)
    case Clear => Nil
  }

  /** The tree after a history of calls. */
  function Run<V>(m: Monoid<V>, steps: seq<Step<V>>): (r: Tree<V>)
    ensures HeightsOk(r)
  {
    if steps == [] then Nil else Apply(m, Run(m, steps[..|steps| - 1]), steps[|steps| - 1])
  }

  /** The plain map after the same history. */
  function Plain<V>(steps: seq<Step<V>>): map<int, V> {
    if steps == [] then map[]
    else
      var kv, s := Plain(steps[..|steps| - 1]), steps[|steps| - 1];
      match s
      case Update(key, value) => kv[key := value]
      case Remove(key) => kv - {key}
      case Clear => map[]
  }

  function Query<V>(m: Monoid<V>, t: Tree<V>): V {
    if t.Nil? then m.neutral else t.result
  }

  function QueryBelow<V>(m: Monoid<V>, t: Tree<V>, key: int, strict: bool): V {
    if t.Nil? then m.neutral else LessThan(m, t, key, strict)
  }

  /** Every reachable tree is a balanced search tree with right heights and
      results, and holds the plain map. */
  lemma {:induction false} RunKeeps<V>(m: Monoid<V>, steps: seq<Step<V>>)
    ensures Ok(m, Run(m, steps)) && Contents(Run(m, steps)) == Plain(steps)
    ensures Pow2(Height(Run(m, steps)) / 2) <= |Plain(steps)| + 1
  {
    if steps != [] {
      var n := |steps| - 1;
      RunKeeps(m, steps[..n]);
      match steps[n]
      case Update(key, value) => InsertKeeps(m, Run(m, steps[..n]), key, value);
      case Remove(key) => RemoveKeeps(m, Run(m, steps[..n]), key);
      case Clear =>
    }
    HeightLogarithmic(Run(m, steps));
    SizeIsCount(Run(m, steps));
  }

  /** All three queries are functions of the plain map. */
  lemma QueriesAreFolds<V(!new)>(m: Monoid<V>, steps: seq<Step<V>>, key: int, strict: bool)
    requires IsCommutativeMonoid(m)
    ensures Query(m, Run(m, steps)) == FoldMap(m, Plain(steps))
    ensures QueryBelow(m, Run(m, steps), key, strict) == FoldMap(m, Below(Plain(steps), key, strict))
  {
    var t := Run(m, steps);
    RunKeeps(m, steps);
    ResultIsFold(m, t);
    if t.Node? {
      LessThanIsFold(m, t, key, strict);
    } else {
      assert Below(Plain(steps), key, strict) == map[];
    }
  }

  /** Histories that leave the same map leave the same aggregate. */
  ghost predicate HistoryIndependent<V(!new)>(m: Monoid<V>) {
    forall s, t :: SameMap(s, t) ==> Query(m, Run(m, s)) == Query(m, Run(m, t))
  }

  ghost predicate SameMap<V>(s: seq<Step<V>>, t: seq<Step<V>>) {
    Plain(s) == Plain(t)
  }

  // Two histories for two keys, and two for four keys.

  lemma TwoKeys<V>(m: Monoid<V>, a: V, b: V)
    ensures var s, t := [Update(1, a), Update(2, b)], [Update(2, b), Update(1, a)];
            && SameMap(s, t)
            && Query(m, Run(m, s)) == m.op(a, b) && Query(m, Run(m, t)) == m.op(b, a)
  {
    var s, t := [Update(1, a), Update(2, b)], [Update(2, b), Update(1, a)];
    assert s[..1] == [Update(1, a)] && t[..1] == [Update(2, b)];
    assert s[..1][..0] == [] && t[..1][..0] == [];
    assert Run(m, [Update(1, a)]) == Node(1, a, a, 1, Nil, Nil);
    assert Run(m, [Update(2, b)]) == Node(2, b, b, 1, Nil, Nil);
    assert Plain([Update(1, a)]) == map[1 := a] && Plain([Update(2, b)]) == map[2 := b];
    assert Run(m, s) == Node(1, a, m.op(a, b), 2, Nil, Node(2, b, b, 1, Nil, Nil));
    assert Run(m, t) == Node(2, b, m.op(b, a), 2, Node(1, a, a, 1, Nil, Nil), Nil);
  }

  lemma Ascending<V>(m: Monoid<V>, a: V, b: V, c: V, d: V)
    ensures var s := [Update(1, a), Update(2, b), Update(3, c), Update(4, d)];
            && Plain(s) == map[1 := a, 2 := b, 3 := c, 4 := d]
            && Query(m, Run(m, s)) == m.op(m.op(b, a), m.op(c, d))
  {
    var s1 := [Update(1, a)];
    var s2 := s1 + [Update(2, b)];
    var s3 := s2 + [Update(3, c)];
    var s := s3 + [Update(4, d)];
    assert s == [Update(1, a), Update(2, b), Update(3, c), Update(4, d)];
    assert s[..3] == s3 && s3[..2] == s2 && s2[..1] == s1 && s1[..0] == [];
    var t1, t4 := Node(1, a, a, 1, Nil, Nil), Node(4, d, d, 1, Nil, Nil);
    assert Run(m, s1) == t1 && Plain(s1) == map[1 := a];
    assert InsertOrUpdate(m, t1.right, 2, b).0 == Node(2, b, b, 1, Nil, Nil);
    assert Plain(s2) == map[1 := a, 2 := b] && Plain(s3) == map[1 := a, 2 := b, 3 := c];
    var t2 := Node(1, a, m.op(a, b), 2, Nil, Node(2, b, b, 1, Nil, Nil));
    assert Run(m, s2) == t2;
    assert InsertOrUpdate(m, t2.right, 3, c).0 == Node(2, b, m.op(b, c), 2, Nil, Node(3, c, c, 1, Nil, Nil));
    var t3 := Node(2, b, m.op(m.op(b, a), c), 2, t1, Node(3, c, c, 1, Nil, Nil));
    assert Run(m, s3) == t3;
    assert InsertOrUpdate(m, t3.right, 4, d).0 == Node(3, c, m.op(c, d), 2, Nil, t4);
  }

  lemma Descending<V>(m: Monoid<V>, a: V, b: V, c: V, d: V)
    ensures var s := [Update(4, d), Update(3, c), Update(2, b), Update(1, a)];
            && Plain(s) == map[1 := a, 2 := b, 3 := c, 4 := d]
            && Query(m, Run(m, s)) == m.op(m.op(c, m.op(b, a)), d)
  {
    var s1 := [Update(4, d)];
    var s2 := s1 + [Update(3, c)];
    var s3 := s2 + [Update(2, b)];
    var s := s3 + [Update(1, a)];
    assert s == [Update(4, d), Update(3, c), Update(2, b), Update(1, a)];
    assert s[..3] == s3 && s3[..2] == s2 && s2[..1] == s1 && s1[..0] == [];
    var t1, t4 := Node(1, a, a, 1, Nil, Nil), Node(4, d, d, 1, Nil, Nil);
    assert Run(m, s1) == t4 && Plain(s1) == map[4 := d];
    assert InsertOrUpdate(m, t4.left, 3, c).0 == Node(3, c, c, 1, Nil, Nil);
    assert Plain(s2) == map[3 := c, 4 := d] && Plain(s3) == map[2 := b, 3 := c, 4 := d];
    var t2 := Node(4, d, m.op(d, c), 2, Node(3, c, c, 1, Nil, Nil), Nil);
    assert Run(m, s2) == t2;
    assert InsertOrUpdate(m, t2.left, 2, b).0 == Node(3, c, m.op(c, b), 2, Node(2, b, b, 1, Nil, Nil), Nil);
    var t3 := Node(3, c, m.op(m.op(c, b), d), 2, Node(2, b, b, 1, Nil, Nil), t4);
    assert Run(m, s3) == t3;
    assert InsertOrUpdate(m, t3.left, 1, a).0 == Node(2, b, m.op(b, a), 2, t1, Nil);
  }

  /** The aggregate is independent of the history if and only if the operation is
      commutative and associative. */
  lemma HistoryIndependence<V(!new)>(m: Monoid<V>)
    requires HasNeutral(m)
    ensures HistoryIndependent(m) <==> Associative(m) && Commutative(m)
  {
    if Associative(m) && Commutative(m) {
      forall s, t | SameMap(s, t) ensures Query(m, Run(m, s)) == Query(m, Run(m, t)) {
        QueriesAreFolds(m, s, 0, true);
        QueriesAreFolds(m, t, 0, true);
      }
    }
    if HistoryIndependent(m) {
      forall a, b ensures CommutesAt(m, a, b) {
        TwoKeys(m, a, b);
      }
      forall a, b, c ensures AssociatesAt(m, a, b, c) {
        Ascending(m, m.neutral, a, b, c);
        Descending(m, m.neutral, a, b, c);
        var s := [Update(1, m.neutral), Update(2, a), Update(3, b), Update(4, c)];
        var t := [Update(4, c), Update(3, b), Update(2, a), Update(1, m.neutral)];
        assert SameMap(s, t);
        assert CommutesAt(m, a, b);
      }
    }
  }
}
