/**
 * AssociativeFixedMap: a search tree over a fixed set of keys in the implicit
 * layout, aggregating values in key order.  Keys are integers: only their order
 * is used.
 */
module FixedMap {
  import opened Options
  import opened Monoids
  import opened HeapLayout

  datatype Node<V> = Node(key: int, value: V, result: V)

  type Nodes<V> = seq<Option<Node<V>>>

  // ---- reading the layout ----

  /** Every index of the subtree of `i` holds a node. */
  predicate Complete<V>(nodes: Nodes<V>, i: nat)
    requires i >= 1
    decreases |nodes| - i
  {
    i < |nodes| ==> nodes[i].Some? && Complete(nodes, 2 * i) && Complete(nodes, 2 * i + 1)
  }

  /** Keys and values of a subtree from left to right. */
  function InOrder<V>(nodes: Nodes<V>, i: nat): seq<(int, V)>
    requires i >= 1 && Complete(nodes, i)
    decreases |nodes| - i
  {
    if i >= |nodes| then []
    else InOrder(nodes, 2 * i) + [(nodes[i].value.key, nodes[i].value.value)] + InOrder(nodes, 2 * i + 1)
  }

  /** What update_result stores: left, then value, then right. */
  function NodeResult<V>(m: Monoid<V>, nodes: Nodes<V>, i: nat): V
    requires 1 <= i < |nodes| && Complete(nodes, i)
  {
    assert Complete(nodes, 2 * i) && Complete(nodes, 2 * i + 1);
    var r0 := nodes[i].value.value;
    var r1 := if 2 * i < |nodes| then m.op(nodes[2 * i].value.result, r0) else r0;
    if 2 * i + 1 < |nodes| then m.op(r1, nodes[2 * i + 1].value.result) else r1
  }

  ghost predicate ResultsOk<V>(m: Monoid<V>, nodes: Nodes<V>, i: nat)
    requires i >= 1 && Complete(nodes, i)
    decreases |nodes| - i
  {
    i < |nodes| ==>
      ResultsOk(m, nodes, 2 * i) && ResultsOk(m, nodes, 2 * i + 1) && nodes[i].value.result == NodeResult(m, nodes, i)
  }

  ghost predicate Agree<V>(a: Nodes<V>, b: Nodes<V>, i: nat) {
    |a| == |b| && forall j | i <= j < |a| && Under(i, j) :: a[j] == b[j]
  }

  /** A subtree is determined by its own indices. */
  lemma {:induction false} SubtreeFrame<V>(m: Monoid<V>, a: Nodes<V>, b: Nodes<V>, i: nat)
    requires i >= 1 && Complete(a, i) && Agree(a, b, i)
    ensures Complete(b, i) && InOrder(b, i) == InOrder(a, i)
    ensures ResultsOk(m, a, i) ==> ResultsOk(m, b, i)
    decreases |a| - i
  {
    if i < |a| {
      assert Under(i, i);
      AgreeChild(a, b, i, 2 * i);
      AgreeChild(a, b, i, 2 * i + 1);
      SubtreeFrame(m, a, b, 2 * i);
      SubtreeFrame(m, a, b, 2 * i + 1);
      if 2 * i < |a| { assert Under(i, 2 * i); }
      if 2 * i + 1 < |a| { assert Under(i, 2 * i + 1); }
    }
  }

  lemma AgreeChild<V>(a: Nodes<V>, b: Nodes<V>, i: nat, c: nat)
    requires i >= 1 && Agree(a, b, i) && (c == 2 * i || c == 2 * i + 1)
    ensures Agree(a, b, c)
  {
    forall j | c <= j < |a| && Under(c, j) ensures a[j] == b[j] {
      UnderChild(i, c, j);
    }
  }

  /** Only indices of the subtree of `c` differ. */
  ghost predicate ChangedUnder<V>(a: Nodes<V>, b: Nodes<V>, c: nat) {
    |a| == |b| && forall j | 0 <= j < |a| && !Under(c, j) :: a[j] == b[j]
  }

  /** A change under one child is not seen from the other child. */
  lemma ChildrenApart<V>(a: Nodes<V>, b: Nodes<V>, i: nat, c: nat)
    requires i >= 1 && (c == 2 * i || c == 2 * i + 1) && ChangedUnder(a, b, c)
    ensures Agree(a, b, 4 * i + 1 - c) && ChangedUnder(a, b, i) && (i < |a| ==> a[i] == b[i])
  {
    var d := 4 * i + 1 - c;
    forall j | d <= j < |a| && Under(d, j) ensures a[j] == b[j] {
      UnderSplit(i, j);
    }
    forall j | 0 <= j < |a| && !Under(i, j) ensures a[j] == b[j] {
      if Under(c, j) { UnderChild(i, c, j); }
    }
    if Under(c, i) { UnderChild(i, c, i); }
  }

  /** Writing node `i` itself is not seen from its children. */
  lemma NodeAlone<V>(a: Nodes<V>, b: Nodes<V>, i: nat)
    requires 1 <= i < |a| == |b| && (forall j | 0 <= j < |a| && j != i :: a[j] == b[j])
    ensures Agree(a, b, 2 * i) && Agree(a, b, 2 * i + 1) && ChangedUnder(a, b, i)
  {
    forall j | 2 * i <= j < |a| && Under(2 * i, j) ensures a[j] == b[j] { UnderChild(i, 2 * i, j); }
    forall j | 2 * i + 1 <= j < |a| && Under(2 * i + 1, j) ensures a[j] == b[j] { UnderChild(i, 2 * i + 1, j); }
  }

  lemma ChangedTrans<V>(a: Nodes<V>, b: Nodes<V>, c: Nodes<V>, i: nat)
    requires ChangedUnder(a, b, i) && ChangedUnder(b, c, i)
    ensures ChangedUnder(a, c, i)
  {
  }

  /** The subtree of `i` is complete, has right results and holds `items`. */
  ghost predicate Holds<V>(m: Monoid<V>, nodes: Nodes<V>, i: nat, items: seq<(int, V)>)
    requires i >= 1
  {
    Complete(nodes, i) && ResultsOk(m, nodes, i) && InOrder(nodes, i) == items
  }

  lemma HoldsFrame<V>(m: Monoid<V>, a: Nodes<V>, b: Nodes<V>, i: nat, items: seq<(int, V)>)
    requires i >= 1 && Holds(m, a, i, items) && Agree(a, b, i)
    ensures Holds(m, b, i, items)
  {
    SubtreeFrame(m, a, b, i);
  }

  /** Storing a node with its result above two finished subtrees finishes its own. */
  lemma NodeOnTop<V>(m: Monoid<V>, a: Nodes<V>, b: Nodes<V>, i: nat, node: Node<V>, l: seq<(int, V)>, r: seq<(int, V)>)
    requires 1 <= i < |a| && Holds(m, a, 2 * i, l) && Holds(m, a, 2 * i + 1, r) && b == a[i := Some(node)]
    requires var r1 := if 2 * i < |a| then m.op(a[2 * i].value.result, node.value) else node.value;
             node.result == if 2 * i + 1 < |a| then m.op(r1, a[2 * i + 1].value.result) else r1
    ensures Holds(m, b, i, l + [(node.key, node.value)] + r) && ChangedUnder(a, b, i)
  {
    NodeAlone(a, b, i);
    HoldsFrame(m, a, b, 2 * i, l);
    HoldsFrame(m, a, b, 2 * i + 1, r);
  }

  // ---- the queries ----

  function Values<V>(items: seq<(int, V)>): seq<V> {
    seq(|items|, i requires 0 <= i < |items| => items[i].1)
  }

  lemma ValuesConcat<V>(a: seq<(int, V)>, b: seq<(int, V)>)
    ensures Values(a + b) == Values(a) + Values(b)
  {
  }

  ghost predicate Sorted<V>(items: seq<(int, V)>) {
    forall i, j | 0 <= i < j < |items| :: items[i].0 <= items[j].0
  }

  predicate Within(k: int, key: int, strict: bool) {
    if strict then k < key else k <= key
  }

  /** The items with keys below `key`, or at most `key`, in order. */
  function Prefix<V>(items: seq<(int, V)>, key: int, strict: bool): seq<(int, V)> {
    if items == [] then []
    else (if Within(items[0].0, key, strict) then [items[0]] else []) + Prefix(items[1..], key, strict)
  }

  lemma {:induction false} PrefixConcat<V>(a: seq<(int, V)>, b: seq<(int, V)>, key: int, strict: bool)
    ensures Prefix(a + b, key, strict) == Prefix(a, key, strict) + Prefix(b, key, strict)
  {
    if a == [] {
      assert a + b == b;
    } else {
      assert (a + b)[1..] == a[1..] + b;
      PrefixConcat(a[1..], b, key, strict);
      var first := if Within(a[0].0, key, strict) then [a[0]] else [];
      assert Prefix(a + b, key, strict) == first + (Prefix(a[1..], key, strict) + Prefix(b, key, strict));
    }
  }

  lemma {:induction false} PrefixAll<V>(items: seq<(int, V)>, key: int, strict: bool)
    ensures (forall i | 0 <= i < |items| :: Within(items[i].0, key, strict)) ==> Prefix(items, key, strict) == items
    ensures (forall i | 0 <= i < |items| :: !Within(items[i].0, key, strict)) ==> Prefix(items, key, strict) == []
  {
    if items != [] {
      assert items == [items[0]] + items[1..];
      PrefixAll(items[1..], key, strict);
    }
  }

  function LessThan<V>(m: Monoid<V>, nodes: Nodes<V>, i: nat, key: int, strict: bool): V
    requires 1 <= i < |nodes| && Complete(nodes, i)
    decreases |nodes| - i
  {
    var node := nodes[i].value;
    if (strict && node.key < key) || (!strict && node.key <= key) then
      assert Complete(nodes, 2 * i);
      var r0 := node.value;
      var r1 := if 2 * i < |nodes| then m.op(nodes[2 * i].value.result, r0) else r0;
      if 2 * i + 1 < |nodes| then m.op(r1, LessThan(m, nodes, 2 * i + 1, key, strict)) else r1
    else if 2 * i < |nodes| then LessThan(m, nodes, 2 * i, key, strict)
    else m.neutral
  }

  function CountTree<V>(nodes: Nodes<V>, i: nat, key: int): nat
    requires i >= 1 && Complete(nodes, i)
    decreases |nodes| - i
  {
    if i >= |nodes| then 0
    else if key == nodes[i].value.key then 1
    else CountTree(nodes, if key < nodes[i].value.key then 2 * i else 2 * i + 1, key)
  }

  /** Left part, node and right part of a subtree's items. */
  lemma SortedParts<V>(nodes: Nodes<V>, i: nat)
    requires 1 <= i < |nodes| && Complete(nodes, i) && Sorted(InOrder(nodes, i))
    ensures Sorted(InOrder(nodes, 2 * i)) && Sorted(InOrder(nodes, 2 * i + 1))
    ensures forall p | p in InOrder(nodes, 2 * i) :: p.0 <= nodes[i].value.key
    ensures forall p | p in InOrder(nodes, 2 * i + 1) :: nodes[i].value.key <= p.0
  {
    var l, r := InOrder(nodes, 2 * i), InOrder(nodes, 2 * i + 1);
    var all := InOrder(nodes, i);
    var x := (nodes[i].value.key, nodes[i].value.value);
    assert all == l + [x] + r;
    assert forall j | 0 <= j < |l| :: all[j] == l[j];
    assert all[|l|] == x;
    assert forall j | 0 <= j < |r| :: all[|l| + 1 + j] == r[j];
  }

  /** Stored results are folds in key order, for any associative operation. */
  lemma {:induction false} ResultIsFold<V(!new)>(m: Monoid<V>, nodes: Nodes<V>, i: nat)
    requires IsMonoid(m) && i >= 1 && Complete(nodes, i) && ResultsOk(m, nodes, i)
    ensures Fold(m, Values(InOrder(nodes, i))) == if i < |nodes| then nodes[i].value.result else m.neutral
    decreases |nodes| - i
  {
    if i < |nodes| {
      ResultIsFold(m, nodes, 2 * i);
      ResultIsFold(m, nodes, 2 * i + 1);
      FoldParts(m, InOrder(nodes, 2 * i), nodes[i].value.key, nodes[i].value.value, InOrder(nodes, 2 * i + 1));
    }
  }

  lemma FoldParts<V(!new)>(m: Monoid<V>, l: seq<(int, V)>, k: int, v: V, r: seq<(int, V)>)
    requires IsMonoid(m)
    ensures Fold(m, Values(l + [(k, v)] + r)) == m.op(m.op(Fold(m, Values(l)), v), Fold(m, Values(r)))
  {
    ValuesConcat(l + [(k, v)], r);
    ValuesConcat(l, [(k, v)]);
    FoldConcat(m, Values(l + [(k, v)]), Values(r));
    FoldConcat(m, Values(l), Values([(k, v)]));
    assert Values([(k, v)]) == [v];
    FoldSingle(m, v);
  }

  lemma PrefixParts<V>(l: seq<(int, V)>, x: (int, V), r: seq<(int, V)>, key: int, strict: bool)
    requires (forall p | p in l :: p.0 <= x.0) && (forall p | p in r :: x.0 <= p.0)
    ensures Prefix(l + [x] + r, key, strict) ==
            if Within(x.0, key, strict) then l + [x] + Prefix(r, key, strict) else Prefix(l, key, strict)
  {
    PrefixConcat(l + [x], r, key, strict);
    PrefixConcat(l, [x], key, strict);
    assert Prefix([x], key, strict) == if Within(x.0, key, strict) then [x] else [];
    if Within(x.0, key, strict) { PrefixAll(l, key, strict); } else { PrefixAll(r, key, strict); }
  }

  lemma {:induction false} LessThanIsFold<V(!new)>(m: Monoid<V>, nodes: Nodes<V>, i: nat, key: int, strict: bool)
    requires IsMonoid(m) && 1 <= i < |nodes| && Complete(nodes, i) && ResultsOk(m, nodes, i) && Sorted(InOrder(nodes, i))
    ensures LessThan(m, nodes, i, key, strict) == Fold(m, Values(Prefix(InOrder(nodes, i), key, strict)))
    decreases |nodes| - i
  {
    var l, r := InOrder(nodes, 2 * i), InOrder(nodes, 2 * i + 1);
    SortedParts(nodes, i);
    if 2 * i < |nodes| { LessThanIsFold(m, nodes, 2 * i, key, strict); }
    if 2 * i + 1 < |nodes| { LessThanIsFold(m, nodes, 2 * i + 1, key, strict); }
    ResultIsFold(m, nodes, 2 * i);
    PrefixFold(m, l, nodes[i].value.key, nodes[i].value.value, r, key, strict);
  }

  lemma PrefixFold<V(!new)>(m: Monoid<V>, l: seq<(int, V)>, k: int, v: V, r: seq<(int, V)>, key: int, strict: bool)
    requires IsMonoid(m) && (forall p | p in l :: p.0 <= k) && (forall p | p in r :: k <= p.0)
    ensures Fold(m, Values(Prefix(l + [(k, v)] + r, key, strict))) ==
            if Within(k, key, strict) then m.op(m.op(Fold(m, Values(l)), v), Fold(m, Values(Prefix(r, key, strict))))
            else Fold(m, Values(Prefix(l, key, strict)))
  {
    PrefixParts(l, (k, v), r, key, strict);
    if Within(k, key, strict) { FoldParts(m, l, k, v, Prefix(r, key, strict)); }
  }

  ghost predicate HasKey<V>(items: seq<(int, V)>, key: int) {
    exists j | 0 <= j < |items| :: items[j].0 == key
  }

  lemma {:induction false} CountIsMembership<V>(nodes: Nodes<V>, i: nat, key: int)
    requires i >= 1 && Complete(nodes, i) && Sorted(InOrder(nodes, i))
    ensures CountTree(nodes, i, key) == if HasKey(InOrder(nodes, i), key) then 1 else 0
    decreases |nodes| - i
  {
    if i < |nodes| {
      SortedParts(nodes, i);
      var l, r := InOrder(nodes, 2 * i), InOrder(nodes, 2 * i + 1);
      CountIsMembership(nodes, 2 * i, key);
      CountIsMembership(nodes, 2 * i + 1, key);
      KeyParts(l, (nodes[i].value.key, nodes[i].value.value), r, key);
    }
  }

  lemma KeyParts<V>(l: seq<(int, V)>, x: (int, V), r: seq<(int, V)>, key: int)
    ensures HasKey(l + [x] + r, key) <==> HasKey(l, key) || x.0 == key || HasKey(r, key)
  {
    var all := l + [x] + r;
    if j :| 0 <= j < |l| && l[j].0 == key { assert all[j].0 == key; }
    if x.0 == key { assert all[|l|].0 == key; }
    if j :| 0 <= j < |r| && r[j].0 == key { assert all[|l| + 1 + j].0 == key; }
    if j :| 0 <= j < |all| && all[j].0 == key {
      if j < |l| { assert l[j].0 == key; }
      if j > |l| { assert r[j - |l| - 1].0 == key; }
    }
  }

  /** Exactly one item with the given key got the new value. */
  ghost predicate Replaced<V>(before: seq<(int, V)>, after: seq<(int, V)>, key: int, value: V) {
    exists j | 0 <= j < |before| :: before[j].0 == key && after == before[j := (key, value)]
  }

  lemma ReplacedInContext<V>(l: seq<(int, V)>, mid: seq<(int, V)>, mid': seq<(int, V)>, r: seq<(int, V)>, key: int, value: V)
    requires Replaced(mid, mid', key, value)
    ensures Replaced(l + mid + r, l + mid' + r, key, value)
  {
    var j :| 0 <= j < |mid| && mid[j].0 == key && mid' == mid[j := (key, value)];
    assert (l + mid + r)[|l| + j].0 == key;
    assert l + mid' + r == (l + mid + r)[|l| + j := (key, value)];
  }

  lemma SliceAround<V>(items: seq<(int, V)>, lo: nat, mid: nat, hi: nat)
    requires lo <= mid < hi <= |items|
    ensures items[lo..mid] + [(items[mid].0, items[mid].1)] + items[mid + 1..hi] == items[lo..hi]
  {
  }

  /** The order of pairs: by key, then by value. */
  predicate PairLe<V>(less: (V, V) -> bool, x: (int, V), y: (int, V)) {
    x.0 < y.0 || (x.0 == y.0 && !less(y.1, x.1))
  }

  function InsertPair<V>(less: (V, V) -> bool, s: seq<(int, V)>, x: (int, V)): seq<(int, V)> {
    if s == [] || PairLe(less, x, s[0]) then [x] + s else [s[0]] + InsertPair(less, s[1..], x)
  }

  /** Stands in for std::sort on pairs. */
  function SortPairs<V>(less: (V, V) -> bool, s: seq<(int, V)>): seq<(int, V)> {
    if s == [] then [] else InsertPair(less, SortPairs(less, s[1..]), s[0])
  }

  lemma {:induction false} InsertPairItems<V>(less: (V, V) -> bool, s: seq<(int, V)>, x: (int, V))
    ensures multiset(InsertPair(less, s, x)) == multiset(s) + multiset{x}
  {
    if s != [] {
      assert s == [s[0]] + s[1..];
      if !PairLe(less, x, s[0]) { InsertPairItems(less, s[1..], x); }
    }
  }

  lemma InsertedMember<V>(less: (V, V) -> bool, s: seq<(int, V)>, x: (int, V), p: (int, V))
    requires p in InsertPair(less, s, x)
    ensures p == x || p in s
  {
    InsertPairItems(less, s, x);
    assert p in multiset(InsertPair(less, s, x));
  }

  lemma {:induction false} InsertPairSorts<V>(less: (V, V) -> bool, s: seq<(int, V)>, x: (int, V))
    requires Sorted(s)
    ensures Sorted(InsertPair(less, s, x))
  {
    if s != [] && !PairLe(less, x, s[0]) {
      InsertPairSorts(less, s[1..], x);
      var t := InsertPair(less, s[1..], x);
      forall j | 0 <= j < |t| ensures s[0].0 <= t[j].0 {
        InsertedMember(less, s[1..], x, t[j]);
      }
    }
  }

  /** Keys ascend and no pair is lost, whatever the order of the values is. */
  lemma {:induction false} SortPairsSorts<V>(less: (V, V) -> bool, s: seq<(int, V)>)
    ensures Sorted(SortPairs(less, s)) && multiset(SortPairs(less, s)) == multiset(s) && |SortPairs(less, s)| == |s|
  {
    if s != [] {
      SortPairsSorts(less, s[1..]);
      InsertPairSorts(less, SortPairs(less, s[1..]), s[0]);
      InsertPairItems(less, SortPairs(less, s[1..]), s[0]);
      assert s == [s[0]] + s[1..];
      assert |SortPairs(less, s)| == |multiset(SortPairs(less, s))|;
    }
  }

  /** What std::sort demands of the comparison of values. */
  ghost predicate WeakOrder<V(!new)>(less: (V, V) -> bool) {
    && (forall a, b :: less(a, b) ==> !less(b, a))
    && (forall a, b, c :: !less(a, b) && !less(b, c) ==> !less(a, c))
  }

  ghost predicate PairsSorted<V>(less: (V, V) -> bool, s: seq<(int, V)>) {
    forall i, j | 0 <= i < j < |s| :: PairLe(less, s[i], s[j])
  }

  lemma {:induction false} InsertPairOrders<V(!new)>(less: (V, V) -> bool, s: seq<(int, V)>, x: (int, V))
    requires WeakOrder(less) && PairsSorted(less, s)
    ensures PairsSorted(less, InsertPair(less, s, x))
  {
    if s != [] {
      if PairLe(less, x, s[0]) {
        forall j | 0 <= j < |s| ensures PairLe(less, x, s[j]) { if j > 0 { assert PairLe(less, s[0], s[j]); } }
      } else {
        InsertPairOrders(less, s[1..], x);
        var t := InsertPair(less, s[1..], x);
        forall j | 0 <= j < |t| ensures PairLe(less, s[0], t[j]) {
          InsertedMember(less, s[1..], x, t[j]);
          if t[j] != x {
            var i :| 0 <= i < |s[1..]| && s[1..][i] == t[j];
            assert PairLe(less, s[0], s[i + 1]);
          }
        }
      }
    }
  }

  /** Pairs with equal keys come in the order of their values. */
  lemma {:induction false} SortPairsOrders<V(!new)>(less: (V, V) -> bool, s: seq<(int, V)>)
    requires WeakOrder(less)
    ensures PairsSorted(less, SortPairs(less, s))
  {
    if s != [] {
      SortPairsOrders(less, s[1..]);
      InsertPairOrders(less, SortPairs(less, s[1..]), s[0]);
    }
  }

  class AssociativeFixedMap<V(!new)> {
    const m: Monoid<V>
    /** The comparison of values that sorting pairs uses. */
    const less: (V, V) -> bool
    var nodes: Nodes<V>

    ghost predicate Valid()
      reads this
    {
      && |nodes| != 1 && Complete(nodes, 1) && ResultsOk(m, nodes, 1) && Sorted(InOrder(nodes, 1))
    }

    /** The items in key order. */
    ghost function Items(): seq<(int, V)>
      requires Complete(nodes, 1)
      reads this
    {
      InOrder(nodes, 1)
    }

    constructor (m: Monoid<V>, less: (V, V) -> bool)
      ensures Valid() && Items() == [] && this.m == m && this.less == less
    {
      this.m, this.less, nodes := m, less, [];
    }

    method UpdateResult(i: nat, ghost l: seq<(int, V)>, ghost r: seq<(int, V)>)
      requires 1 <= i < |nodes| && nodes[i].Some? && Holds(m, nodes, 2 * i, l) && Holds(m, nodes, 2 * i + 1, r)
      modifies this`nodes
      ensures Holds(m, nodes, i, l + [(old(nodes)[i].value.key, old(nodes)[i].value.value)] + r)
      ensures ChangedUnder(old(nodes), nodes, i)
    {
      var node := nodes[i].value;
      var result := node.value;
      if 2 * i < |nodes| {
        result := m.op(nodes[2 * i].value.result, result);
      }
      if 2 * i + 1 < |nodes| {
        result := m.op(result, nodes[2 * i + 1].value.result);
      }
      NodeOnTop(m, nodes, nodes[i := Some(node.(result := result))], i, node.(result := result), l, r);
      nodes := nodes[i := Some(node.(result := result))];
    }

    /** Stores a node above two finished subtrees and brings its result up to date. */
    method SetNode(i: nat, node: Node<V>, ghost l: seq<(int, V)>, ghost r: seq<(int, V)>)
      requires 1 <= i < |nodes| && Holds(m, nodes, 2 * i, l) && Holds(m, nodes, 2 * i + 1, r)
      modifies this`nodes
      ensures Holds(m, nodes, i, l + [(node.key, node.value)] + r) && ChangedUnder(old(nodes), nodes, i)
    {
      ghost var n0 := nodes;
      nodes := nodes[i := Some(node)];
      NodeAlone(n0, nodes, i);
      HoldsFrame(m, n0, nodes, 2 * i, l);
      HoldsFrame(m, n0, nodes, 2 * i + 1, r);
      UpdateResult(i, l, r);
    }

    /** Fills the subtree of `i` from items[lo..hi]; `writes` lists the indices
        written, in order. */
    method InitTree(i: nat, items: seq<(int, V)>, lo: nat, hi: nat) returns (ghost writes: seq<nat>)
      requires 1 <= i < |nodes| && lo < hi <= |items| && hi - lo == Size(i, |nodes| - 1)
      modifies this`nodes
      ensures ChangedUnder(old(nodes), nodes, i) && Holds(m, nodes, i, items[lo..hi])
      ensures writes == FillOrder(i, |nodes| - 1)
      decreases hi - lo, 2
    {
      var leftSize := LeftChildSize(hi - lo);
      SubtreeShape(i, |nodes| - 1);
      var current := lo + leftSize;
      writes := InitAround(i, items, lo, current, hi);
    }

    /** init_tree once the position of the subtree's own item is known. */
    method InitAround(i: nat, items: seq<(int, V)>, lo: nat, current: nat, hi: nat) returns (ghost writes: seq<nat>)
      requires 1 <= i < |nodes| && lo <= current < hi <= |items|
      requires current - lo == Size(2 * i, |nodes| - 1) && hi - current - 1 == Size(2 * i + 1, |nodes| - 1)
      modifies this`nodes
      ensures ChangedUnder(old(nodes), nodes, i) && Holds(m, nodes, i, items[lo..hi])
      ensures writes == FillOrder(i, |nodes| - 1)
      decreases hi - lo, 1
    {
      ghost var n0 := nodes;
      writes := InitChildren(i, items, lo, current, hi);
      ghost var n1 := nodes;
      SliceAround(items, lo, current, hi);
      SetNode(i, Node(items[current].0, items[current].1, items[current].1), items[lo..current], items[current + 1..hi]);
      ChangedTrans(n0, n1, nodes, i);
      writes := writes + [i];
    }

    /** The two recursive calls; an empty slice means that the child index is unused. */
    method InitChildren(i: nat, items: seq<(int, V)>, lo: nat, current: nat, hi: nat) returns (ghost writes: seq<nat>)
      requires 1 <= i < |nodes| && lo <= current < hi <= |items|
      requires current - lo == Size(2 * i, |nodes| - 1) && hi - current - 1 == Size(2 * i + 1, |nodes| - 1)
      modifies this`nodes
      ensures ChangedUnder(old(nodes), nodes, i)
      ensures Holds(m, nodes, 2 * i, items[lo..current]) && Holds(m, nodes, 2 * i + 1, items[current + 1..hi])
      ensures writes == FillOrder(2 * i, |nodes| - 1) + FillOrder(2 * i + 1, |nodes| - 1)
      ensures lo != current <==> 2 * i < |nodes|
      ensures current + 1 != hi <==> 2 * i + 1 < |nodes|
      decreases hi - lo, 0
    {
      ghost var n0 := nodes;
      writes := [];
      if lo != current {
        writes := InitTree(2 * i, items, lo, current);
        ChildrenApart(n0, nodes, i, 2 * i);
      }
      ghost var n1 := nodes;
      if current + 1 != hi {
        ghost var w := InitTree(2 * i + 1, items, current + 1, hi);
        writes := writes + w;
        ChildrenApart(n1, nodes, i, 2 * i + 1);
        HoldsFrame(m, n1, nodes, 2 * i, items[lo..current]);
      }
    }

    method Init(items: seq<(int, V)>)
      modifies this
      ensures Valid() && Items() == SortPairs(less, items) && multiset(Items()) == multiset(items)
      ensures WeakOrder(less) ==> PairsSorted(less, Items())
    {
      var sorted := SortPairs(less, items);
      SortPairsSorts(less, items);
      if WeakOrder(less) { SortPairsOrders(less, items); }
      if sorted == [] {
        nodes := [];
      } else {
        var before := nodes;
        nodes := seq(|items| + 1, i requires 0 <= i => if i < |before| then before[i] else None);
        RootSize(|items|);
        ghost var writes := InitTree(1, sorted, 0, |sorted|);
        assert sorted[0..|sorted|] == sorted;
      }
    }

    /** None of the nodes changes when the key is missing; the source throws. */
    method UpdateTree(i: nat, key: int, value: V, ghost items: seq<(int, V)>) returns (found: bool, ghost items': seq<(int, V)>)
      requires i >= 1 && Holds(m, nodes, i, items) && Sorted(items)
      modifies this`nodes
      ensures found <==> HasKey(items, key)
      ensures !found ==> nodes == old(nodes)
      ensures found ==> Replaced(items, items', key, value) && Holds(m, nodes, i, items') && ChangedUnder(old(nodes), nodes, i)
      decreases |nodes| - i, 1
    {
      if i >= |nodes| {
        return false, items;
      }
      ghost var l, r := InOrder(nodes, 2 * i), InOrder(nodes, 2 * i + 1);
      SortedParts(nodes, i);
      var node := nodes[i].value;
      KeyParts(l, (node.key, node.value), r, key);
      if key == node.key {
        SetNode(i, node.(value := value), l, r);
        assert [(node.key, node.value)][0].0 == key && [(key, value)] == [(node.key, node.value)][0 := (key, value)];
        ReplacedInContext(l, [(node.key, node.value)], [(key, value)], r, key, value);
        found, items' := true, l + [(key, value)] + r;
      } else if key < node.key {
        found, items' := UpdateLeft(i, key, value, l, r);
      } else {
        found, items' := UpdateRight(i, key, value, l, r);
      }
    }

    method UpdateLeft(i: nat, key: int, value: V, ghost l: seq<(int, V)>, ghost r: seq<(int, V)>)
      returns (found: bool, ghost items': seq<(int, V)>)
      requires 1 <= i < |nodes| && nodes[i].Some? && Holds(m, nodes, 2 * i, l) && Holds(m, nodes, 2 * i + 1, r) && Sorted(l)
      modifies this`nodes
      ensures found <==> HasKey(l, key)
      ensures !found ==> nodes == old(nodes)
      ensures found ==> Replaced(l + [(old(nodes)[i].value.key, old(nodes)[i].value.value)] + r, items', key, value)
                        && Holds(m, nodes, i, items') && ChangedUnder(old(nodes), nodes, i)
      decreases |nodes| - i, 0
    {
      ghost var n0, x, l' := nodes, (nodes[i].value.key, nodes[i].value.value), l;
      found, l' := UpdateTree(2 * i, key, value, l);
      items' := l' + [x] + r;
      if found {
        ChildrenApart(n0, nodes, i, 2 * i);
        HoldsFrame(m, n0, nodes, 2 * i + 1, r);
        ghost var n1 := nodes;
        UpdateResult(i, l', r);
        ChangedTrans(n0, n1, nodes, i);
        assert [] + l + ([x] + r) == l + [x] + r && [] + l' + ([x] + r) == l' + [x] + r;
        ReplacedInContext([], l, l', [x] + r, key, value);
      }
    }

    method UpdateRight(i: nat, key: int, value: V, ghost l: seq<(int, V)>, ghost r: seq<(int, V)>)
      returns (found: bool, ghost items': seq<(int, V)>)
      requires 1 <= i < |nodes| && nodes[i].Some? && Holds(m, nodes, 2 * i, l) && Holds(m, nodes, 2 * i + 1, r) && Sorted(r)
      modifies this`nodes
      ensures found <==> HasKey(r, key)
      ensures !found ==> nodes == old(nodes)
      ensures found ==> Replaced(l + [(old(nodes)[i].value.key, old(nodes)[i].value.value)] + r, items', key, value)
                        && Holds(m, nodes, i, items') && ChangedUnder(old(nodes), nodes, i)
      decreases |nodes| - i, 0
    {
      ghost var n0, x, r' := nodes, (nodes[i].value.key, nodes[i].value.value), r;
      found, r' := UpdateTree(2 * i + 1, key, value, r);
      items' := l + [x] + r';
      if found {
        ChildrenApart(n0, nodes, i, 2 * i + 1);
        HoldsFrame(m, n0, nodes, 2 * i, l);
        ghost var n1 := nodes;
        UpdateResult(i, l, r');
        ChangedTrans(n0, n1, nodes, i);
        assert (l + [x]) + r + [] == l + [x] + r && (l + [x]) + r' + [] == l + [x] + r';
        ReplacedInContext(l + [x], r, r', [], key, value);
      }
    }

    method Update(key: int, value: V) returns (found: bool)
      requires Valid()
      modifies this
      ensures Valid() && (found <==> HasKey(old(Items()), key))
      ensures if found then Replaced(old(Items()), Items(), key, value) else nodes == old(nodes)
    {
      ghost var items', items := [], Items();
      found, items' := UpdateTree(1, key, value, items);
    }

    method Count(key: int) returns (r: nat)
      requires Valid()
      ensures r == if HasKey(Items(), key) then 1 else 0
    {
      CountIsMembership(nodes, 1, key);
      r := CountTree(nodes, 1, key);
    }

    method Query() returns (r: V)
      requires Valid()
      ensures IsMonoid(m) ==> r == Fold(m, Values(Items()))
    {
      if IsMonoid(m) { ResultIsFold(m, nodes, 1); }
      if nodes == [] {
        return m.neutral;
      }
      r := nodes[1].value.result;
    }

    /** query_lt when `strict`, query_le otherwise. */
    method QueryBelow(key: int, strict: bool) returns (r: V)
      requires Valid()
      ensures IsMonoid(m) ==> r == Fold(m, Values(Prefix(Items(), key, strict)))
    {
      if nodes == [] {
        return m.neutral;
      }
      if IsMonoid(m) { LessThanIsFold(m, nodes, 1, key, strict); }
      r := LessThan(m, nodes, 1, key, strict);
    }
  }
}
