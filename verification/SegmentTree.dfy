/**
 * AssociativeVector: a segment tree in an array, aggregating ranges of values in
 * index order.
 */
module SegmentTree {
  import opened Monoids
  import opened Powers
  import opened HeapLayout

  /** Node `node` stands for values[lb..ub], and so do its descendants for their parts. */
  ghost predicate Holds<T>(m: Monoid<T>, tree: seq<T>, node: nat, lb: int, ub: int, values: seq<T>)
    requires node >= 1 && 0 <= lb < ub <= |values|
    decreases ub - lb
  {
    && node < |tree|
    && if ub - lb == 1 then tree[node] == values[lb]
       else
         var middle := (lb + ub) / 2;
         && Holds(m, tree, 2 * node, lb, middle, values) && Holds(m, tree, 2 * node + 1, middle, ub, values)
         && tree[node] == m.op(tree[2 * node], tree[2 * node + 1])
  }

  /** `d` levels are enough below `node` for `len` leaves, and they end within `p`. */
  ghost predicate Fits(node: nat, len: int, d: nat, p: nat) {
    len <= Pow2(d) && Leftmost(node + 1, d) <= p
  }

  lemma FitsChildren(node: nat, lb: int, ub: int, d: nat, p: nat)
    requires Fits(node, ub - lb, d, p) && ub - lb >= 2
    ensures var middle := (lb + ub) / 2;
            d >= 1 && Fits(2 * node, middle - lb, d - 1, p) && Fits(2 * node + 1, ub - middle, d - 1, p)
  {
    LeftmostStep(2 * node + 1, d - 1);
  }

  lemma FitsIndex(node: nat, len: int, d: nat, p: nat)
    requires Fits(node, len, d, p)
    ensures node < p
  {
    LeftmostStep(node + 1, d);
  }

  /** tree_size: the least power of two that is at least 2 and at least 2n. */
  method TreeSize(n: nat) returns (p: nat, ghost d: nat)
    ensures n == 0 ==> p == 0
    ensures n > 0 ==> p == 2 * Pow2(d) && n <= Pow2(d) && (d > 0 ==> Pow2(d - 1) < n)
    ensures n > 0 ==> Fits(1, n, d, p)
  {
    d := 0;
    if n == 0 {
      return 0, d;
    }
    p := 2;
    while p < 2 * n
      invariant p == 2 * Pow2(d) && (d > 0 ==> Pow2(d - 1) < n)
      decreases 2 * n - p
    {
      p := p * 2;
      d := d + 1;
    }
    LeftmostOne(d + 1);
    assert Leftmost(2, d) == Leftmost(1, d + 1);
  }

  ghost predicate ChangedUnder<T>(a: seq<T>, b: seq<T>, c: nat) {
    |a| == |b| && forall j | 0 <= j < |a| && !Under(c, j) :: a[j] == b[j]
  }

  ghost predicate Agree<T>(a: seq<T>, b: seq<T>, i: nat) {
    |a| == |b| && forall j | i <= j < |a| && Under(i, j) :: a[j] == b[j]
  }

  lemma {:induction false} HoldsFrame<T>(m: Monoid<T>, a: seq<T>, b: seq<T>, node: nat, lb: int, ub: int, values: seq<T>)
    requires node >= 1 && 0 <= lb < ub <= |values| && Holds(m, a, node, lb, ub, values) && Agree(a, b, node)
    ensures Holds(m, b, node, lb, ub, values)
    decreases ub - lb
  {
    assert Under(node, node);
    if ub - lb > 1 {
      var middle := (lb + ub) / 2;
      forall j | 2 * node <= j < |a| && Under(2 * node, j) ensures a[j] == b[j] { UnderChild(node, 2 * node, j); }
      forall j | 2 * node + 1 <= j < |a| && Under(2 * node + 1, j) ensures a[j] == b[j] { UnderChild(node, 2 * node + 1, j); }
      HoldsFrame(m, a, b, 2 * node, lb, middle, values);
      HoldsFrame(m, a, b, 2 * node + 1, middle, ub, values);
      assert Under(2 * node, 2 * node) && Under(2 * node + 1, 2 * node + 1);
    }
  }

  /** Values outside lb..ub do not matter. */
  lemma {:induction false} HoldsOtherValues<T>(m: Monoid<T>, tree: seq<T>, node: nat, lb: int, ub: int, v: seq<T>, w: seq<T>)
    requires node >= 1 && 0 <= lb < ub <= |v| == |w| && Holds(m, tree, node, lb, ub, v)
    requires forall i | lb <= i < ub :: v[i] == w[i]
    ensures Holds(m, tree, node, lb, ub, w)
    decreases ub - lb
  {
    if ub - lb > 1 {
      var middle := (lb + ub) / 2;
      HoldsOtherValues(m, tree, 2 * node, lb, middle, v, w);
      HoldsOtherValues(m, tree, 2 * node + 1, middle, ub, v, w);
    }
  }

  lemma ChildrenApart<T>(a: seq<T>, b: seq<T>, i: nat, c: nat)
    requires i >= 1 && (c == 2 * i || c == 2 * i + 1) && ChangedUnder(a, b, c)
    ensures Agree(a, b, 4 * i + 1 - c) && ChangedUnder(a, b, i)
  {
    var d := 4 * i + 1 - c;
    forall j | d <= j < |a| && Under(d, j) ensures a[j] == b[j] {
      UnderSplit(i, j);
    }
    forall j | 0 <= j < |a| && !Under(i, j) ensures a[j] == b[j] {
      if Under(c, j) { UnderChild(i, c, j); }
    }
  }

  /** Writing a node over two finished children. */
  lemma NodeOnTop<T>(m: Monoid<T>, tree: seq<T>, node: nat, lb: int, ub: int, values: seq<T>)
    requires node >= 1 && 0 <= lb < ub <= |values| && ub - lb >= 2 && 2 * node + 1 < |tree|
    requires var middle := (lb + ub) / 2;
             Holds(m, tree, 2 * node, lb, middle, values) && Holds(m, tree, 2 * node + 1, middle, ub, values)
    ensures var tree' := tree[node := m.op(tree[2 * node], tree[2 * node + 1])];
            Holds(m, tree', node, lb, ub, values) && ChangedUnder(tree, tree', node)
  {
    var tree' := tree[node := m.op(tree[2 * node], tree[2 * node + 1])];
    var middle := (lb + ub) / 2;
    forall j | 2 * node <= j < |tree| && Under(2 * node, j) ensures tree[j] == tree'[j] { UnderChild(node, 2 * node, j); }
    forall j | 2 * node + 1 <= j < |tree| && Under(2 * node + 1, j) ensures tree[j] == tree'[j] { UnderChild(node, 2 * node + 1, j); }
    HoldsFrame(m, tree, tree', 2 * node, lb, middle, values);
    HoldsFrame(m, tree, tree', 2 * node + 1, middle, ub, values);
  }

  // ---- queries ----

  function QueryNode<T>(m: Monoid<T>, tree: seq<T>, node: nat, lb: int, ub: int, queryLb: int, queryUb: int, ghost values: seq<T>): T
    requires node >= 1 && 0 <= lb < ub <= |values| && Holds(m, tree, node, lb, ub, values)
    decreases ub - lb
  {
    if ub <= queryLb || queryUb <= lb then m.neutral
    else if queryLb <= lb && ub <= queryUb then tree[node]
    else
      var middle := (lb + ub) / 2;
      m.op(QueryNode(m, tree, 2 * node, lb, middle, queryLb, queryUb, values),
           QueryNode(m, tree, 2 * node + 1, middle, ub, queryLb, queryUb, values))
  }

  function Max(a: int, b: int): int { if a < b then b else a }

  /** The part of values[lb..ub] at positions from `from` up to but not including `to`. */
  function Clip<T>(values: seq<T>, lb: int, ub: int, from: int, to: int): seq<T>
    requires 0 <= lb <= ub <= |values|
  {
    var a, b := Max(lb, from), Min(ub, to);
    if a < b then values[a..b] else []
  }

  lemma {:induction false} NodeIsFold<T(!new)>(m: Monoid<T>, tree: seq<T>, node: nat, lb: int, ub: int, values: seq<T>)
    requires IsMonoid(m) && node >= 1 && 0 <= lb < ub <= |values| && Holds(m, tree, node, lb, ub, values)
    ensures tree[node] == Fold(m, values[lb..ub])
    decreases ub - lb
  {
    if ub - lb == 1 {
      assert values[lb..ub] == [values[lb]];
      FoldSingle(m, values[lb]);
    } else {
      var middle := (lb + ub) / 2;
      NodeIsFold(m, tree, 2 * node, lb, middle, values);
      NodeIsFold(m, tree, 2 * node + 1, middle, ub, values);
      FoldConcat(m, values[lb..middle], values[middle..ub]);
      assert values[lb..middle] + values[middle..ub] == values[lb..ub];
    }
  }

  lemma {:induction false} QueryIsFold<T(!new)>(m: Monoid<T>, tree: seq<T>, node: nat, lb: int, ub: int, from: int, to: int, values: seq<T>)
    requires IsMonoid(m) && node >= 1 && 0 <= lb < ub <= |values| && Holds(m, tree, node, lb, ub, values)
    ensures QueryNode(m, tree, node, lb, ub, from, to, values) == Fold(m, Clip(values, lb, ub, from, to))
    decreases ub - lb
  {
    if ub <= from || to <= lb {
      assert Clip(values, lb, ub, from, to) == [];
    } else if from <= lb && ub <= to {
      assert Clip(values, lb, ub, from, to) == values[lb..ub];
      NodeIsFold(m, tree, node, lb, ub, values);
    } else {
      var middle := (lb + ub) / 2;
      QueryIsFold(m, tree, 2 * node, lb, middle, from, to, values);
      QueryIsFold(m, tree, 2 * node + 1, middle, ub, from, to, values);
      QuerySplits(m, tree, node, lb, ub, from, to, values);
      FoldClips(m, values, lb, middle, ub, from, to);
    }
  }

  /** A query that covers part of the node's range asks both halves. */
  lemma QuerySplits<T>(m: Monoid<T>, tree: seq<T>, node: nat, lb: int, ub: int, from: int, to: int, values: seq<T>)
    requires node >= 1 && 0 <= lb < ub <= |values| && Holds(m, tree, node, lb, ub, values)
    requires !(ub <= from || to <= lb) && !(from <= lb && ub <= to)
    ensures var middle := (lb + ub) / 2;
            && lb < middle < ub
            && QueryNode(m, tree, node, lb, ub, from, to, values)
               == m.op(QueryNode(m, tree, 2 * node, lb, middle, from, to, values),
                       QueryNode(m, tree, 2 * node + 1, middle, ub, from, to, values))
  {
  }

  lemma FoldClips<T(!new)>(m: Monoid<T>, values: seq<T>, lb: int, middle: int, ub: int, from: int, to: int)
    requires IsMonoid(m) && 0 <= lb <= middle <= ub <= |values|
    ensures Fold(m, Clip(values, lb, ub, from, to))
            == m.op(Fold(m, Clip(values, lb, middle, from, to)), Fold(m, Clip(values, middle, ub, from, to)))
  {
    FoldConcat(m, Clip(values, lb, middle, from, to), Clip(values, middle, ub, from, to));
    ClipConcat(values, lb, middle, ub, from, to);
  }

  lemma ClipConcat<T>(values: seq<T>, lb: int, middle: int, ub: int, from: int, to: int)
    requires 0 <= lb <= middle <= ub <= |values|
    ensures Clip(values, lb, middle, from, to) + Clip(values, middle, ub, from, to) == Clip(values, lb, ub, from, to)
  {
  }

  /** The leaf that update() reaches for an index, in range or not. */
  function Clamp(index: int, lb: int, ub: int): int {
    if index < lb then lb else if index >= ub then ub - 1 else index
  }

  class AssociativeVector<T(0, !new)> {
    const m: Monoid<T>
    var size: nat
    var tree: seq<T>
    ghost var values: seq<T>

    ghost predicate Valid()
      reads this
    {
      && size == |values|
      && (size > 0 ==> Holds(m, tree, 1, 0, size, values) && exists d :: Fits(1, size, d, |tree|))
    }

    constructor (m: Monoid<T>)
      ensures Valid() && values == [] && this.m == m
    {
      this.m, size, tree, values := m, 0, [], [];
    }

    method InitNode(node: nat, lb: int, ub: int, vs: seq<T>, ghost d: nat)
      requires node >= 1 && 0 <= lb < ub <= |vs| && Fits(node, ub - lb, d, |tree|)
      modifies this`tree
      ensures Holds(m, tree, node, lb, ub, vs) && ChangedUnder(old(tree), tree, node)
      decreases ub - lb
    {
      FitsIndex(node, ub - lb, d, |tree|);
      if ub - lb == 1 {
        tree := tree[node := vs[lb]];
        return;
      }
      var middle := (lb + ub) / 2;
      FitsChildren(node, lb, ub, d, |tree|);
      FitsIndex(2 * node + 1, ub - middle, d - 1, |tree|);
      ghost var t0 := tree;
      InitNode(2 * node, lb, middle, vs, d - 1);
      ghost var t1 := tree;
      ChildrenApart(t0, t1, node, 2 * node);
      InitNode(2 * node + 1, middle, ub, vs, d - 1);
      ChildrenApart(t1, tree, node, 2 * node + 1);
      HoldsFrame(m, t1, tree, 2 * node, lb, middle, vs);
      NodeOnTop(m, tree, node, lb, ub, vs);
      tree := tree[node := m.op(tree[2 * node], tree[2 * node + 1])];
    }

    method Init(vs: seq<T>)
      modifies this
      ensures Valid() && values == vs
    {
      size := |vs|;
      var p: nat;
      ghost var d;
      p, d := TreeSize(size);
      var before, zero: T := tree, *;
      tree := seq(p, i requires 0 <= i => if i < |before| then before[i] else zero);
      if size != 0 {
        InitNode(1, 0, size, vs, d);
      }
      values := vs;
    }

    method UpdateNode(node: nat, lb: int, ub: int, index: int, value: T, ghost vs: seq<T>)
      requires node >= 1 && 0 <= lb < ub <= |vs| && Holds(m, tree, node, lb, ub, vs)
      modifies this`tree
      ensures Holds(m, tree, node, lb, ub, vs[Clamp(index, lb, ub) := value]) && ChangedUnder(old(tree), tree, node)
      decreases ub - lb
    {
      if ub - lb == 1 {
        tree := tree[node := value];
        return;
      }
      var middle := (lb + ub) / 2;
      ghost var t0, vs' := tree, vs[Clamp(index, lb, ub) := value];
      if index < middle {
        UpdateNode(2 * node, lb, middle, index, value, vs);
        ChildrenApart(t0, tree, node, 2 * node);
        HoldsFrame(m, t0, tree, 2 * node + 1, middle, ub, vs);
        HoldsOtherValues(m, tree, 2 * node + 1, middle, ub, vs, vs');
      } else {
        UpdateNode(2 * node + 1, middle, ub, index, value, vs);
        ChildrenApart(t0, tree, node, 2 * node + 1);
        HoldsFrame(m, t0, tree, 2 * node, lb, middle, vs);
        HoldsOtherValues(m, tree, 2 * node, lb, middle, vs, vs');
      }
      NodeOnTop(m, tree, node, lb, ub, vs');
      tree := tree[node := m.op(tree[2 * node], tree[2 * node + 1])];
    }

    /** An index out of range changes the nearest element, without complaint. */
    method Update(index: int, value: T)
      requires Valid() && size > 0
      modifies this
      ensures Valid() && values == old(values[Clamp(index, 0, size) := value])
    {
      UpdateNode(1, 0, size, index, value, values);
      values := values[Clamp(index, 0, size) := value];
    }

    /** Any bounds, reversed or out of range, except that an empty vector has no
        node to read for bounds around 0. */
    method Query(from: int, to: int) returns (r: T)
      requires Valid() && (size > 0 || from >= 0 || to <= 0)
      ensures IsMonoid(m) ==> r == Fold(m, Clip(values, 0, size, from, to))
    {
      if size == 0 {
        return m.neutral;
      }
      if IsMonoid(m) { QueryIsFold(m, tree, 1, 0, size, from, to, values); }
      r := QueryNode(m, tree, 1, 0, size, from, to, values);
    }

    method QueryAll() returns (r: T)
      requires Valid()
      ensures IsMonoid(m) ==> r == Fold(m, values)
    {
      r := Query(0, size);
      assert Clip(values, 0, size, 0, size) == values;
    }
  }
}
