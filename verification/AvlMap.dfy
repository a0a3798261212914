/**
 * AssociativeMap: an AVL tree that aggregates the values of its keys.
 *
 * Every node is owned by exactly one pointer, so a subtree is a value and an
 * operation on `NodePtr&` is a function from the old subtree to the new one; the
 * class at the end holds the root and reassigns it.  Keys are integers: only
 * their order is used.
 */
module AvlMap {
  import opened Options
  import opened Collections
  import opened Monoids
  import opened Powers

  datatype Tree<V> = Nil | Node(key: int, value: V, result: V, height: nat, left: Tree<V>, right: Tree<V>)

  /** Stored heights are right. */
  predicate HeightsOk<V>(t: Tree<V>) {
    t.Node? ==> HeightsOk(t.left) && HeightsOk(t.right) && t.height == 1 + Max(Height(t.left), Height(t.right))
  }

  // ---- the code ----

  function Height<V>(t: Tree<V>): nat {
    if t.Node? then t.height else 0
  }

  function Max(a: nat, b: nat): nat { if a < b then b else a }

  /** A node's result from its value and its children's results: value, then
      left, then right. */
  function UpdateResult<V>(m: Monoid<V>, t: Tree<V>): Tree<V>
    requires t.Node?
  {
    var r0 := t.value;
    var r1 := if t.left.Node? then m.op(r0, t.left.result) else r0;
    var r2 := if t.right.Node? then m.op(r1, t.right.result) else r1;
    t.(result := r2)
  }

  function UpdateHeightAndResult<V>(m: Monoid<V>, t: Tree<V>): Tree<V>
    requires t.Node?
  {
    UpdateResult(m, t.(height := 1 + Max(Height(t.left), Height(t.right))))
  }

  function RotateLeft<V>(m: Monoid<V>, t: Tree<V>): (r: Tree<V>)
    requires t.Node? && t.right.Node? && HeightsOk(t.left) && HeightsOk(t.right)
    ensures r.Node? && HeightsOk(r)
  {
    var a := UpdateHeightAndResult(m, t.(right := t.right.left));
    UpdateHeightAndResult(m, t.right.(left := a))
  }

  function RotateRight<V>(m: Monoid<V>, t: Tree<V>): (r: Tree<V>)
    requires t.Node? && t.left.Node? && HeightsOk(t.left) && HeightsOk(t.right)
    ensures r.Node? && HeightsOk(r)
  {
    var a := UpdateHeightAndResult(m, t.(left := t.left.right));
    UpdateHeightAndResult(m, t.left.(right := a))
  }

  function Rebalance<V>(m: Monoid<V>, t: Tree<V>): (r: Tree<V>)
    requires t.Node? && HeightsOk(t.left) && HeightsOk(t.right)
    ensures r.Node? && HeightsOk(r)
  {
    if Height(t.left) > Height(t.right) + 1 then
      var t' := if Height(t.left.right) > Height(t.left.left) then t.(left := RotateLeft(m, t.left)) else t;
      RotateRight(m, t')
    else if Height(t.right) > Height(t.left) + 1 then
      var t' := if Height(t.right.left) > Height(t.right.right) then t.(right := RotateRight(m, t.right)) else t;
      RotateLeft(m, t')
    else
      UpdateHeightAndResult(m, t)
  }

  /** The new subtree, and whether a node was inserted rather than updated. */
  function InsertOrUpdate<V>(m: Monoid<V>, t: Tree<V>, key: int, value: V): (r: (Tree<V>, bool))
    requires HeightsOk(t)
    ensures HeightsOk(r.0) && (!r.1 ==> Height(r.0) == Height(t))
  {
    if t.Nil? then (Node(key, value, value, 1, Nil, Nil), true)
    else if key == t.key then (UpdateResult(m, t.(value := value)), false)
    else
      var (child, inserted) := InsertOrUpdate(m, if key < t.key then t.left else t.right, key, value);
      var t' := if key < t.key then t.(left := child) else t.(right := child);
      (if inserted then Rebalance(m, t') else UpdateResult(m, t'), inserted)
  }

  /** Splits off the node with the lowest key. */
  function ExtractMin<V>(m: Monoid<V>, t: Tree<V>): (r: (Tree<V>, Tree<V>))
    requires t.Node? && HeightsOk(t)
    ensures HeightsOk(r.0) && r.1.Node?
  {
    if t.left.Nil? then (t.right, t)
    else
      var (left, minNode) := ExtractMin(m, t.left);
      (Rebalance(m, t.(left := left)), minNode)
  }

  function Merge<V>(m: Monoid<V>, left: Tree<V>, right: Tree<V>): (r: Tree<V>)
    requires HeightsOk(left) && HeightsOk(right)
    ensures HeightsOk(r)
  {
    if right.Nil? then left
    else
      var (rest, root) := ExtractMin(m, right);
      Rebalance(m, root.(left := left, right := rest))
  }

  function RemoveKey<V>(m: Monoid<V>, t: Tree<V>, key: int): (r: Tree<V>)
    requires HeightsOk(t)
    ensures HeightsOk(r)
  {
    if t.Nil? then t
    else if key == t.key then Merge(m, t.left, t.right)
    else
      var t' := if key < t.key then t.(left := RemoveKey(m, t.left, key)) else t.(right := RemoveKey(m, t.right, key));
      Rebalance(m, t')
  }

  function LessThan<V>(m: Monoid<V>, t: Tree<V>, key: int, strict: bool): V
    requires t.Node?
  {
    if (strict && t.key < key) || (!strict && t.key <= key) then
      var r0 := t.value;
      var r1 := if t.left.Node? then m.op(r0, t.left.result) else r0;
      if t.right.Node? then m.op(r1, LessThan(m, t.right, key, strict)) else r1
    else if t.left.Node? then LessThan(m, t.left, key, strict)
    else m.neutral
  }

  function GetValueIfExists<V>(t: Tree<V>, key: int): Option<V> {
    if t.Nil? then None
    else if key == t.key then Some(t.value)
    else if key < t.key then GetValueIfExists(t.left, key)
    else GetValueIfExists(t.right, key)
  }

  // ---- invariants ----

  ghost predicate Balanced<V>(t: Tree<V>) {
    t.Node? ==>
      && Balanced(t.left) && Balanced(t.right)
      && Height(t.left) <= Height(t.right) + 1 && Height(t.right) <= Height(t.left) + 1
  }

  /** The key-value map a tree stands for. */
  function Contents<V>(t: Tree<V>): map<int, V> {
    if t.Nil? then map[] else (Contents(t.left) + Contents(t.right))[t.key := t.value]
  }

  ghost predicate Search<V>(t: Tree<V>) {
    t.Node? ==>
      && Search(t.left) && Search(t.right)
      && (forall k | k in Contents(t.left) :: k < t.key)
      && (forall k | k in Contents(t.right) :: t.key < k)
  }

  /** Stored results are what UpdateResult computes. */
  ghost predicate ResultsOk<V>(m: Monoid<V>, t: Tree<V>) {
    t.Node? ==> ResultsOk(m, t.left) && ResultsOk(m, t.right) && t == UpdateResult(m, t)
  }

  // ---- what every operation keeps ----

  /** The contents around a rotation: subtrees `a`, `b`, `c` and two keys. */
  lemma RotateMaps<K, V>(a: map<K, V>, b: map<K, V>, c: map<K, V>, k1: K, v1: V, k2: K, v2: V)
    requires k1 != k2 && k1 !in c && k2 !in a && k2 !in b
    ensures (a + (b + c)[k2 := v2])[k1 := v1] == ((a + b)[k1 := v1] + c)[k2 := v2]
  {
    var l, r := (a + (b + c)[k2 := v2])[k1 := v1], ((a + b)[k1 := v1] + c)[k2 := v2];
    assert l.Keys == r.Keys;
  }

  /** The order of the keys around a rotation. */
  lemma SearchParts<V>(t: Tree<V>)
    requires t.Node? && Search(t)
    ensures t.left.Node? ==> t.left.key < t.key && forall k | k in Contents(t.left.left) || k in Contents(t.left.right) :: k < t.key
    ensures t.right.Node? ==> t.key < t.right.key && forall k | k in Contents(t.right.left) || k in Contents(t.right.right) :: t.key < k
  {
    if t.left.Node? {
      assert t.left.key in Contents(t.left);
      assert forall k | k in Contents(t.left.left) || k in Contents(t.left.right) :: k in Contents(t.left);
    }
    if t.right.Node? {
      assert t.right.key in Contents(t.right);
      assert forall k | k in Contents(t.right.left) || k in Contents(t.right.right) :: k in Contents(t.right);
    }
  }

  /** Search holds of a node when it holds of its children and the key separates them. */
  lemma JoinSearch<V>(t: Tree<V>)
    requires t.Node? && Search(t.left) && Search(t.right)
    requires (forall k | k in Contents(t.left) :: k < t.key) && (forall k | k in Contents(t.right) :: t.key < k)
    ensures Search(t)
  {
  }

  lemma RotateLeftContents<V>(m: Monoid<V>, t: Tree<V>)
    requires t.Node? && t.right.Node? && HeightsOk(t.left) && HeightsOk(t.right) && Search(t)
    ensures Contents(RotateLeft(m, t)) == Contents(t) && Search(RotateLeft(m, t))
  {
    SearchParts(t);
    var r := RotateLeft(m, t);
    var a, b, c := Contents(t.left), Contents(t.right.left), Contents(t.right.right);
    RotateMaps(a, b, c, t.key, t.value, t.right.key, t.right.value);
    JoinSearch(r.left);
    JoinSearch(r);
  }

  lemma RotateRightContents<V>(m: Monoid<V>, t: Tree<V>)
    requires t.Node? && t.left.Node? && HeightsOk(t.left) && HeightsOk(t.right) && Search(t)
    ensures Contents(RotateRight(m, t)) == Contents(t) && Search(RotateRight(m, t))
  {
    SearchParts(t);
    var r := RotateRight(m, t);
    var a, b, c := Contents(t.left.left), Contents(t.left.right), Contents(t.right);
    RotateMaps(a, b, c, t.left.key, t.left.value, t.key, t.value);
    JoinSearch(r.right);
    JoinSearch(r);
  }

  /** Rotations change the shape only. */
  lemma RotateLeftKeeps<V>(m: Monoid<V>, t: Tree<V>)
    requires t.Node? && t.right.Node? && HeightsOk(t.left) && HeightsOk(t.right) && Search(t)
    ensures Contents(RotateLeft(m, t)) == Contents(t) && Search(RotateLeft(m, t))
    ensures ResultsOk(m, t.left) && ResultsOk(m, t.right) ==> ResultsOk(m, RotateLeft(m, t))
  {
    RotateLeftContents(m, t);
  }

  lemma RotateRightKeeps<V>(m: Monoid<V>, t: Tree<V>)
    requires t.Node? && t.left.Node? && HeightsOk(t.left) && HeightsOk(t.right) && Search(t)
    ensures Contents(RotateRight(m, t)) == Contents(t) && Search(RotateRight(m, t))
    ensures ResultsOk(m, t.left) && ResultsOk(m, t.right) ==> ResultsOk(m, RotateRight(m, t))
  {
    RotateRightContents(m, t);
  }

  /** A node whose subtrees are in order but may differ in height by two. */
  ghost predicate NearlyOk<V>(m: Monoid<V>, t: Tree<V>) {
    && t.Node? && Ok(m, t.left) && Ok(m, t.right) && Search(t)
    && Height(t.left) <= Height(t.right) + 2 && Height(t.right) <= Height(t.left) + 2
  }

  /** The invariant of the whole structure. */
  ghost predicate Ok<V>(m: Monoid<V>, t: Tree<V>) {
    HeightsOk(t) && Balanced(t) && Search(t) && ResultsOk(m, t)
  }

  lemma RebalanceKeeps<V>(m: Monoid<V>, t: Tree<V>)
    requires NearlyOk(m, t)
    ensures Contents(Rebalance(m, t)) == Contents(t) && Search(Rebalance(m, t)) && ResultsOk(m, Rebalance(m, t))
  {
    if Height(t.left) > Height(t.right) + 1 {
      if Height(t.left.right) > Height(t.left.left) {
        RotateLeftKeeps(m, t.left);
        RotateRightKeeps(m, t.(left := RotateLeft(m, t.left)));
      } else {
        RotateRightKeeps(m, t);
      }
    } else if Height(t.right) > Height(t.left) + 1 {
      if Height(t.right.left) > Height(t.right.right) {
        RotateRightKeeps(m, t.right);
        RotateLeftKeeps(m, t.(right := RotateRight(m, t.right)));
      } else {
        RotateLeftKeeps(m, t);
      }
    }
  }

  /** One rebalancing repairs a height difference of two and shrinks the tree by
      at most one level. */
  lemma RebalanceBalances<V>(m: Monoid<V>, t: Tree<V>)
    requires t.Node? && HeightsOk(t.left) && HeightsOk(t.right) && Balanced(t.left) && Balanced(t.right)
    requires Height(t.left) <= Height(t.right) + 2 && Height(t.right) <= Height(t.left) + 2
    ensures Balanced(Rebalance(m, t))
    ensures var tall := Max(Height(t.left), Height(t.right));
            var differ := Height(t.left) == Height(t.right) + 2 || Height(t.right) == Height(t.left) + 2;
            if differ then tall <= Height(Rebalance(m, t)) <= tall + 1 else Height(Rebalance(m, t)) == tall + 1
  {
    if Height(t.left) > Height(t.right) + 1 {
      LeftHeavy(m, t);
    } else if Height(t.right) > Height(t.left) + 1 {
      RightHeavy(m, t);
    }
  }

  lemma LeftHeavy<V>(m: Monoid<V>, t: Tree<V>)
    requires t.Node? && HeightsOk(t.left) && HeightsOk(t.right) && Balanced(t.left) && Balanced(t.right)
    requires Height(t.left) == Height(t.right) + 2
    ensures Balanced(Rebalance(m, t)) && Height(t.left) <= Height(Rebalance(m, t)) <= Height(t.left) + 1
  {
    if Height(t.left.right) > Height(t.left.left) {
      var l := t.left.right;
      assert l.Node? && Balanced(l.left) && Balanced(l.right);
    }
  }

  lemma RightHeavy<V>(m: Monoid<V>, t: Tree<V>)
    requires t.Node? && HeightsOk(t.left) && HeightsOk(t.right) && Balanced(t.left) && Balanced(t.right)
    requires Height(t.right) == Height(t.left) + 2
    ensures Balanced(Rebalance(m, t)) && Height(t.right) <= Height(Rebalance(m, t)) <= Height(t.right) + 1
  {
    if Height(t.right.left) > Height(t.right.right) {
      var r := t.right.left;
      assert r.Node? && Balanced(r.left) && Balanced(r.right);
    }
  }

  lemma RebalanceRestores<V>(m: Monoid<V>, t: Tree<V>)
    requires NearlyOk(m, t)
    ensures Ok(m, Rebalance(m, t)) && Contents(Rebalance(m, t)) == Contents(t)
    ensures var tall := Max(Height(t.left), Height(t.right));
            var differ := Height(t.left) == Height(t.right) + 2 || Height(t.right) == Height(t.left) + 2;
            if differ then tall <= Height(Rebalance(m, t)) <= tall + 1 else Height(Rebalance(m, t)) == tall + 1
  {
    RebalanceKeeps(m, t);
    RebalanceBalances(m, t);
  }

  lemma PutMaps<K, V>(a: map<K, V>, b: map<K, V>, k: K, v: V, key: K, value: V)
    requires key != k
    ensures key !in b ==> (a[key := value] + b)[k := v] == (a + b)[k := v][key := value]
    ensures (a + b[key := value])[k := v] == (a + b)[k := v][key := value]
  {
    assert key !in b ==> ((a[key := value] + b)[k := v]).Keys == ((a + b)[k := v][key := value]).Keys;
  }

  /** Swapping a child for one with other contents. */
  lemma ReplaceLeft<V>(t: Tree<V>, child: Tree<V>, key: int, value: V)
    requires t.Node? && Search(t) && Search(child) && key < t.key && Contents(child) == Contents(t.left)[key := value]
    ensures Search(t.(left := child)) && Contents(t.(left := child)) == Contents(t)[key := value]
  {
    assert key !in Contents(t.right);
    PutMaps(Contents(t.left), Contents(t.right), t.key, t.value, key, value);
    JoinSearch(t.(left := child));
  }

  lemma ReplaceRight<V>(t: Tree<V>, child: Tree<V>, key: int, value: V)
    requires t.Node? && Search(t) && Search(child) && t.key < key && Contents(child) == Contents(t.right)[key := value]
    ensures Search(t.(right := child)) && Contents(t.(right := child)) == Contents(t)[key := value]
  {
    PutMaps(Contents(t.left), Contents(t.right), t.key, t.value, key, value);
    JoinSearch(t.(right := child));
  }

  lemma {:induction false} InsertKeeps<V>(m: Monoid<V>, t: Tree<V>, key: int, value: V)
    requires Ok(m, t)
    ensures var (t', inserted) := InsertOrUpdate(m, t, key, value);
            && Ok(m, t') && Contents(t') == Contents(t)[key := value]
            && (inserted <==> key !in Contents(t))
            && Height(t) <= Height(t') <= Height(t) + 1
  {
    if t.Node? && key != t.key {
      if key < t.key {
        InsertKeeps(m, t.left, key, value);
        var (child, inserted) := InsertOrUpdate(m, t.left, key, value);
        ReplaceLeft(t, child, key, value);
        if inserted { RebalanceRestores(m, t.(left := child)); }
        assert key !in Contents(t.right);
      } else {
        InsertKeeps(m, t.right, key, value);
        var (child, inserted) := InsertOrUpdate(m, t.right, key, value);
        ReplaceRight(t, child, key, value);
        if inserted { RebalanceRestores(m, t.(right := child)); }
        assert key !in Contents(t.left);
      }
    }
  }

  lemma DropMaps<K, V>(a: map<K, V>, b: map<K, V>, k: K, v: V, key: K)
    requires key != k
    ensures key !in b ==> ((a - {key}) + b)[k := v] == (a + b)[k := v] - {key}
    ensures key !in a ==> (a + (b - {key}))[k := v] == (a + b)[k := v] - {key}
  {
    if key !in b { SameMap(((a - {key}) + b)[k := v], (a + b)[k := v] - {key}); }
    if key !in a { SameMap((a + (b - {key}))[k := v], (a + b)[k := v] - {key}); }
  }

  lemma DropFromLeft<V>(t: Tree<V>, child: Tree<V>, key: int)
    requires t.Node? && Search(t) && Search(child) && key < t.key && Contents(child) == Contents(t.left) - {key}
    ensures Search(t.(left := child)) && Contents(t.(left := child)) == Contents(t) - {key}
  {
    assert key !in Contents(t.right);
    DropMaps(Contents(t.left), Contents(t.right), t.key, t.value, key);
    JoinSearch(t.(left := child));
  }

  lemma DropFromRight<V>(t: Tree<V>, child: Tree<V>, key: int)
    requires t.Node? && Search(t) && Search(child) && t.key < key && Contents(child) == Contents(t.right) - {key}
    ensures Search(t.(right := child)) && Contents(t.(right := child)) == Contents(t) - {key}
  {
    assert key !in Contents(t.left);
    DropMaps(Contents(t.left), Contents(t.right), t.key, t.value, key);
    JoinSearch(t.(right := child));
  }

  lemma PromoteMaps<K, V>(a: map<K, V>, b: map<K, V>, k: K, v: V, key: K)
    requires k !in a && k !in b && key in b && key !in a
    ensures (a + (b - {key}))[key := b[key]] == (a + b)[k := v] - {k}
  {
    SameMap((a + (b - {key}))[key := b[key]], (a + b)[k := v] - {k});
  }

  /** A new root taken from the right subtree. */
  lemma PromoteRight<V>(t: Tree<V>, rest: Tree<V>, root: Tree<V>)
    requires t.Node? && Search(t) && Search(rest) && root.Node?
    requires root.key in Contents(t.right) && Contents(t.right)[root.key] == root.value
    requires Contents(rest) == Contents(t.right) - {root.key} && forall k | k in Contents(rest) :: root.key < k
    ensures var t' := root.(left := t.left, right := rest);
            Search(t') && Contents(t') == Contents(t) - {t.key}
  {
    assert t.key !in Contents(t.left) && t.key !in Contents(t.right);
    assert forall k | k in Contents(t.left) :: k < root.key;
    PromoteMaps(Contents(t.left), Contents(t.right), t.key, t.value, root.key);
    JoinSearch(root.(left := t.left, right := rest));
  }

  lemma {:induction false} ExtractMinKeeps<V>(m: Monoid<V>, t: Tree<V>)
    requires t.Node? && Ok(m, t)
    ensures var (rest, minNode) := ExtractMin(m, t);
            && Ok(m, rest) && minNode.key in Contents(t) && Contents(t)[minNode.key] == minNode.value
            && Contents(rest) == Contents(t) - {minNode.key}
            && (forall k | k in Contents(rest) :: minNode.key < k)
            && Height(t) - 1 <= Height(rest) <= Height(t)
  {
    if t.left.Nil? {
      assert Contents(t.left) == map[];
    } else {
      ExtractMinKeeps(m, t.left);
      var (left, minNode) := ExtractMin(m, t.left);
      var t' := t.(left := left);
      DropFromLeft(t, left, minNode.key);
      RebalanceRestores(m, t');
    }
  }

  lemma DropRoot<K, V>(a: map<K, V>, k: K, v: V)
    requires k !in a
    ensures (a + map[])[k := v] - {k} == a
  {
    SameMap((a + map[])[k := v] - {k}, a);
  }

  lemma MergeKeeps<V>(m: Monoid<V>, t: Tree<V>)
    requires t.Node? && Ok(m, t)
    ensures var t' := Merge(m, t.left, t.right);
            && Ok(m, t') && Contents(t') == Contents(t) - {t.key}
            && Height(t) - 1 <= Height(t') <= Height(t)
  {
    if t.right.Nil? {
      assert t.key !in Contents(t.left);
      DropRoot(Contents(t.left), t.key, t.value);
    } else {
      MergeTwo(m, t);
    }
  }

  lemma MergeTwo<V>(m: Monoid<V>, t: Tree<V>)
    requires t.Node? && Ok(m, t) && t.right.Node?
    ensures var t' := Merge(m, t.left, t.right);
            && Ok(m, t') && Contents(t') == Contents(t) - {t.key}
            && Height(t) - 1 <= Height(t') <= Height(t)
  {
    ExtractMinKeeps(m, t.right);
    var (rest, root) := ExtractMin(m, t.right);
    PromoteRight(t, rest, root);
    RebalanceRestores(m, root.(left := t.left, right := rest));
  }

  lemma {:induction false} RemoveKeeps<V>(m: Monoid<V>, t: Tree<V>, key: int)
    requires Ok(m, t)
    ensures var t' := RemoveKey(m, t, key);
            && Ok(m, t') && Contents(t') == Contents(t) - {key}
            && Height(t) - 1 <= Height(t') <= Height(t)
  {
    if t.Node? {
      if key == t.key {
        MergeKeeps(m, t);
      } else if key < t.key {
        RemoveKeeps(m, t.left, key);
        var t' := t.(left := RemoveKey(m, t.left, key));
        DropFromLeft(t, t'.left, key);
        RebalanceRestores(m, t');
      } else {
        RemoveKeeps(m, t.right, key);
        var t' := t.(right := RemoveKey(m, t.right, key));
        DropFromRight(t, t'.right, key);
        RebalanceRestores(m, t');
      }
    }
  }

  function Size<V>(t: Tree<V>): nat {
    if t.Nil? then 0 else 1 + Size(t.left) + Size(t.right)
  }

  lemma JoinedCount<V>(l: map<int, V>, r: map<int, V>, k: int, v: V)
    requires l.Keys !! r.Keys && k !in l && k !in r
    ensures |(l + r)[k := v]| == 1 + |l| + |r|
  {
    assert (l + r)[k := v].Keys == l.Keys + r.Keys + {k};
    assert |l.Keys + r.Keys| == |l.Keys| + |r.Keys|;
  }

  lemma Apart<V>(l: map<int, V>, r: map<int, V>, k: int)
    requires (forall j | j in l :: j < k) && (forall j | j in r :: k < j)
    ensures l.Keys !! r.Keys && k !in l && k !in r
  {
    forall j | j in l.Keys ensures j !in r.Keys {
    }
  }

  lemma {:induction false} SizeIsCount<V>(t: Tree<V>)
    requires Search(t)
    ensures Size(t) == |Contents(t)|
  {
    if t.Node? {
      SizeIsCount(t.left);
      SizeIsCount(t.right);
      Apart(Contents(t.left), Contents(t.right), t.key);
      JoinedCount(Contents(t.left), Contents(t.right), t.key, t.value);
    }
  }

  /** The tree is logarithmically high: 2^(height / 2) is at most size + 1. */
  lemma {:induction false} HeightLogarithmic<V>(t: Tree<V>)
    requires HeightsOk(t) && Balanced(t)
    ensures Pow2(Height(t) / 2) <= Size(t) + 1
  {
    if t.Node? {
      HeightLogarithmic(t.left);
      HeightLogarithmic(t.right);
      if t.height >= 2 { TwoLevels(t.height, Height(t.left), Height(t.right)); }
    }
  }

  /** Two subtrees at most two levels lower double what either guarantees. */
  lemma TwoLevels(height: nat, left: nat, right: nat)
    requires height >= 2 && left >= height - 2 && right >= height - 2
    ensures Pow2(height / 2) <= Pow2(left / 2) + Pow2(right / 2)
  {
    var low := (height - 2) / 2;
    Pow2Monotone(low, left / 2);
    Pow2Monotone(low, right / 2);
    assert height / 2 == low + 1;
  }

  // ---- what the queries return ----

  lemma ContentsSplit<V(!new)>(m: Monoid<V>, t: Tree<V>)
    requires IsCommutativeMonoid(m) && t.Node? && Search(t)
    ensures FoldMap(m, Contents(t)) == m.op(m.op(t.value, FoldMap(m, Contents(t.left))), FoldMap(m, Contents(t.right)))
  {
    var l, r := Contents(t.left), Contents(t.right);
    FoldMapTake(m, Contents(t), t.key);
    assert Contents(t) - {t.key} == l + r;
    FoldMapUnion(m, l, r);
    assert AssociatesAt(m, t.value, FoldMap(m, l), FoldMap(m, r));
  }

  /** Every stored result is the fold of its subtree's values. */
  lemma {:induction false} ResultIsFold<V(!new)>(m: Monoid<V>, t: Tree<V>)
    requires IsCommutativeMonoid(m) && Search(t) && ResultsOk(m, t)
    ensures FoldMap(m, Contents(t)) == if t.Node? then t.result else m.neutral
  {
    if t.Node? {
      ResultIsFold(m, t.left);
      ResultIsFold(m, t.right);
      ContentsSplit(m, t);
    }
  }

  /** Everything left of a key below the bound is below it. */
  lemma BelowKeepsLeft<V>(l: map<int, V>, k: int, v: V, r: map<int, V>, key: int, strict: bool)
    requires (forall j | j in l :: j < k) && (forall j | j in r :: k < j) && (if strict then k < key else k <= key)
    ensures var below := Below((l + r)[k := v], key, strict);
            k in below && below[k] == v && below - {k} == l + Below(r, key, strict)
  {
    var below := Below((l + r)[k := v], key, strict);
    SameMap(below - {k}, l + Below(r, key, strict));
  }

  /** Nothing right of a key beyond the bound is below it. */
  lemma BelowDropsRight<V>(l: map<int, V>, k: int, v: V, r: map<int, V>, key: int, strict: bool)
    requires (forall j | j in l :: j < k) && (forall j | j in r :: k < j) && !(if strict then k < key else k <= key)
    ensures Below((l + r)[k := v], key, strict) == Below(l, key, strict)
  {
    SameMap(Below((l + r)[k := v], key, strict), Below(l, key, strict));
  }

  lemma BelowSplit<V>(t: Tree<V>, key: int, strict: bool)
    requires t.Node? && Search(t)
    ensures if (if strict then t.key < key else t.key <= key)
            then t.key in Below(Contents(t), key, strict)
                 && Below(Contents(t), key, strict) - {t.key} == Contents(t.left) + Below(Contents(t.right), key, strict)
            else Below(Contents(t), key, strict) == Below(Contents(t.left), key, strict)
  {
    if (if strict then t.key < key else t.key <= key) {
      BelowKeepsLeft(Contents(t.left), t.key, t.value, Contents(t.right), key, strict);
    } else {
      BelowDropsRight(Contents(t.left), t.key, t.value, Contents(t.right), key, strict);
    }
  }

  lemma {:induction false} LessThanIsFold<V(!new)>(m: Monoid<V>, t: Tree<V>, key: int, strict: bool)
    requires IsCommutativeMonoid(m) && Search(t) && ResultsOk(m, t) && t.Node?
    ensures LessThan(m, t, key, strict) == FoldMap(m, Below(Contents(t), key, strict))
  {
    var l, r := Contents(t.left), Contents(t.right);
    if t.left.Node? { LessThanIsFold(m, t.left, key, strict); }
    if t.right.Node? { LessThanIsFold(m, t.right, key, strict); }
    BelowSplit(t, key, strict);
    if (strict && t.key < key) || (!strict && t.key <= key) {
      FoldMapTake(m, Below(Contents(t), key, strict), t.key);
      FoldMapUnion(m, l, Below(r, key, strict));
      ResultIsFold(m, t.left);
      assert AssociatesAt(m, t.value, FoldMap(m, l), FoldMap(m, Below(r, key, strict)));
    }
  }

  lemma {:induction false} GetIsLookup<V>(t: Tree<V>, key: int)
    requires Search(t)
    ensures GetValueIfExists(t, key) == if key in Contents(t) then Some(Contents(t)[key]) else None
  {
    if t.Node? {
      GetIsLookup(t.left, key);
      GetIsLookup(t.right, key);
    }
  }

  // ---- the map itself ----

  class AssociativeMap<V(!new)> {
    const m: Monoid<V>
    var root: Tree<V>

    ghost predicate Valid()
      reads this
    {
      Ok(m, root)
    }

    ghost function Values(): map<int, V>
      reads this
    {
      Contents(root)
    }

    constructor (m: Monoid<V>)
      ensures Valid() && Values() == map[] && this.m == m
    {
      this.m, root := m, Nil;
    }

    method Update(key: int, value: V)
      requires Valid()
      modifies this
      ensures Valid() && Values() == old(Values())[key := value]
    {
      InsertKeeps(m, root, key, value);
      root := InsertOrUpdate(m, root, key, value).0;
    }

    method Remove(key: int)
      requires Valid()
      modifies this
      ensures Valid() && Values() == old(Values()) - {key}
    {
      RemoveKeeps(m, root, key);
      root := RemoveKey(m, root, key);
    }

    method Clear()
      modifies this
      ensures Valid() && Values() == map[]
    {
      root := Nil;
    }

    method Get(key: int) returns (r: Option<V>)
      requires Valid()
      ensures r == if key in Values() then Some(Values()[key]) else None
    {
      GetIsLookup(root, key);
      r := GetValueIfExists(root, key);
    }

    method Query() returns (r: V)
      requires Valid()
      ensures IsCommutativeMonoid(m) ==> r == FoldMap(m, Values())
    {
      if IsCommutativeMonoid(m) { ResultIsFold(m, root); }
      r := if root.Nil? then m.neutral else root.result;
    }

    /** query_lt when `strict`, query_le otherwise. */
    method QueryBelow(key: int, strict: bool) returns (r: V)
      requires Valid()
      ensures IsCommutativeMonoid(m) ==> r == FoldMap(m, Below(Values(), key, strict))
    {
      if IsCommutativeMonoid(m) && root.Node? { LessThanIsFold(m, root, key, strict); }
      if root.Nil? {
        assert Below(Values(), key, strict) == map[];
        return m.neutral;
      }
      r := LessThan(m, root, key, strict);
    }
  }
}
