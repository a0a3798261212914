/** AccessOrderedFastSet and AccessOrderedSortedSet: sets whose iterations resume
    where the last one stopped. */
module AccessOrderedSets {
  import opened CircularQueue
  import opened Collections
  import opened Options

  /** A container node. Iterators stay valid while their node lives, so an
      iterator is a node's identity. */
  datatype Node<T> = Node(id: nat, element: T)

  ghost predicate NodesOk<T>(nodes: seq<Node<T>>) {
    forall i, j | 0 <= i < j < |nodes| :: nodes[i].id != nodes[j].id && nodes[i].element != nodes[j].element
  }

  predicate Live<T>(nodes: seq<Node<T>>, id: nat) {
    exists i | 0 <= i < |nodes| :: nodes[i].id == id
  }

  function Position<T>(nodes: seq<Node<T>>, id: nat): (i: nat)
    requires Live(nodes, id)
    ensures i < |nodes| && nodes[i].id == id
  {
    if nodes[0].id == id then 0
    else
      var i :| 0 < i < |nodes| && nodes[i].id == id;
      assert nodes[1..][i - 1].id == id;
      1 + Position(nodes[1..], id)
  }

  function Elements<T>(nodes: seq<Node<T>>): (r: seq<T>)
    ensures |r| == |nodes| && forall i | 0 <= i < |r| :: r[i] == nodes[i].element
  {
    seq(|nodes|, i requires 0 <= i < |nodes| => nodes[i].element)
  }

  /** The elements in the order the next iteration reaches them. */
  function Upcoming<T>(nodes: seq<Node<T>>, curr: Option<nat>): seq<T>
    requires curr.Some? ==> Live(nodes, curr.value)
  {
    if curr.None? then [] else Rotated(Elements(nodes), Position(nodes, curr.value))
  }

  lemma PositionUnique<T>(nodes: seq<Node<T>>, i: nat)
    requires NodesOk(nodes) && i < |nodes|
    ensures Live(nodes, nodes[i].id) && Position(nodes, nodes[i].id) == i
  {
    assert Live(nodes, nodes[i].id);
    var p := Position(nodes, nodes[i].id);
  }

  /** The resume position is a live element whenever there is one. */
  ghost predicate SetOk<T>(nodes: seq<Node<T>>, curr: Option<nat>) {
    && NodesOk(nodes)
    && (curr.None? <==> nodes == [])
    && (curr.Some? ==> Live(nodes, curr.value))
  }

  function Begin<T>(nodes: seq<Node<T>>): Option<nat> {
    if nodes == [] then None else Some(nodes[0].id)
  }

  /** The iterator after the one at `id`; None is the end. */
  function Next<T>(nodes: seq<Node<T>>, id: nat): Option<nat>
    requires Live(nodes, id)
  {
    var i := Position(nodes, id) + 1;
    if i < |nodes| then Some(nodes[i].id) else None
  }

  function BeforeErase<T>(nodes: seq<Node<T>>, curr: Option<nat>, erased: nat): Option<nat>
    requires Live(nodes, erased)
  {
    if curr == Some(erased) then
      var next := Next(nodes, erased);
      if next.None? && |nodes| >= 2 then Begin(nodes) else next
    else curr
  }

  function Erased<T>(nodes: seq<Node<T>>, id: nat): seq<Node<T>>
    requires Live(nodes, id)
  {
    var i := Position(nodes, id);
    nodes[..i] + nodes[i + 1..]
  }

  // Erasing

  /** A sequence without its element at `i`. */
  function DropAt<T>(s: seq<T>, i: nat): (r: seq<T>)
    requires i < |s|
    ensures |r| == |s| - 1 && forall j | 0 <= j < |r| :: r[j] == s[if j < i then j else j + 1]
  {
    s[..i] + s[i + 1..]
  }

  lemma ErasedIsDrop<T>(nodes: seq<Node<T>>, i: nat)
    requires NodesOk(nodes) && i < |nodes|
    ensures Live(nodes, nodes[i].id) && Erased(nodes, nodes[i].id) == DropAt(nodes, i)
  {
    PositionUnique(nodes, i);
  }

  lemma ErasedElements<T>(nodes: seq<Node<T>>, i: nat)
    requires NodesOk(nodes) && i < |nodes|
    ensures Live(nodes, nodes[i].id) && NodesOk(Erased(nodes, nodes[i].id))
    ensures Elements(Erased(nodes, nodes[i].id)) == DropAt(Elements(nodes), i)
  {
    ErasedIsDrop(nodes, i);
    var r := DropAt(nodes, i);
    forall j, k | 0 <= j < k < |r| ensures r[j].id != r[k].id && r[j].element != r[k].element {
      var j', k' := if j < i then j else j + 1, if k < i then k else k + 1;
      assert r[j] == nodes[j'] && r[k] == nodes[k'];
    }
    assert Elements(r) == DropAt(Elements(nodes), i);
  }

  /** Where the resume position is after an erase. */
  function NewPosition(p: nat, i: nat, n: nat): nat
    requires p < n && i < n
  {
    if p < i then p else if p > i then p - 1 else if i + 1 < n then i else 0
  }

  lemma ErasePosition<T>(nodes: seq<Node<T>>, curr: Option<nat>, i: nat)
    requires SetOk(nodes, curr) && i < |nodes| && |nodes| >= 2
    ensures Live(nodes, nodes[i].id)
    ensures var at := NewPosition(Position(nodes, curr.value), i, |nodes|);
            at < |nodes| - 1 && BeforeErase(nodes, curr, nodes[i].id) == Some(Erased(nodes, nodes[i].id)[at].id)
  {
    ErasedIsDrop(nodes, i);
    PositionUnique(nodes, i);
    var p := Position(nodes, curr.value);
    if p == i {
      assert Next(nodes, nodes[i].id) == if i + 1 < |nodes| then Some(nodes[i + 1].id) else None;
    } else {
      assert nodes[p].id != nodes[i].id;
    }
  }

  lemma EraseKeepsLive<T>(nodes: seq<Node<T>>, curr: Option<nat>, i: nat)
    requires SetOk(nodes, curr) && i < |nodes|
    ensures Live(nodes, nodes[i].id) && SetOk(Erased(nodes, nodes[i].id), BeforeErase(nodes, curr, nodes[i].id))
    ensures |nodes| >= 2 ==>
              Position(Erased(nodes, nodes[i].id), BeforeErase(nodes, curr, nodes[i].id).value)
              == NewPosition(Position(nodes, curr.value), i, |nodes|)
  {
    ErasedElements(nodes, i);
    ErasedIsDrop(nodes, i);
    if |nodes| >= 2 {
      ErasePosition(nodes, curr, i);
      PositionUnique(DropAt(nodes, i), NewPosition(Position(nodes, curr.value), i, |nodes|));
    } else {
      PositionUnique(nodes, i);
    }
  }

  lemma {:induction false} WithoutAt<T>(s: seq<T>, i: nat)
    requires NoRepeats(s) && i < |s|
    ensures Without(s, s[i]) == DropAt(s, i)
    decreases |s|
  {
    if i == 0 {
      WithoutAbsent(s[1..], s[0]);
      assert Without(s, s[0]) == s[1..];
    } else {
      WithoutAt(s[1..], i - 1);
      assert DropAt(s, i) == [s[0]] + DropAt(s[1..], i - 1);
    }
  }

  /** The place in the rotation of the element at `i`. */
  function PlaceInRotation(p: nat, i: nat, n: nat): nat
    requires p < n && i < n
  {
    if i >= p then i - p else n - p + i
  }

  lemma RotateErased<T>(s: seq<T>, p: nat, i: nat)
    requires p < |s| && i < |s| && |s| >= 2
    ensures Rotated(DropAt(s, i), NewPosition(p, i, |s|)) == DropAt(Rotated(s, p), PlaceInRotation(p, i, |s|))
  {
    var l, r := Rotated(DropAt(s, i), NewPosition(p, i, |s|)), DropAt(Rotated(s, p), PlaceInRotation(p, i, |s|));
    assert |l| == |r| == |s| - 1;
    forall k | 0 <= k < |l| ensures l[k] == r[k] {
      RotatedAt(DropAt(s, i), NewPosition(p, i, |s|), k);
      RotatedAt(s, p, if k < PlaceInRotation(p, i, |s|) then k else k + 1);
    }
  }

  lemma RotatedAt<T>(s: seq<T>, p: nat, k: nat)
    requires p <= |s| && k < |s|
    ensures Rotated(s, p)[k] == s[if p + k < |s| then p + k else p + k - |s|]
  {
  }

  /** Erasing takes the element out of the upcoming order and changes nothing
      else; erasing the next element moves on to the one after it. */
  lemma EraseUpcoming<T>(nodes: seq<Node<T>>, curr: Option<nat>, i: nat)
    requires SetOk(nodes, curr) && i < |nodes|
    ensures Live(nodes, nodes[i].id) && SetOk(Erased(nodes, nodes[i].id), BeforeErase(nodes, curr, nodes[i].id))
    ensures Upcoming(Erased(nodes, nodes[i].id), BeforeErase(nodes, curr, nodes[i].id))
            == Without(Upcoming(nodes, curr), nodes[i].element)
  {
    EraseKeepsLive(nodes, curr, i);
    ErasedElements(nodes, i);
    var s, p := Elements(nodes), Position(nodes, curr.value);
    RotationWithout(s, p, i);
    if |nodes| >= 2 {
      RotateErased(s, p, i);
    } else {
      ErasedIsDrop(nodes, i);
      PositionUnique(nodes, i);
    }
  }

  lemma RotationWithout<T>(s: seq<T>, p: nat, i: nat)
    requires NoRepeats(s) && p < |s| && i < |s|
    ensures Without(Rotated(s, p), s[i]) == DropAt(Rotated(s, p), PlaceInRotation(p, i, |s|))
  {
    var q, j := Rotated(s, p), PlaceInRotation(p, i, |s|);
    RotatedAt(s, p, j);
    forall a, b | 0 <= a < b < |q| ensures q[a] != q[b] {
      RotatedAt(s, p, a);
      RotatedAt(s, p, b);
    }
    WithoutAt(q, j);
  }

  // Iterating

  datatype Iterator = Iterator(inner: Option<nat>, remaining: nat, wasIncremented: bool)

  function Increment<T>(nodes: seq<Node<T>>, it: Iterator): Iterator
    requires it.inner.Some? && Live(nodes, it.inner.value) && it.remaining > 0
  {
    var next := Next(nodes, it.inner.value);
    Iterator(if next.None? then Begin(nodes) else next, it.remaining - 1, true)
  }

  /** The place `k` steps after position `p`. */
  function Around(p: nat, k: nat, n: nat): nat
    requires p < n && k <= n
  {
    if p + k < n then p + k else p + k - n
  }

  /** The iterator that started at position `p` has been incremented `k` times. */
  ghost predicate Walked<T>(nodes: seq<Node<T>>, it: Iterator, p: nat, k: nat)
    requires p < |nodes| && k <= |nodes|
  {
    it == Iterator(Some(nodes[Around(p, k, |nodes|)].id), |nodes| - k, k > 0)
  }

  lemma WalkStep<T>(nodes: seq<Node<T>>, it: Iterator, p: nat, k: nat)
    requires NodesOk(nodes) && p < |nodes| && k < |nodes| && Walked(nodes, it, p, k)
    ensures Live(nodes, it.inner.value) && Walked(nodes, Increment(nodes, it), p, k + 1)
    ensures nodes[Position(nodes, it.inner.value)].element == Rotated(Elements(nodes), p)[k]
  {
    PositionUnique(nodes, Around(p, k, |nodes|));
  }

  lemma TakeNext<T>(q: seq<T>, i: nat)
    requires i < |q|
    ensures q[..i + 1] == q[..i] + [q[i]]
  {
  }

  /** One dereference and increment: the next element of the rotation. */
  lemma WalkTakes<T>(nodes: seq<Node<T>>, it: Iterator, p: nat, k: nat, visited: seq<T>)
    requires NodesOk(nodes) && p < |nodes| && k < |nodes| && Walked(nodes, it, p, k)
    requires visited == Rotated(Elements(nodes), p)[..k]
    ensures Live(nodes, it.inner.value) && Walked(nodes, Increment(nodes, it), p, k + 1)
    ensures visited + [nodes[Position(nodes, it.inner.value)].element] == Rotated(Elements(nodes), p)[..k + 1]
  {
    WalkStep(nodes, it, p, k);
    TakeNext(Rotated(Elements(nodes), p), k);
  }

  class AccessOrderedSetBase<T(==)> {
    var nodes: seq<Node<T>>
    var currIter: Option<nat>
    var nextId: nat

    ghost predicate Valid()
      reads this
    {
      SetOk(nodes, currIter) && forall n | n in nodes :: n.id < nextId
    }

    ghost function Queue(): seq<T>
      requires Valid()
      reads this
    {
      Upcoming(nodes, currIter)
    }

    constructor ()
      ensures Valid() && nodes == []
    {
      nodes, currIter, nextId := [], None, 0;
    }

    method SetCurrIterToBegin()
      requires NodesOk(nodes) && forall n | n in nodes :: n.id < nextId
      modifies this`currIter
      ensures Valid() && Queue() == Elements(nodes)
    {
      currIter := Begin(nodes);
      if nodes != [] {
        PositionUnique(nodes, 0);
        assert Rotated(Elements(nodes), 0) == Elements(nodes);
      }
    }

    /** Called with the iterator that `find` returned. */
    method Erase(id: nat)
      requires Valid() && Live(nodes, id)
      modifies this
      ensures Valid() && nodes == Erased(old(nodes), id) && nextId == old(nextId)
      ensures Queue() == Without(old(Queue()), old(nodes[Position(nodes, id)].element))
    {
      EraseUpcoming(nodes, currIter, Position(nodes, id));
      currIter := BeforeErase(nodes, currIter, id);
      nodes := Erased(nodes, id);
    }

    /** Dereferences and increments an iterator `k` times. */
    method Walk(k: nat) returns (visited: seq<T>, it: Iterator)
      requires Valid() && nodes != [] && k <= |nodes|
      ensures Walked(nodes, it, Position(nodes, currIter.value), k)
      ensures visited == Queue()[..k]
    {
      it := Iterator(currIter, |nodes|, false);
      visited := [];
      ghost var p := Position(nodes, currIter.value);
      for i := 0 to k
        invariant Walked(nodes, it, p, i) && visited == Rotated(Elements(nodes), p)[..i]
      {
        WalkTakes(nodes, it, p, i, visited);
        visited := visited + [nodes[Position(nodes, it.inner.value)].element];
        it := Increment(nodes, it);
      }
    }

    /** An iteration that stops after `k` increments: it yields the next `k`
        elements in circular order, and the rest come up first next time. The
        destructor of a finished iterator leaves the resume position alone. */
    method Iterate(k: nat) returns (visited: seq<T>)
      requires Valid() && k <= |nodes|
      modifies this`currIter
      ensures Valid() && visited == old(Queue())[..k] && Queue() == Rotated(old(Queue()), k)
    {
      if k == 0 {
        return [];
      }
      var it;
      visited, it := Walk(k);
      Finish(it, k);
    }

    /** A loop body that breaks at element `k`: that element was read but not passed,
        so it comes up first next time. */
    method IterateUntilBreak(k: nat) returns (visited: seq<T>)
      requires Valid() && k < |nodes|
      modifies this`currIter
      ensures Valid() && visited == old(Queue())[..k + 1] && Queue() == Rotated(old(Queue()), k)
      ensures Queue()[0] == visited[k]
    {
      var it;
      visited, it := Walk(k);
      WalkTakes(nodes, it, Position(nodes, currIter.value), k, visited);
      visited := visited + [nodes[Position(nodes, it.inner.value)].element];
      Finish(it, k);
    }

    /** The destructor of an iterator that was incremented `k` times. */
    method Finish(it: Iterator, ghost k: nat)
      requires Valid() && nodes != [] && k <= |nodes| && Walked(nodes, it, Position(nodes, currIter.value), k)
      modifies this`currIter
      ensures Valid() && Queue() == Rotated(old(Queue()), k)
    {
      ghost var p := Position(nodes, currIter.value);
      PositionUnique(nodes, Around(p, k, |nodes|));
      RotateAround(Elements(nodes), p, k);
      if it.wasIncremented && it.remaining > 0 {
        currIter := it.inner;
      }
    }

    /** A full iteration yields every element exactly once. */
    lemma FullIteration()
      requires Valid()
      ensures |Queue()| == |nodes| && NoRepeats(Queue()) && forall x: T :: x in Queue() <==> x in Elements(nodes)
    {
      if nodes != [] {
        var s, p := Elements(nodes), Position(nodes, currIter.value);
        assert s == s[..p] + s[p..];
      }
    }
  }

  lemma RotateAround<T>(s: seq<T>, p: nat, k: nat)
    requires p < |s| && k <= |s|
    ensures Rotated(Rotated(s, p), k) == Rotated(s, Around(p, k, |s|))
    ensures forall j | 0 <= j < k :: Rotated(s, p)[j] == s[Around(p, j, |s|)]
  {
  }

  lemma ErasedIsWithout<T>(nodes: seq<Node<T>>, i: nat)
    requires NodesOk(nodes) && i < |nodes|
    ensures Live(nodes, nodes[i].id) && Elements(Erased(nodes, nodes[i].id)) == Without(Elements(nodes), nodes[i].element)
  {
    ErasedElements(nodes, i);
    WithoutAt(Elements(nodes), i);
  }

  // The insertion-ordered set

  /** The hash index holds exactly the listed elements, each with its own node. */
  ghost predicate Indexes<T>(index: map<T, nat>, nodes: seq<Node<T>>) {
    && (forall i | 0 <= i < |nodes| :: nodes[i].element in index && index[nodes[i].element] == nodes[i].id)
    && (forall e | e in index :: exists i | 0 <= i < |nodes| :: nodes[i].element == e)
  }

  lemma IndexAdd<T>(index: map<T, nat>, nodes: seq<Node<T>>, node: Node<T>)
    requires Indexes(index, nodes) && NodesOk(nodes) && node.element !in index
    ensures Indexes(index[node.element := node.id], nodes + [node])
  {
    var nodes', index' := nodes + [node], index[node.element := node.id];
    assert nodes'[|nodes|] == node;
    forall e | e in index' ensures exists i | 0 <= i < |nodes'| :: nodes'[i].element == e {
      if e != node.element {
        var i :| 0 <= i < |nodes| && nodes[i].element == e;
        assert nodes'[i].element == e;
      }
    }
  }

  lemma IndexErase<T>(index: map<T, nat>, nodes: seq<Node<T>>, e: T)
    requires Indexes(index, nodes) && NodesOk(nodes) && e in index
    ensures Live(nodes, index[e]) && nodes[Position(nodes, index[e])].element == e
    ensures Indexes(index - {e}, Erased(nodes, index[e]))
  {
    var i :| 0 <= i < |nodes| && nodes[i].element == e;
    PositionUnique(nodes, i);
    ErasedIsDrop(nodes, i);
    IndexDrop(index, nodes, i);
  }

  lemma IndexDrop<T>(index: map<T, nat>, nodes: seq<Node<T>>, i: nat)
    requires Indexes(index, nodes) && NodesOk(nodes) && i < |nodes|
    ensures Indexes(index - {nodes[i].element}, DropAt(nodes, i))
  {
    var index', nodes' := index - {nodes[i].element}, DropAt(nodes, i);
    forall j | 0 <= j < |nodes'| ensures nodes'[j].element in index' && index'[nodes'[j].element] == nodes'[j].id {
      var j' := if j < i then j else j + 1;
      assert nodes'[j] == nodes[j'];
    }
    forall f | f in index' ensures exists j | 0 <= j < |nodes'| :: nodes'[j].element == f {
      var j :| 0 <= j < |nodes| && nodes[j].element == f;
      assert nodes'[if j < i then j else j - 1] == nodes[j];
    }
  }

  lemma AppendKeepsNodes<T>(nodes: seq<Node<T>>, node: Node<T>)
    requires NodesOk(nodes) && node.element !in Elements(nodes) && forall i | 0 <= i < |nodes| :: nodes[i].id != node.id
    ensures NodesOk(nodes + [node]) && Elements(nodes + [node]) == Elements(nodes) + [node.element]
  {
    forall i | 0 <= i < |nodes| ensures nodes[i].element != node.element {
      assert Elements(nodes)[i] in Elements(nodes);
    }
  }

  lemma RotateAppended<T>(s: seq<T>, x: T, p: nat)
    requires p <= |s|
    ensures var q := Rotated(s, p); Rotated(s + [x], p) == q[..|s| - p] + [x] + q[|s| - p..]
    ensures forall y :: y in Rotated(s, p) <==> y in s
  {
    assert s == s[..p] + s[p..];
    assert (s + [x])[p..] == s[p..] + [x] && (s + [x])[..p] == s[..p];
    assert Rotated(s, p)[..|s| - p] == s[p..] && Rotated(s, p)[|s| - p..] == s[..p];
  }

  /** The resume position once a node is appended. */
  function AfterAppend<T>(nodes: seq<Node<T>>, curr: Option<nat>, node: Node<T>): Option<nat> {
    if nodes == [] then Some(node.id) else curr
  }

  /** A node appended to the list joins the upcoming order at the list's end. */
  lemma AppendUpcoming<T>(nodes: seq<Node<T>>, curr: Option<nat>, node: Node<T>) returns (place: nat)
    requires SetOk(nodes, curr) && node.element !in Elements(nodes)
    requires forall i | 0 <= i < |nodes| :: nodes[i].id != node.id
    ensures SetOk(nodes + [node], AfterAppend(nodes, curr, node))
    ensures Possible(Upcoming(nodes, curr), Event<T>.Join(node.element, place))
    ensures Upcoming(nodes + [node], AfterAppend(nodes, curr, node))
            == Apply(Upcoming(nodes, curr), Event<T>.Join(node.element, place))
  {
    AppendKeepsNodes(nodes, node);
    var nodes', p := nodes + [node], if nodes == [] then 0 else Position(nodes, curr.value);
    place := |nodes| - p;
    assert nodes'[p].id == AfterAppend(nodes, curr, node).value;
    PositionUnique(nodes', p);
    RotateAppended(Elements(nodes), node.element, p);
    assert Upcoming(nodes, curr) == Rotated(Elements(nodes), p);
  }

  class AccessOrderedFastSet<T(==)> {
    const base: AccessOrderedSetBase<T>
    var elementToIterator: map<T, nat>

    ghost predicate Valid()
      reads this, base
    {
      base.Valid() && Indexes(elementToIterator, base.nodes)
    }

    constructor ()
      ensures Valid() && fresh(base) && base.nodes == []
    {
      base := new AccessOrderedSetBase();
      elementToIterator := map[];
    }

    method Contains(element: T) returns (r: bool)
      requires Valid()
      ensures r <==> element in Elements(base.nodes)
    {
      if element in elementToIterator {
        ghost var i :| 0 <= i < |base.nodes| && base.nodes[i].element == element;
        assert Elements(base.nodes)[i] == element;
      }
      r := element in elementToIterator;
    }

    /** Keeps insertion order; the running circular order only gains the element. */
    method Insert(element: T) returns (ghost place: nat)
      requires Valid()
      modifies this, base
      ensures Valid()
      ensures element in old(Elements(base.nodes)) ==> Elements(base.nodes) == old(Elements(base.nodes)) && base.Queue() == old(base.Queue())
      ensures element !in old(Elements(base.nodes)) ==>
                && Elements(base.nodes) == old(Elements(base.nodes)) + [element]
                && Possible(old(base.Queue()), Event<T>.Join(element, place))
                && base.Queue() == Apply(old(base.Queue()), Event<T>.Join(element, place))
    {
      place := 0;
      var found := Contains(element);
      if found {
        return;
      }
      place := AppendNode(element);
    }

    method AppendNode(element: T) returns (ghost place: nat)
      requires Valid() && element !in Elements(base.nodes)
      modifies this, base
      ensures Valid() && Elements(base.nodes) == old(Elements(base.nodes)) + [element]
      ensures Possible(old(base.Queue()), Event<T>.Join(element, place))
      ensures base.Queue() == Apply(old(base.Queue()), Event<T>.Join(element, place))
    {
      var node := Node(base.nextId, element);
      NewNode(element);
      IndexAdd(elementToIterator, base.nodes, node);
      AppendKeepsNodes(base.nodes, node);
      place := AppendUpcoming(base.nodes, base.currIter, node);
      base.nodes := base.nodes + [node];
      base.nextId := base.nextId + 1;
      elementToIterator := elementToIterator[element := node.id];
      if |base.nodes| == 1 {
        base.SetCurrIterToBegin();
      }
    }

    lemma NewNode(element: T)
      requires Valid() && element !in Elements(base.nodes)
      ensures element !in elementToIterator
      ensures forall i | 0 <= i < |base.nodes| :: base.nodes[i].id != base.nextId
    {
      forall i | 0 <= i < |base.nodes| ensures base.nodes[i].id != base.nextId && base.nodes[i].element != element {
        assert base.nodes[i] in base.nodes && Elements(base.nodes)[i] in Elements(base.nodes);
      }
    }

    method Erase(element: T)
      requires Valid()
      modifies this, base
      ensures Valid() && base.Queue() == Without(old(base.Queue()), element)
      ensures Elements(base.nodes) == Without(old(Elements(base.nodes)), element)
    {
      if element !in elementToIterator {
        NothingToErase(element);
        return;
      }
      var id := elementToIterator[element];
      IndexErase(elementToIterator, base.nodes, element);
      ErasedIsWithout(base.nodes, Position(base.nodes, id));
      base.Erase(id);
      elementToIterator := elementToIterator - {element};
    }

    lemma NothingToErase(element: T)
      requires Valid() && element !in elementToIterator
      ensures base.Queue() == Without(base.Queue(), element)
      ensures Elements(base.nodes) == Without(Elements(base.nodes), element)
    {
      base.FullIteration();
      assert element !in Elements(base.nodes);
      WithoutAbsent(base.Queue(), element);
      WithoutAbsent(Elements(base.nodes), element);
    }
  }

  // The sorted set

  ghost predicate StrictOrder<T(!new)>(less: (T, T) -> bool) {
    (forall x :: !less(x, x)) && forall x, y, z | less(x, y) && less(y, z) :: less(x, z)
  }

  /** A comparator for std::set. */
  ghost predicate StrictWeak<T(!new)>(less: (T, T) -> bool) {
    && StrictOrder(less)
    && (forall x, y, z | Equivalent(less, x, y) && Equivalent(less, y, z) :: Equivalent(less, x, z))
  }

  predicate Equivalent<T>(less: (T, T) -> bool, x: T, y: T) {
    !less(x, y) && !less(y, x)
  }

  ghost predicate SortedBy<T>(less: (T, T) -> bool, s: seq<T>) {
    forall i, j | 0 <= i < j < |s| :: less(s[i], s[j])
  }

  /** Where a sorted insertion puts `x`. */
  function LowerBound<T>(less: (T, T) -> bool, nodes: seq<Node<T>>, x: T): (i: nat)
    ensures i <= |nodes| && (forall j | 0 <= j < i :: less(nodes[j].element, x))
    ensures i < |nodes| ==> !less(nodes[i].element, x)
  {
    if nodes == [] || !less(nodes[0].element, x) then 0 else 1 + LowerBound(less, nodes[1..], x)
  }

  /** A sequence with one more element at `i`. */
  function InsertAt<T>(s: seq<T>, i: nat, x: T): (r: seq<T>)
    requires i <= |s|
    ensures |r| == |s| + 1 && forall j | 0 <= j < |r| :: r[j] == if j < i then s[j] else if j == i then x else s[j - 1]
  {
    s[..i] + [x] + s[i..]
  }

  lemma InsertSorted<T(!new)>(less: (T, T) -> bool, s: seq<T>, x: T, i: nat)
    requires StrictOrder(less) && SortedBy(less, s) && i <= |s|
    requires (forall j | 0 <= j < i :: less(s[j], x)) && (i < |s| ==> less(x, s[i]))
    ensures SortedBy(less, InsertAt(s, i, x))
  {
    var s' := InsertAt(s, i, x);
    forall j | i <= j < |s| ensures less(x, s[j]) {
      if j > i { assert less(s[i], s[j]); }
    }
    forall j, k | 0 <= j < k < |s'| ensures less(s'[j], s'[k]) {
      if j == i {
        assert s'[k] == s[k - 1];
      } else if k != i {
        var j', k' := if j < i then j else j - 1, if k < i then k else k - 1;
        assert less(s[j'], s[k']);
      }
    }
  }

  lemma InsertElements<T>(nodes: seq<Node<T>>, node: Node<T>, i: nat)
    requires i <= |nodes|
    ensures Elements(InsertAt(nodes, i, node)) == InsertAt(Elements(nodes), i, node.element)
  {
  }

  lemma InsertKeepsNodes<T>(nodes: seq<Node<T>>, node: Node<T>, i: nat)
    requires NodesOk(nodes) && i <= |nodes|
    requires forall j | 0 <= j < |nodes| :: nodes[j].id != node.id && nodes[j].element != node.element
    ensures NodesOk(InsertAt(nodes, i, node))
  {
    var nodes' := InsertAt(nodes, i, node);
    forall j, k | 0 <= j < k < |nodes'| ensures nodes'[j].id != nodes'[k].id && nodes'[j].element != nodes'[k].element {
      var j', k' := if j < i then j else j - 1, if k < i then k else k - 1;
      if j != i && k != i {
        assert nodes'[j] == nodes[j'] && nodes'[k] == nodes[k'];
      }
    }
  }

  /** No stored element is equivalent to the new one. */
  ghost predicate Newcomer<T>(less: (T, T) -> bool, nodes: seq<Node<T>>, node: Node<T>) {
    forall i | 0 <= i < |nodes| :: nodes[i].id != node.id && !Equivalent(less, nodes[i].element, node.element)
  }

  lemma NewcomerDiffers<T(!new)>(less: (T, T) -> bool, nodes: seq<Node<T>>, node: Node<T>)
    requires StrictOrder(less) && Newcomer(less, nodes, node)
    ensures forall i | 0 <= i < |nodes| :: nodes[i].id != node.id && nodes[i].element != node.element
    ensures var i := LowerBound(less, nodes, node.element); i < |nodes| ==> less(node.element, nodes[i].element)
  {
  }

  lemma InsertNodes<T(!new)>(less: (T, T) -> bool, nodes: seq<Node<T>>, node: Node<T>)
    requires StrictOrder(less) && SortedBy(less, Elements(nodes)) && NodesOk(nodes) && Newcomer(less, nodes, node)
    ensures var nodes' := InsertAt(nodes, LowerBound(less, nodes, node.element), node);
            && NodesOk(nodes') && SortedBy(less, Elements(nodes'))
            && Elements(nodes') == InsertAt(Elements(nodes), LowerBound(less, nodes, node.element), node.element)
  {
    var i := LowerBound(less, nodes, node.element);
    NewcomerDiffers(less, nodes, node);
    InsertElements(nodes, node, i);
    InsertSorted(less, Elements(nodes), node.element, i);
    InsertKeepsNodes(nodes, node, i);
  }

  lemma SplitCount<T>(s: seq<T>, x: T, i: nat)
    requires i <= |s|
    ensures multiset(InsertAt(s, i, x)) == multiset(s) + multiset{x}
  {
    assert s == s[..i] + s[i..];
    assert InsertAt(s, i, x) == s[..i] + [x] + s[i..];
  }

  lemma ErasedSorted<T>(less: (T, T) -> bool, nodes: seq<Node<T>>, i: nat)
    requires NodesOk(nodes) && i < |nodes| && SortedBy(less, Elements(nodes))
    ensures Live(nodes, nodes[i].id) && SortedBy(less, Elements(Erased(nodes, nodes[i].id)))
  {
    ErasedElements(nodes, i);
    var s := Elements(nodes);
    var s' := DropAt(s, i);
    forall j, k | 0 <= j < k < |s'| ensures less(s'[j], s'[k]) {
      var j', k' := if j < i then j else j + 1, if k < i then k else k + 1;
      assert less(s[j'], s[k']);
    }
  }

  class AccessOrderedSortedSet<T(==, !new)> {
    const base: AccessOrderedSetBase<T>
    const less: (T, T) -> bool

    ghost predicate Valid()
      reads this, base
    {
      base.Valid() && StrictWeak(less) && SortedBy(less, Elements(base.nodes))
    }

    constructor (less: (T, T) -> bool)
      requires StrictWeak(less)
      ensures Valid() && fresh(base) && base.nodes == [] && this.less == less
    {
      base := new AccessOrderedSetBase();
      this.less := less;
    }

    /** The position of an equivalent element, or the number of elements. */
    method Find(element: T) returns (i: nat)
      requires Valid()
      ensures i <= |base.nodes|
      ensures i < |base.nodes| ==> Equivalent(less, base.nodes[i].element, element)
      ensures i == |base.nodes| ==> forall j | 0 <= j < |base.nodes| :: !Equivalent(less, base.nodes[j].element, element)
    {
      i := LowerBound(less, base.nodes, element);
      if i < |base.nodes| && less(element, base.nodes[i].element) {
        forall j | 0 <= j < |base.nodes| ensures !Equivalent(less, base.nodes[j].element, element) {
          if j > i { assert less(Elements(base.nodes)[i], Elements(base.nodes)[j]); }
        }
        i := |base.nodes|;
      }
    }

    /** An insertion keeps the order and restarts the iteration from the beginning. */
    method Insert(element: T) returns (inserted: bool)
      requires Valid()
      modifies base
      ensures Valid()
      ensures inserted <==> forall x | x in old(Elements(base.nodes)) :: !Equivalent(less, x, element)
      ensures !inserted ==> Elements(base.nodes) == old(Elements(base.nodes)) && base.Queue() == old(base.Queue())
      ensures inserted ==> multiset(Elements(base.nodes)) == multiset(old(Elements(base.nodes))) + multiset{element}
      ensures inserted ==> base.Queue() == Elements(base.nodes)
    {
      var at := Find(element);
      if at < |base.nodes| {
        assert Elements(base.nodes)[at] in Elements(base.nodes);
        return false;
      }
      InsertNode(element);
      inserted := true;
    }

    method InsertNode(element: T)
      requires Valid() && forall j | 0 <= j < |base.nodes| :: !Equivalent(less, base.nodes[j].element, element)
      modifies base
      ensures Valid() && multiset(Elements(base.nodes)) == multiset(old(Elements(base.nodes))) + multiset{element}
      ensures base.Queue() == Elements(base.nodes)
    {
      var i, node := LowerBound(less, base.nodes, element), Node(base.nextId, element);
      forall j | 0 <= j < |base.nodes| ensures base.nodes[j].id != node.id {
        assert base.nodes[j] in base.nodes;
      }
      assert Newcomer(less, base.nodes, node);
      InsertNodes(less, base.nodes, node);
      SplitCount(Elements(base.nodes), element, i);
      base.nodes := InsertAt(base.nodes, i, node);
      base.nextId := base.nextId + 1;
      base.SetCurrIterToBegin();
    }

    /** Takes out the equivalent element, if there is one, and nothing else. */
    method Erase(element: T)
      requires Valid()
      modifies base
      ensures Valid()
      ensures forall x | x in old(Elements(base.nodes)) && Equivalent(less, x, element) ::
                base.Queue() == Without(old(base.Queue()), x) && Elements(base.nodes) == Without(old(Elements(base.nodes)), x)
      ensures (forall x | x in old(Elements(base.nodes)) :: !Equivalent(less, x, element)) ==>
                base.Queue() == old(base.Queue()) && base.nodes == old(base.nodes)
    {
      var i := Find(element);
      if i == |base.nodes| {
        return;
      }
      OnlyOne(element, i);
      PositionUnique(base.nodes, i);
      ErasedSorted(less, base.nodes, i);
      ErasedIsWithout(base.nodes, i);
      assert Elements(base.nodes)[i] in Elements(base.nodes);
      base.Erase(base.nodes[i].id);
    }

    lemma OnlyOne(element: T, i: nat)
      requires Valid() && i < |base.nodes| && Equivalent(less, base.nodes[i].element, element)
      ensures forall x | x in Elements(base.nodes) && Equivalent(less, x, element) :: x == base.nodes[i].element
    {
      var s := Elements(base.nodes);
      forall j | 0 <= j < |s| && Equivalent(less, s[j], element) ensures s[j] == s[i] {
        assert Equivalent(less, s[i], element) && Equivalent(less, element, s[i]);
        assert Equivalent(less, s[j], s[i]);
      }
    }
  }
}
