/**
 * The indexed list of tied groups behind IncrementalPriorityQueueV2, as values:
 * list nodes with their items, the order of the live nodes and the
 * item-to-location index.  Lemmas say what each primitive edit keeps.
 */
module GroupIndex {
  import opened Collections
  import opened Options
  import opened Ranking

  /** A list node.  `updated` is the node receiving items split from this one by
      the update in progress. */
  datatype Group<T> = Group(items: seq<T>, updated: Option<nat>)

  datatype Location = Location(group: nat, index: nat)

  type Nodes<T> = map<nat, Group<T>>
  type Index<T> = map<T, Option<Location>>

  /** The location index and the groups describe each other, except that the
      items of `but` are in no group and their entries are not looked at. */
  ghost predicate Indexed<T>(nodes: Nodes<T>, order: seq<nat>, loc: Index<T>, but: set<T>) {
    && NoRepeats(order)
    && (forall g | g in order :: g in nodes)
    && (forall g, i | g in order && 0 <= i < |nodes[g].items| ::
          ItemPlaced(nodes, loc, but, g, i))
    && (forall x | x in loc && x !in but && loc[x].Some? :: Located(nodes, order, loc[x].value, x))
  }

  ghost predicate ItemPlaced<T>(nodes: Nodes<T>, loc: Index<T>, but: set<T>, g: nat, i: nat)
    requires g in nodes && i < |nodes[g].items|
  {
    var x := nodes[g].items[i];
    x !in but && x in loc && loc[x] == Some(Location(g, i))
  }

  ghost predicate Located<T>(nodes: Nodes<T>, order: seq<nat>, l: Location, x: T) {
    && l.group in order && l.group in nodes
    && l.index < |nodes[l.group].items| && nodes[l.group].items[l.index] == x
  }

  /** Items with the last one moved into slot `i`. */
  function SwapPop<T>(items: seq<T>, i: nat): seq<T>
    requires i < |items|
  {
    items[i := items[|items| - 1]][..|items| - 1]
  }

  /** The index after a swap-and-pop of slot `l` in group `l.group`. */
  function SwapPopIndex<T>(nodes: Nodes<T>, loc: Index<T>, l: Location): Index<T>
    requires l.group in nodes && l.index < |nodes[l.group].items|
  {
    var last := Last(nodes[l.group].items);
    if l.index == |nodes[l.group].items| - 1 || !Tracked(loc, last) then loc
    else loc[last := Some(loc[last].value.(index := l.index))]
  }

  function Last<T>(s: seq<T>): T
    requires s != []
  {
    s[|s| - 1]
  }

  predicate Tracked<T(==)>(loc: Index<T>, x: T) {
    x in loc && loc[x].Some?
  }

  /** Both indexes know the same items, in the same groups, leaving `but` aside. */
  ghost predicate SameGroups<T>(loc: Index<T>, loc': Index<T>, but: set<T>) {
    && loc.Keys == loc'.Keys
    && (forall x | x in loc && x !in but :: GroupOf(loc, x) == GroupOf(loc', x))
  }

  function GroupOf<T>(loc: Index<T>, x: T): Option<nat>
    requires x in loc
  {
    if loc[x].Some? then Some(loc[x].value.group) else None
  }

  lemma RemoveItemKeeps<T>(nodes: Nodes<T>, order: seq<nat>, loc: Index<T>, x: T, l: Location, entry: Option<Location>)
    requires Indexed(nodes, order, loc, {}) && x in loc && loc[x] == Some(l)
    requires l.group in nodes && l.index < |nodes[l.group].items|
    ensures l.index != |nodes[l.group].items| - 1 ==> Tracked(loc[x := entry], Last(nodes[l.group].items))
    ensures var loc' := SwapPopIndex(nodes, loc[x := entry], l);
            && Indexed(nodes[l.group := nodes[l.group].(items := SwapPop(nodes[l.group].items, l.index))], order, loc', {x})
            && SameGroups(loc, loc', {x}) && loc'[x] == entry
  {
    var items := nodes[l.group].items;
    var n := |items| - 1;
    assert Located(nodes, order, l, x);
    assert ItemPlaced(nodes, loc, {}, l.group, n) && ItemPlaced(nodes, loc, {}, l.group, l.index);
    var loc0 := loc[x := entry];
    var nodes' := nodes[l.group := nodes[l.group].(items := SwapPop(items, l.index))];
    var loc' := SwapPopIndex(nodes, loc0, l);
    forall g, i | g in order && 0 <= i < |nodes'[g].items|
      ensures ItemPlaced(nodes', loc', {x}, g, i)
    {
      assert ItemPlaced(nodes, loc, {}, g, i);
    }
    forall y | y in loc' && y != x && loc'[y].Some? ensures Located(nodes', order, loc'[y].value, y) {
      assert Located(nodes, order, loc[y].value, y);
    }
  }

  lemma AppendItemKeeps<T>(nodes: Nodes<T>, order: seq<nat>, loc: Index<T>, x: T, h: nat)
    requires Indexed(nodes, order, loc, {x}) && h in order
    ensures var n := |nodes[h].items|;
            var nodes' := nodes[h := nodes[h].(items := nodes[h].items + [x])];
            Indexed(nodes', order, loc[x := Some(Location(h, n))], {})
  {
    var n := |nodes[h].items|;
    var nodes' := nodes[h := nodes[h].(items := nodes[h].items + [x])];
    var loc' := loc[x := Some(Location(h, n))];
    forall g, i | g in order && 0 <= i < |nodes'[g].items|
      ensures ItemPlaced(nodes', loc', {}, g, i)
    {
      if g != h || i != n { assert ItemPlaced(nodes, loc, {x}, g, i); }
    }
    forall y | y in loc' && loc'[y].Some? ensures Located(nodes', order, loc'[y].value, y) {
      if y != x { assert Located(nodes, order, loc[y].value, y); }
    }
  }

  function InsertAt(order: seq<nat>, p: nat, h: nat): seq<nat>
    requires p <= |order|
  {
    order[..p] + [h] + order[p..]
  }

  lemma InsertAtMembers(order: seq<nat>, p: nat, h: nat)
    requires p <= |order|
    ensures forall g :: g in InsertAt(order, p, h) <==> g == h || g in order
    ensures NoRepeats(order) && h !in order ==> NoRepeats(InsertAt(order, p, h))
  {
    var order' := InsertAt(order, p, h);
    forall g | g in order ensures g in order' {
      var i :| 0 <= i < |order| && order[i] == g;
      assert order'[if i < p then i else i + 1] == g;
    }
    assert order'[p] == h;
  }

  /** Adding an empty node to the list disturbs nothing. */
  lemma InsertGroupKeeps<T>(nodes: Nodes<T>, order: seq<nat>, loc: Index<T>, but: set<T>, p: nat, h: nat)
    requires Indexed(nodes, order, loc, but) && p <= |order| && h !in order
    ensures Indexed(nodes[h := Group([], None)], InsertAt(order, p, h), loc, but)
  {
    InsertAtMembers(order, p, h);
    var nodes' := nodes[h := Group([], None)];
    forall g, i | g in InsertAt(order, p, h) && 0 <= i < |nodes'[g].items|
      ensures ItemPlaced(nodes', loc, but, g, i)
    {
      assert ItemPlaced(nodes, loc, but, g, i);
    }
    forall x | x in loc && x !in but && loc[x].Some?
      ensures Located(nodes', InsertAt(order, p, h), loc[x].value, x)
    {
      assert Located(nodes, order, loc[x].value, x);
    }
  }

  function DeleteAt(order: seq<nat>, p: nat): seq<nat>
    requires p < |order|
  {
    order[..p] + order[p + 1..]
  }

  lemma DeleteAtMembers(order: seq<nat>, p: nat)
    requires p < |order| && NoRepeats(order)
    ensures forall g :: g in DeleteAt(order, p) <==> g in order && g != order[p]
    ensures NoRepeats(DeleteAt(order, p))
  {
    var order' := DeleteAt(order, p);
    forall g | g in order && g != order[p] ensures g in order' {
      var i :| 0 <= i < |order| && order[i] == g;
      assert order'[if i < p then i else i - 1] == g;
    }
  }

  lemma DeleteGroupKeeps<T>(nodes: Nodes<T>, order: seq<nat>, loc: Index<T>, p: nat)
    requires Indexed(nodes, order, loc, {}) && p < |order| && nodes[order[p]].items == []
    ensures Indexed(nodes, DeleteAt(order, p), loc, {})
  {
    DeleteAtMembers(order, p);
    forall g, i | g in DeleteAt(order, p) && 0 <= i < |nodes[g].items| ensures ItemPlaced(nodes, loc, {}, g, i) {
    }
    forall x | x in loc && loc[x].Some? ensures Located(nodes, DeleteAt(order, p), loc[x].value, x) {
      assert Located(nodes, order, loc[x].value, x);
    }
  }

  function PositionOf(order: seq<nat>, g: nat): (p: nat)
    requires g in order
    ensures p < |order| && order[p] == g
  {
    if order[0] == g then 0 else 1 + PositionOf(order[1..], g)
  }

  // ---- appearance lists of groups ----

  /** Groups stand in ranking order; no appearance list mentions an update after `k`. */
  ghost predicate Stamped(order: seq<nat>, stampOf: map<nat, seq<nat>>, k: nat) {
    && (forall g | g in order :: g in stampOf && stampOf[g] != [] && AtMost(stampOf[g], k))
    && (forall i, j | 0 <= i < j < |order| :: Before(stampOf[order[i]], stampOf[order[j]]))
  }

  ghost predicate AtMost(s: seq<nat>, k: nat) {
    forall i | 0 <= i < |s| :: s[i] <= k
  }

  /** The split target of a group goes immediately before it. */
  lemma SplitKeepsStamped(order: seq<nat>, stampOf: map<nat, seq<nat>>, k: nat, p: nat, h: nat)
    requires Stamped(order, stampOf, k) && p < |order| && h !in order
    requires forall g | g in order :: stampOf[g] != stampOf[order[p]] + [k]
    ensures Stamped(InsertAt(order, p, h), stampOf[h := stampOf[order[p]] + [k]], k)
  {
    var s := stampOf[order[p]];
    var order', stampOf' := InsertAt(order, p, h), stampOf[h := s + [k]];
    InsertAtMembers(order, p, h);
    ExtensionBefore(s, k);
    assert AtMost(s, k);
    forall i, j | 0 <= i < j < |order'| ensures Before(stampOf'[order'[i]], stampOf'[order'[j]]) {
      if i == p {
        assert order'[j] == order[j - 1];
        if j - 1 > p { BeforeTransitive(s + [k], s, stampOf[order[j - 1]]); }
      } else if j == p {
        assert order'[i] == order[i] && order[i] in order;
        ExtensionAdjacent(stampOf[order[i]], s, k);
      } else {
        var i0, j0 := if i < p then i else i - 1, if j < p then j else j - 1;
        assert order'[i] == order[i0] && order'[j] == order[j0] && order[i0] in order && order[j0] in order;
      }
    }
  }

  /** Brand-new items rank behind everything that was seen before. */
  lemma NewGroupKeepsStamped(order: seq<nat>, stampOf: map<nat, seq<nat>>, k: nat, h: nat)
    requires Stamped(order, stampOf, k) && h !in order
    requires forall g | g in order :: stampOf[g][0] < k
    ensures Stamped(order + [h], stampOf[h := [k]], k)
  {
    var order', stampOf' := order + [h], stampOf[h := [k]];
    forall i, j | 0 <= i < j < |order'| ensures Before(stampOf'[order'[i]], stampOf'[order'[j]]) {
      assert order[i] in order;
      if j < |order| { assert order[j] in order; }
    }
  }

  lemma DeleteKeepsStamped(order: seq<nat>, stampOf: map<nat, seq<nat>>, k: nat, p: nat)
    requires Stamped(order, stampOf, k) && NoRepeats(order) && p < |order|
    ensures Stamped(DeleteAt(order, p), stampOf, k)
  {
    DeleteAtMembers(order, p);
  }

  /** Different groups carry different appearance lists. */
  lemma StampsDiffer(order: seq<nat>, stampOf: map<nat, seq<nat>>, k: nat, g: nat, h: nat)
    requires Stamped(order, stampOf, k) && g in order && h in order && g != h
    ensures stampOf[g] != stampOf[h]
  {
    var i, j := PositionOf(order, g), PositionOf(order, h);
    if i < j { BeforeAsymmetric(stampOf[g], stampOf[h]); } else { BeforeAsymmetric(stampOf[h], stampOf[g]); }
  }

  /** Every tracked item's appearance list is the one its group carries, and an
      item with an empty location is a removed one. */
  ghost predicate Models<T>(loc: Index<T>, stampOf: map<nat, seq<nat>>, r: State<T>, but: set<T>) {
    && r.removed !! r.stamps.Keys
    && loc.Keys - but == (r.removed + r.stamps.Keys) - but
    && (forall x | x in loc && x !in but ::
          if loc[x].None? then x in r.removed
          else x in r.stamps && loc[x].value.group in stampOf && r.stamps[x] == stampOf[loc[x].value.group])
  }

  lemma PlaceKeepsModels<T>(loc: Index<T>, stampOf: map<nat, seq<nat>>, r: State<T>, x: T, l: Location)
    requires Models(loc, stampOf, r, {x}) && l.group in stampOf && x !in r.removed
    ensures Models(loc[x := Some(l)], stampOf, r.(stamps := r.stamps[x := stampOf[l.group]]), {})
  {
    var loc' := loc[x := Some(l)];
    var r' := r.(stamps := r.stamps[x := stampOf[l.group]]);
    assert loc'.Keys == (loc.Keys - {x}) + {x};
    assert r'.removed + r'.stamps.Keys == ((r.removed + r.stamps.Keys) - {x}) + {x};
  }

  /** Items the index does not track can be regarded as in transit. */
  lemma UntrackedInTransit<T>(nodes: Nodes<T>, order: seq<nat>, loc: Index<T>, stampOf: map<nat, seq<nat>>, r: State<T>, x: T)
    requires Indexed(nodes, order, loc, {}) && Models(loc, stampOf, r, {}) && x !in loc
    ensures Indexed(nodes, order, loc, {x}) && Models(loc, stampOf, r, {x})
    ensures x !in r.removed && x !in r.stamps
  {
    forall g, i | g in order && 0 <= i < |nodes[g].items| ensures ItemPlaced(nodes, loc, {x}, g, i) {
      assert ItemPlaced(nodes, loc, {}, g, i);
    }
    assert loc.Keys - {} == loc.Keys && (r.removed + r.stamps.Keys) - {} == r.removed + r.stamps.Keys;
  }

  lemma LiftKeepsModels<T>(loc: Index<T>, loc': Index<T>, stampOf: map<nat, seq<nat>>, r: State<T>, x: T)
    requires Models(loc, stampOf, r, {}) && SameGroups(loc, loc', {x})
    ensures Models(loc', stampOf, r, {x})
  {
    forall y | y in loc' && y != x
      ensures if loc'[y].None? then y in r.removed
              else y in r.stamps && loc'[y].value.group in stampOf && r.stamps[y] == stampOf[loc'[y].value.group]
    {
      assert GroupOf(loc, y) == GroupOf(loc', y);
    }
    assert loc.Keys - {} == loc.Keys && (r.removed + r.stamps.Keys) - {} == r.removed + r.stamps.Keys;
  }

  lemma RelinkKeepsIndexed<T>(nodes: Nodes<T>, order: seq<nat>, loc: Index<T>, but: set<T>, g: nat, link: Option<nat>)
    requires Indexed(nodes, order, loc, but) && g in nodes
    ensures Indexed(nodes[g := nodes[g].(updated := link)], order, loc, but)
  {
    var nodes' := nodes[g := nodes[g].(updated := link)];
    forall h, i | h in order && 0 <= i < |nodes'[h].items| ensures ItemPlaced(nodes', loc, but, h, i) {
      assert ItemPlaced(nodes, loc, but, h, i);
    }
    forall x | x in loc && x !in but && loc[x].Some? ensures Located(nodes', order, loc[x].value, x) {
      assert Located(nodes, order, loc[x].value, x);
    }
  }

  lemma RestampKeepsModels<T>(nodes: Nodes<T>, order: seq<nat>, loc: Index<T>, stampOf: map<nat, seq<nat>>, r: State<T>,
                              but: set<T>, h: nat, stamps: seq<nat>)
    requires Indexed(nodes, order, loc, but) && Models(loc, stampOf, r, but) && h !in order
    ensures Models(loc, stampOf[h := stamps], r, but)
  {
    forall y | y in loc && y !in but && loc[y].Some? ensures loc[y].value.group != h {
      assert Located(nodes, order, loc[y].value, y);
    }
  }

  /** Taking an item out of its group by swap-and-pop, whatever its own entry becomes. */
  lemma LiftKeeps<T>(nodes: Nodes<T>, order: seq<nat>, loc: Index<T>, stampOf: map<nat, seq<nat>>, r: State<T>,
                     x: T, l: Location, entry: Option<Location>)
    requires Indexed(nodes, order, loc, {}) && Models(loc, stampOf, r, {}) && x in loc && loc[x] == Some(l)
    ensures Located(nodes, order, l, x)
    ensures l.index != |nodes[l.group].items| - 1 ==> Tracked(loc[x := entry], Last(nodes[l.group].items))
    ensures var loc' := SwapPopIndex(nodes, loc[x := entry], l);
            && Indexed(nodes[l.group := nodes[l.group].(items := SwapPop(nodes[l.group].items, l.index))], order, loc', {x})
            && Models(loc', stampOf, r, {x}) && x in loc' && loc'[x] == entry
  {
    assert Located(nodes, order, l, x);
    RemoveItemKeeps(nodes, order, loc, x, l, entry);
    LiftKeepsModels(loc, SwapPopIndex(nodes, loc[x := entry], l), stampOf, r, x);
  }
}
