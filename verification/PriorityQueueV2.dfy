/**
 * IncrementalPriorityQueueV2: the ranking kept as an ordered list of tied
 * groups, with swap-and-pop removal, an item-to-location index, recycled list
 * nodes and a lazily sorted copy of the top group.  Every operation is proved to
 * act on the Ranking state the list stands for.
 *
 * A list node is named by a number: `priorityGroups` is the live list,
 * `recycledPriorityGroups` the spare nodes, `nodes` their contents.
 */
module PriorityQueueV2 {
  import opened Collections
  import opened Options
  import opened Ranking
  import opened GroupIndex
  import opened Sorting

  /** Split links during update number `k`: a link leads to the group whose
      appearance list is one `k` longer, and every group that gained a `k` in this
      update after an earlier appearance is the target of a link. */
  ghost predicate Links<T>(nodes: Nodes<T>, order: seq<nat>, stampOf: map<nat, seq<nat>>, k: nat)
    requires forall g | g in order :: g in nodes && g in stampOf
  {
    && (forall g | g in order && nodes[g].updated.Some? ::
          nodes[g].updated.value in order && stampOf[nodes[g].updated.value] == stampOf[g] + [k])
    && (forall h | h in order && Extended(stampOf[h], k) ::
          exists g :: g in order && nodes[g].updated == Some(h))
  }

  ghost predicate Extended(s: seq<nat>, k: nat) {
    |s| > 1 && s[|s| - 1] == k
  }

  /** Groups linked so far are the ones finishGroupSplits will visit; only they,
      and the group being filled right now, may be empty. */
  ghost predicate Sources<T>(nodes: Nodes<T>, order: seq<nat>, splits: seq<nat>, open: set<nat>)
    requires forall g | g in order :: g in nodes
  {
    && NoRepeats(splits)
    && (forall g | g in splits :: g in order)
    && (forall g | g in order :: nodes[g].updated.Some? <==> g in splits)
    && (forall g | g in order && nodes[g].items == [] :: g in splits || g in open)
  }

  /** The group collecting brand-new items, once there is one, carries `[k]`. */
  ghost predicate Newcomers(order: seq<nat>, stampOf: map<nat, seq<nat>>, k: nat, newGroup: Option<nat>)
    requires forall g | g in order :: g in stampOf && stampOf[g] != []
  {
    if newGroup.Some? then newGroup.value in order && stampOf[newGroup.value] == [k]
    else forall g | g in order :: stampOf[g][0] < k
  }

  /** Spare nodes are empty, unlinked and off the live list. */
  ghost predicate Spares<T>(nodes: Nodes<T>, order: seq<nat>, recycled: seq<nat>, next: nat) {
    && NoRepeats(recycled)
    && (forall g | g in recycled :: g !in order && g in nodes && nodes[g] == Group([], None))
    && (forall g | g in nodes :: g < next)
  }

  /** Editing one group's items leaves links and spares alone. */
  lemma EditKeepsSources<T>(nodes: Nodes<T>, order: seq<nat>, recycled: seq<nat>, next: nat, splits: seq<nat>,
                            g: nat, items: seq<T>)
    requires (forall g | g in order :: g in nodes) && g in order
    requires Sources(nodes, order, splits, {g}) && Spares(nodes, order, recycled, next)
    ensures var nodes' := nodes[g := nodes[g].(items := items)];
            && Sources(nodes', order, splits, if items == [] then {g} else {})
            && Spares(nodes', order, recycled, next)
  {
  }

  lemma EditKeepsLinks<T>(nodes: Nodes<T>, order: seq<nat>, stampOf: map<nat, seq<nat>>, k: nat, g: nat, items: seq<T>)
    requires (forall g | g in order :: g in nodes && g in stampOf) && g in order
    requires Links(nodes, order, stampOf, k)
    ensures Links(nodes[g := nodes[g].(items := items)], order, stampOf, k)
  {
    assert forall h | h in order :: nodes[g := nodes[g].(items := items)][h].updated == nodes[h].updated;
  }

  /** An unlinked group has no split target in the list. */
  lemma NoTarget<T>(nodes: Nodes<T>, order: seq<nat>, stampOf: map<nat, seq<nat>>, k: nat, g: nat, h: nat)
    requires Stamped(order, stampOf, k) && (forall g | g in order :: g in nodes)
    requires Links(nodes, order, stampOf, k)
    requires g in order && h in order && nodes[g].updated.None?
    ensures stampOf[h] != stampOf[g] + [k]
  {
    if stampOf[h] == stampOf[g] + [k] {
      assert Extended(stampOf[h], k);
      var f :| f in order && nodes[f].updated == Some(h);
      assert stampOf[f] == stampOf[h][..|stampOf[h]| - 1] == stampOf[g];
      StampsDiffer(order, stampOf, k, f, g);
    }
  }

  /** Linking `g` to the node `h` just inserted before it. */
  lemma LinkKeeps<T>(nodes: Nodes<T>, order: seq<nat>, order': seq<nat>, stampOf: map<nat, seq<nat>>, k: nat,
                     splits: seq<nat>, g: nat, h: nat)
    requires forall g | g in order :: g in nodes && g in stampOf
    requires Links(nodes, order, stampOf, k) && Sources(nodes, order, splits, {g})
    requires g in order && nodes[g].updated.None? && h !in order
    requires forall f :: f in order' <==> f == h || f in order
    ensures var nodes' := nodes[h := Group([], None)][g := nodes[g].(updated := Some(h))];
            && Links(nodes', order', stampOf[h := stampOf[g] + [k]], k)
            && Sources(nodes', order', splits + [g], {h})
  {
    var nodes' := nodes[h := Group([], None)][g := nodes[g].(updated := Some(h))];
    var stampOf' := stampOf[h := stampOf[g] + [k]];
    forall b | b in order' && Extended(stampOf'[b], k) ensures exists a :: a in order' && nodes'[a].updated == Some(b) {
      if b == h {
        assert nodes'[g].updated == Some(h);
      } else {
        var a :| a in order && nodes[a].updated == Some(b);
        assert nodes'[a].updated == Some(b);
      }
    }
  }

  /** Adding the group of brand-new items. */
  lemma NewGroupLinks<T>(nodes: Nodes<T>, order: seq<nat>, stampOf: map<nat, seq<nat>>, k: nat, splits: seq<nat>, h: nat)
    requires forall g | g in order :: g in nodes && g in stampOf
    requires Links(nodes, order, stampOf, k) && Sources(nodes, order, splits, {}) && h !in order
    ensures var nodes' := nodes[h := Group([], None)];
            && Links(nodes', order + [h], stampOf[h := [k]], k)
            && Sources(nodes', order + [h], splits, {h})
  {
    var nodes', stampOf' := nodes[h := Group([], None)], stampOf[h := [k]];
    forall b | b in order + [h] && Extended(stampOf'[b], k)
      ensures exists a :: a in order + [h] && nodes'[a].updated == Some(b)
    {
      var a :| a in order && nodes[a].updated == Some(b);
      assert nodes'[a].updated == Some(b);
    }
  }

  /** All of the queue's fields but its size, with the appearance lists of its groups. */
  datatype Repr<T> = Repr(nodes: Nodes<T>, next: nat, order: seq<nat>, recycled: seq<nat>,
                          loc: Index<T>, cache: Option<seq<T>>, stampOf: map<nat, seq<nat>>)

  /** Progress of one update: its number, the group of new items, the split groups. */
  datatype Progress = Progress(k: nat, newGroup: Option<nat>, splits: seq<nat>)

  /** The cached copy is the top group, worst to best, and that group is older
      than update `k`. */
  ghost predicate CacheOk<T>(s: Repr<T>, lt: (T, T) -> bool, k: nat) {
    s.cache.Some? ==>
      && s.order != [] && s.order[0] in s.nodes && s.order[0] in s.stampOf
      && k !in s.stampOf[s.order[0]]
      && multiset(s.cache.value) == multiset(s.nodes[s.order[0]].items)
      && Descending(lt, s.cache.value)
  }

  /** What every step keeps: `r` is the ranking so far, `k` the latest update,
      `but` holds the item in transit and `open` the group being filled. */
  ghost predicate Grounded<T>(s: Repr<T>, lt: (T, T) -> bool, k: nat, r: State<T>, but: set<T>, splits: seq<nat>, open: set<nat>) {
    && Indexed(s.nodes, s.order, s.loc, but)
    && Stamped(s.order, s.stampOf, k)
    && Models(s.loc, s.stampOf, r, but)
    && Spares(s.nodes, s.order, s.recycled, s.next)
    && Sources(s.nodes, s.order, splits, open)
    && CacheOk(s, lt, k)
  }

  /** Holds throughout the item loop of an update. */
  ghost predicate Consistent<T>(s: Repr<T>, lt: (T, T) -> bool, u: Progress, r: State<T>, but: set<T>, open: set<nat>) {
    && Grounded(s, lt, u.k, r, but, u.splits, open)
    && Links(s.nodes, s.order, s.stampOf, u.k)
    && Newcomers(s.order, s.stampOf, u.k, u.newGroup)
  }

  /** Holds between calls: besides, update numbers are all in the past. */
  ghost predicate Settled<T>(s: Repr<T>, lt: (T, T) -> bool, r: State<T>) {
    && Grounded(s, lt, r.count, r, {}, [], {})
    && (forall g, i | g in s.order && 0 <= i < |s.stampOf[g]| :: s.stampOf[g][i] < r.count)
  }

  lemma StartKeeps<T>(s: Repr<T>, lt: (T, T) -> bool, r: State<T>)
    requires Settled(s, lt, r)
    ensures Consistent(s, lt, Progress(r.count, None, []), r.(count := r.count + 1), {}, {})
  {
  }

  lemma OpenNewItemsGroupKeeps<T>(s: Repr<T>, s': Repr<T>, lt: (T, T) -> bool, u: Progress, r: State<T>, x: T, h: nat)
    requires Consistent(s, lt, u, r, {x}, {}) && u.newGroup.None? && h !in s.order
    requires Spares(s'.nodes, s'.order, s'.recycled, s'.next)
    requires s' == s.(nodes := s.nodes[h := Group([], None)], order := s.order + [h], stampOf := s.stampOf[h := [u.k]],
                      recycled := s'.recycled, next := s'.next)
    ensures Consistent(s', lt, u.(newGroup := Some(h)), r, {x}, {h})
  {
    assert s'.order == InsertAt(s.order, |s.order|, h);
    InsertGroupKeeps(s.nodes, s.order, s.loc, {x}, |s.order|, h);
    NewGroupKeepsStamped(s.order, s.stampOf, u.k, h);
    RestampKeepsModels(s.nodes, s.order, s.loc, s.stampOf, r, {x}, h, [u.k]);
    NewGroupLinks(s.nodes, s.order, s.stampOf, u.k, u.splits, h);
  }

  lemma PlaceItemKeeps<T>(s: Repr<T>, lt: (T, T) -> bool, u: Progress, r: State<T>, x: T, h: nat)
    requires Consistent(s, lt, u, r, {x}, {h}) && h in s.order && u.k in s.stampOf[h] && x !in r.removed
    ensures var items := s.nodes[h].items;
            var s' := s.(nodes := s.nodes[h := s.nodes[h].(items := items + [x])],
                         loc := s.loc[x := Some(Location(h, |items|))]);
            Consistent(s', lt, u, r.(stamps := r.stamps[x := s.stampOf[h]]), {}, {})
  {
    var items := s.nodes[h].items;
    AppendItemKeeps(s.nodes, s.order, s.loc, x, h);
    PlaceKeepsModels(s.loc, s.stampOf, r, x, Location(h, |items|));
    EditKeepsSources(s.nodes, s.order, s.recycled, s.next, u.splits, h, items + [x]);
    EditKeepsLinks(s.nodes, s.order, s.stampOf, u.k, h, items + [x]);
  }

  /** The state with the item at `l` swapped out of its group. */
  ghost function Lifted<T>(s: Repr<T>, l: Location): Repr<T>
    requires l.group in s.nodes && l.index < |s.nodes[l.group].items|
    requires l.index != |s.nodes[l.group].items| - 1 ==> Tracked(s.loc, Last(s.nodes[l.group].items))
  {
    s.(nodes := s.nodes[l.group := s.nodes[l.group].(items := SwapPop(s.nodes[l.group].items, l.index))],
       loc := SwapPopIndex(s.nodes, s.loc, l))
  }

  lemma LiftGrounded<T>(s: Repr<T>, lt: (T, T) -> bool, k: nat, r: State<T>, splits: seq<nat>, x: T, l: Location)
    requires Grounded(s, lt, k, r, {}, splits, {}) && x in s.loc && s.loc[x] == Some(l)
    requires l.group in s.nodes && l.index < |s.nodes[l.group].items|
    requires s.cache.Some? ==> s.order[0] != l.group
    ensures l.group in s.order
    ensures l.index != |s.nodes[l.group].items| - 1 ==> Tracked(s.loc, Last(s.nodes[l.group].items))
    ensures Grounded(Lifted(s, l), lt, k, r, {x}, splits, {l.group})
  {
    assert s.loc[x := s.loc[x]] == s.loc;
    LiftKeeps(s.nodes, s.order, s.loc, s.stampOf, r, x, l, s.loc[x]);
    EditKeepsSources(s.nodes, s.order, s.recycled, s.next, splits, l.group, SwapPop(s.nodes[l.group].items, l.index));
  }

  lemma LiftItemKeeps<T>(s: Repr<T>, lt: (T, T) -> bool, u: Progress, r: State<T>, x: T, l: Location)
    requires Consistent(s, lt, u, r, {}, {}) && x in s.loc && s.loc[x] == Some(l)
    requires l.group in s.nodes && l.index < |s.nodes[l.group].items|
    requires s.cache.Some? ==> s.order[0] != l.group
    ensures l.index != |s.nodes[l.group].items| - 1 ==> Tracked(s.loc, Last(s.nodes[l.group].items))
    ensures Consistent(Lifted(s, l), lt, u, r, {x}, {l.group})
  {
    LiftGrounded(s, lt, u.k, r, u.splits, x, l);
    EditKeepsLinks(s.nodes, s.order, s.stampOf, u.k, l.group, SwapPop(s.nodes[l.group].items, l.index));
  }

  /** The cached copy is dropped when it is the copy of group `g`. */
  ghost function WithoutCacheOf<T>(s: Repr<T>, g: nat): Repr<T>
    requires s.cache.Some? ==> s.order != []
  {
    s.(cache := if s.cache.Some? && s.order[0] == g then None else s.cache)
  }

  /** Lifting a tracked item, after its group's cached copy is dropped. */
  lemma LiftTrackedKeeps<T>(s: Repr<T>, lt: (T, T) -> bool, u: Progress, r: State<T>, x: T, l: Location)
    requires Consistent(s, lt, u, r, {}, {}) && x in s.loc && s.loc[x] == Some(l)
    ensures s.cache.Some? ==> s.order != []
    ensures l.group in s.nodes && l.index < |s.nodes[l.group].items| && l.group in s.order
    ensures l.index != |s.nodes[l.group].items| - 1 ==> Tracked(s.loc, Last(s.nodes[l.group].items))
    ensures Consistent(Lifted(WithoutCacheOf(s, l.group), l), lt, u, r, {x}, {l.group})
    ensures x in r.stamps && x !in r.removed && l.group in s.stampOf && r.stamps[x] == s.stampOf[l.group]
  {
    assert Located(s.nodes, s.order, l, x);
    DropCacheKeeps(s, lt, u, r);
    LiftItemKeeps(WithoutCacheOf(s, l.group), lt, u, r, x, l);
  }

  lemma SplitKeepsIndexed<T>(nodes: Nodes<T>, order: seq<nat>, loc: Index<T>, x: T, g: nat, h: nat, p: nat)
    requires Indexed(nodes, order, loc, {x}) && p < |order| && g in nodes && h !in order && g != h
    ensures Indexed(nodes[h := Group([], None)][g := nodes[g].(updated := Some(h))], InsertAt(order, p, h), loc, {x})
  {
    InsertGroupKeeps(nodes, order, loc, {x}, p, h);
    RelinkKeepsIndexed(nodes[h := Group([], None)], InsertAt(order, p, h), loc, {x}, g, Some(h));
  }

  lemma SplitKeepsStamps<T>(s: Repr<T>, lt: (T, T) -> bool, u: Progress, r: State<T>, x: T, g: nat, h: nat, p: nat)
    requires Consistent(s, lt, u, r, {x}, {g}) && p < |s.order| && s.order[p] == g && s.nodes[g].updated.None? && h !in s.order
    ensures Stamped(InsertAt(s.order, p, h), s.stampOf[h := s.stampOf[g] + [u.k]], u.k)
    ensures Models(s.loc, s.stampOf[h := s.stampOf[g] + [u.k]], r, {x})
  {
    forall f | f in s.order ensures s.stampOf[f] != s.stampOf[g] + [u.k] {
      NoTarget(s.nodes, s.order, s.stampOf, u.k, g, f);
    }
    SplitKeepsStamped(s.order, s.stampOf, u.k, p, h);
    RestampKeepsModels(s.nodes, s.order, s.loc, s.stampOf, r, {x}, h, s.stampOf[g] + [u.k]);
  }

  lemma SplitKeeps<T>(s: Repr<T>, s': Repr<T>, lt: (T, T) -> bool, u: Progress, r: State<T>, x: T, g: nat, h: nat, p: nat)
    requires Consistent(s, lt, u, r, {x}, {g}) && p < |s.order| && s.order[p] == g && s.nodes[g].updated.None?
    requires h !in s.order && (s.cache.Some? ==> p > 0)
    requires s'.order == InsertAt(s.order, p, h)
    requires Spares(s.nodes[h := Group([], None)], s'.order, s'.recycled, s'.next)
    requires s' == s.(nodes := s.nodes[h := Group([], None)][g := s.nodes[g].(updated := Some(h))],
                      order := s'.order, stampOf := s.stampOf[h := s.stampOf[g] + [u.k]],
                      recycled := s'.recycled, next := s'.next)
    ensures Consistent(s', lt, u.(splits := u.splits + [g]), r, {x}, {h})
  {
    SplitKeepsIndexed(s.nodes, s.order, s.loc, x, g, h, p);
    SplitKeepsStamps(s, lt, u, r, x, g, h, p);
    InsertAtMembers(s.order, p, h);
    LinkKeeps(s.nodes, s.order, s'.order, s.stampOf, u.k, u.splits, g, h);
    RelinkKeepsSpares(s.nodes[h := Group([], None)], s'.order, s'.recycled, s'.next, g, h);
    SplitKeepsCache(s, s', lt, u.k, g, h, p);
    SplitKeepsNewcomers(s.order, s'.order, s.stampOf, u.k, u.newGroup, g, h);
  }

  lemma RelinkKeepsSpares<T>(nodes: Nodes<T>, order: seq<nat>, recycled: seq<nat>, next: nat, g: nat, h: nat)
    requires Spares(nodes, order, recycled, next) && g in order && g in nodes
    ensures Spares(nodes[g := nodes[g].(updated := Some(h))], order, recycled, next)
  {
  }

  /** The cached top group is not the one split, and stays first. */
  lemma SplitKeepsCache<T>(s: Repr<T>, s': Repr<T>, lt: (T, T) -> bool, k: nat, g: nat, h: nat, p: nat)
    requires CacheOk(s, lt, k) && p < |s.order| && s.order[p] == g && g in s.nodes && g in s.stampOf && h !in s.order
    requires s.cache.Some? ==> p > 0
    requires s'.order == InsertAt(s.order, p, h) && s'.cache == s.cache
    requires s'.nodes == s.nodes[h := Group([], None)][g := s.nodes[g].(updated := Some(h))]
    requires s'.stampOf == s.stampOf[h := s.stampOf[g] + [k]]
    ensures CacheOk(s', lt, k)
  {
    if s.cache.Some? { assert s'.order[0] == s.order[0] && s.order[0] in s.order; }
  }

  lemma SplitKeepsNewcomers(order: seq<nat>, order': seq<nat>, stampOf: map<nat, seq<nat>>, k: nat, newGroup: Option<nat>, g: nat, h: nat)
    requires (forall f | f in order :: f in stampOf && stampOf[f] != []) && g in order && h !in order
    requires forall f :: f in order' <==> f == h || f in order
    requires Newcomers(order, stampOf, k, newGroup)
    ensures Newcomers(order', stampOf[h := stampOf[g] + [k]], k, newGroup)
  {
  }

  /** Erasing a group that may be empty, or leaving it when it is not. */
  lemma EraseKeeps<T>(s: Repr<T>, s': Repr<T>, lt: (T, T) -> bool, k: nat, r: State<T>, rest: seq<nat>, g: nat, p: nat)
    requires Grounded(s, lt, k, r, {}, rest, {g})
    requires p < |s.order| && s.order[p] == g && s.nodes[g].items == [] && s.nodes[g].updated.None?
    requires s' == s.(order := DeleteAt(s.order, p), recycled := s.recycled + [g],
                      cache := if s.cache.Some? && s.order[0] == g then None else s.cache)
    ensures Grounded(s', lt, k, r, {}, rest, {})
  {
    DeleteGroupKeeps(s.nodes, s.order, s.loc, p);
    DeleteKeepsStamped(s.order, s.stampOf, k, p);
    DeleteAtMembers(s.order, p);
  }

  lemma ResetLinkKeeps<T>(s: Repr<T>, lt: (T, T) -> bool, k: nat, r: State<T>, rest: seq<nat>, g: nat)
    requires Grounded(s, lt, k, r, {}, [g] + rest, {})
    ensures g in s.order && g in s.nodes
    ensures Grounded(s.(nodes := s.nodes[g := s.nodes[g].(updated := None)]), lt, k, r, {}, rest, {g})
  {
    assert ([g] + rest)[0] == g;
    assert ([g] + rest)[1..] == rest;
    assert forall f :: f in [g] + rest <==> f == g || f in rest;
    RelinkKeepsIndexed(s.nodes, s.order, s.loc, {}, g, None);
    ResetSources(s.nodes, s.order, rest, g);
  }

  lemma ResetSources<T>(nodes: Nodes<T>, order: seq<nat>, rest: seq<nat>, g: nat)
    requires forall f | f in order :: f in nodes
    requires Sources(nodes, order, [g] + rest, {})
    ensures g in order && Sources(nodes[g := nodes[g].(updated := None)], order, rest, {g})
  {
    var all := [g] + rest;
    assert all[0] == g && all[1..] == rest;
    assert forall f :: f in all <==> f == g || f in rest;
    assert g !in rest;
  }

  lemma SwapPopMultiset<T>(items: seq<T>, i: nat)
    requires i < |items|
    ensures multiset(SwapPop(items, i)) == multiset(items) - multiset{items[i]}
  {
    var swapped := items[i := Last(items)];
    assert items == items[..|items| - 1] + [Last(items)];
    assert swapped == SwapPop(items, i) + [Last(swapped)];
    assert multiset(swapped) == multiset(items) - multiset{items[i]} + multiset{Last(items)};
  }

  /** What remove() leaves of the cached copy of the top group. */
  function CacheAfterRemoval<T(==)>(cache: Option<seq<T>>, first: nat, g: nat, x: T): Option<seq<T>> {
    if cache.None? || first != g || cache.value == [] then cache
    else if Last(cache.value) == x then Some(cache.value[..|cache.value| - 1])
    else None
  }

  /** Items with a spot in the index are told apart from removed ones only. */
  lemma RemovedModels<T>(loc: Index<T>, stampOf: map<nat, seq<nat>>, r: State<T>, x: T)
    requires Models(loc, stampOf, r, {x}) && x in loc && loc[x].None?
    ensures Models(loc, stampOf, Remove(r, x), {})
  {
    var r' := Remove(r, x);
    assert loc.Keys - {} == (loc.Keys - {x}) + {x};
    assert (r'.removed + r'.stamps.Keys) - {} == ((r.removed + r.stamps.Keys) - {x}) + {x};
  }

  lemma InTransitNowhere<T>(nodes: Nodes<T>, order: seq<nat>, loc: Index<T>, x: T)
    requires Indexed(nodes, order, loc, {x}) && x in loc && loc[x].None?
    ensures Indexed(nodes, order, loc, {})
  {
    forall g, i | g in order && 0 <= i < |nodes[g].items| ensures ItemPlaced(nodes, loc, {}, g, i) {
      assert ItemPlaced(nodes, loc, {x}, g, i);
    }
  }

  /** The fields after remove() took `x` out of its slot `l`. */
  function Detached<T(==)>(s: Repr<T>, x: T, l: Location): Repr<T>
    requires l.group in s.nodes && l.index < |s.nodes[l.group].items| && s.order != []
  {
    s.(nodes := s.nodes[l.group := s.nodes[l.group].(items := SwapPop(s.nodes[l.group].items, l.index))],
       loc := SwapPopIndex(s.nodes, s.loc[x := None], l),
       cache := CacheAfterRemoval(s.cache, s.order[0], l.group, x))
  }

  lemma RemoveKeeps<T>(s: Repr<T>, lt: (T, T) -> bool, r: State<T>, x: T, l: Location)
    requires Settled(s, lt, r) && x in s.loc && s.loc[x] == Some(l)
    ensures l.group in s.nodes && l.index < |s.nodes[l.group].items| && s.order != []
    ensures l.group in s.order && x in r.stamps && s.nodes[l.group].updated.None?
    ensures s.cache.Some? && s.order[0] == l.group ==> s.cache.value != []
    ensures l.index != |s.nodes[l.group].items| - 1 ==> Tracked(s.loc[x := None], Last(s.nodes[l.group].items))
    ensures Grounded(Detached(s, x, l), lt, r.count, Remove(r, x), {}, [], {l.group})
  {
    assert Located(s.nodes, s.order, l, x);
    var items := s.nodes[l.group].items;
    LiftKeeps(s.nodes, s.order, s.loc, s.stampOf, r, x, l, None);
    var loc' := SwapPopIndex(s.nodes, s.loc[x := None], l);
    var nodes' := s.nodes[l.group := s.nodes[l.group].(items := SwapPop(items, l.index))];
    InTransitNowhere(nodes', s.order, loc', x);
    RemovedModels(loc', s.stampOf, r, x);
    EditKeepsSources(s.nodes, s.order, s.recycled, s.next, [], l.group, SwapPop(items, l.index));
    if s.order[0] == l.group && s.cache.Some? {
      RemovedCache(s.cache, lt, items, l.index);
      assert x in multiset(s.cache.value);
    }
  }

  lemma RemovedCache<T>(cache: Option<seq<T>>, lt: (T, T) -> bool, items: seq<T>, i: nat)
    requires cache.Some? ==> Descending(lt, cache.value) && multiset(cache.value) == multiset(items)
    requires i < |items|
    ensures var c := CacheAfterRemoval(cache, 0, 0, items[i]);
            c.Some? ==> Descending(lt, c.value) && multiset(c.value) == multiset(SwapPop(items, i))
  {
    SwapPopMultiset(items, i);
    if cache.Some? {
      assert |cache.value| == |multiset(cache.value)| == |items|;
      assert cache.value == cache.value[..|items| - 1] + [Last(cache.value)];
    }
  }

  lemma DropCacheKeeps<T>(s: Repr<T>, lt: (T, T) -> bool, u: Progress, r: State<T>)
    requires Consistent(s, lt, u, r, {}, {})
    ensures Consistent(s.(cache := None), lt, u, r, {}, {})
  {
  }

  lemma AnnounceKeeps<T>(s: Repr<T>, lt: (T, T) -> bool, u: Progress, r: State<T>, x: T)
    requires Consistent(s, lt, u, r, {}, {}) && x !in s.loc
    ensures x !in r.removed && x !in r.stamps
    ensures Consistent(s, lt, u, r, {x}, if u.newGroup.Some? then {u.newGroup.value} else {})
  {
    UntrackedInTransit(s.nodes, s.order, s.loc, s.stampOf, r, x);
  }

  lemma FinishKeeps<T>(s: Repr<T>, lt: (T, T) -> bool, r: State<T>, k: nat)
    requires Grounded(s, lt, k, r, {}, [], {}) && r.count == k + 1
    ensures Settled(s, lt, r)
  {
  }

  lemma {:induction false} TouchAllCount<T>(r: State<T>, k: nat, items: seq<T>)
    ensures TouchAll(r, k, items).count == r.count
  {
    if items != [] { TouchAllCount(r, k, items[..|items| - 1]); }
  }

  lemma BanKeeps<T>(s: Repr<T>, lt: (T, T) -> bool, r: State<T>, x: T)
    requires Settled(s, lt, r) && x !in s.loc
    ensures Settled(s.(loc := s.loc[x := None]), lt, Remove(r, x)) && x !in r.stamps
  {
    UntrackedInTransit(s.nodes, s.order, s.loc, s.stampOf, r, x);
    var loc' := s.loc[x := None];
    assert Models(loc', s.stampOf, r, {x}) by {
      assert loc'.Keys - {x} == s.loc.Keys - {x};
    }
    RemovedModels(loc', s.stampOf, r, x);
    forall g, i | g in s.order && 0 <= i < |s.nodes[g].items| ensures ItemPlaced(s.nodes, loc', {}, g, i) {
      assert ItemPlaced(s.nodes, s.loc, {x}, g, i);
    }
  }

  /** Where a ranked item sits: in the group carrying its appearance list. */
  lemma RankedItemPlace<T>(s: Repr<T>, lt: (T, T) -> bool, r: State<T>, x: T) returns (p: nat)
    requires Settled(s, lt, r) && x in r.stamps
    ensures p < |s.order| && s.order[p] in s.nodes && s.order[p] in s.stampOf
    ensures x in s.nodes[s.order[p]].items && r.stamps[x] == s.stampOf[s.order[p]]
  {
    assert x in (r.removed + r.stamps.Keys) - {};
    assert x in s.loc.Keys - {};
    var l := s.loc[x].value;
    assert Located(s.nodes, s.order, l, x);
    p := PositionOf(s.order, l.group);
  }

  lemma GroupItemRanked<T>(s: Repr<T>, lt: (T, T) -> bool, r: State<T>, p: nat, i: nat)
    requires Settled(s, lt, r) && p < |s.order| && s.order[p] in s.nodes && i < |s.nodes[s.order[p]].items|
    ensures var x := s.nodes[s.order[p]].items[i];
            x in r.stamps && s.order[p] in s.stampOf && r.stamps[x] == s.stampOf[s.order[p]]
  {
    assert ItemPlaced(s.nodes, s.loc, {}, s.order[p], i);
  }

  /** The queue is empty exactly when the list is, and the top group is never empty. */
  lemma TopGroupExists<T>(s: Repr<T>, lt: (T, T) -> bool, r: State<T>)
    requires Settled(s, lt, r)
    ensures |r.stamps| == 0 <==> s.order == []
    ensures s.order != [] ==> s.order[0] in s.nodes && s.nodes[s.order[0]].items != []
  {
    if s.order == [] {
      if x :| x in r.stamps { var p := RankedItemPlace(s, lt, r, x); }
    } else {
      assert s.order[0] in s.order;
      GroupItemRanked(s, lt, r, 0, 0);
    }
  }

  lemma TopOfTopGroup<T(!new)>(s: Repr<T>, lt: (T, T) -> bool, r: State<T>, x: T)
    requires StrictTotal(lt) && Settled(s, lt, r) && s.order != [] && s.order[0] in s.nodes
    requires x in s.nodes[s.order[0]].items && forall y | y in s.nodes[s.order[0]].items :: !lt(y, x)
    ensures IsTop(lt, r.stamps, x)
    ensures |s.nodes[s.order[0]].items| == 1 <==> TopIsStrict(r.stamps, x)
  {
    var items := s.nodes[s.order[0]].items;
    var i :| 0 <= i < |items| && items[i] == x;
    GroupItemRanked(s, lt, r, 0, i);
    forall y | y in r.stamps && y != x
      ensures Ahead(lt, r.stamps, x, y)
      ensures y !in items ==> Before(r.stamps[x], r.stamps[y])
    {
      var p := RankedItemPlace(s, lt, r, y);
      if p > 0 { BeforeAsymmetric(r.stamps[x], r.stamps[y]); }
    }
    if |items| > 1 {
      var j := if i == 0 then 1 else 0;
      GroupItemRanked(s, lt, r, 0, j);
      assert ItemPlaced(s.nodes, s.loc, {}, s.order[0], i) && ItemPlaced(s.nodes, s.loc, {}, s.order[0], j);
      assert items[j] != x;
      BeforeIrreflexive(r.stamps[x]);
    }
  }

  /** Groups are exactly the classes of equal appearance lists, in ranking order. */
  lemma GroupsAreTies<T>(s: Repr<T>, lt: (T, T) -> bool, r: State<T>, p: nat, i: nat, q: nat, j: nat)
    requires Settled(s, lt, r) && p <= q < |s.order| && s.order[p] in s.nodes && s.order[q] in s.nodes
    requires i < |s.nodes[s.order[p]].items| && j < |s.nodes[s.order[q]].items|
    ensures var x, y := s.nodes[s.order[p]].items[i], s.nodes[s.order[q]].items[j];
            && x in r.stamps && y in r.stamps
            && (r.stamps[x] == r.stamps[y] <==> p == q)
            && (Before(r.stamps[x], r.stamps[y]) <==> p < q)
  {
    GroupItemRanked(s, lt, r, p, i);
    GroupItemRanked(s, lt, r, q, j);
    if p < q {
      BeforeAsymmetric(s.stampOf[s.order[p]], s.stampOf[s.order[q]]);
    } else {
      BeforeIrreflexive(s.stampOf[s.order[p]]);
    }
  }

  lemma SetCacheKeeps<T>(s: Repr<T>, lt: (T, T) -> bool, r: State<T>, sorted: seq<T>)
    requires Settled(s, lt, r) && s.order != [] && s.order[0] in s.nodes
    requires Descending(lt, sorted) && multiset(sorted) == multiset(s.nodes[s.order[0]].items)
    ensures Settled(s.(cache := Some(sorted)), lt, r)
  {
  }

  lemma LastIsLeast<T>(lt: (T, T) -> bool, sorted: seq<T>, items: seq<T>)
    requires Descending(lt, sorted) && multiset(sorted) == multiset(items) && items != []
    requires forall x | x in items :: !lt(x, x)
    ensures sorted != [] && Last(sorted) in items && forall y | y in items :: !lt(y, Last(sorted))
  {
    assert items[0] in multiset(sorted);
    assert Last(sorted) in multiset(items);
    forall y | y in items ensures !lt(y, Last(sorted)) {
      assert y in multiset(sorted);
    }
  }

  lemma TouchKnown<T>(r: State<T>, k: nat, item: T)
    requires item in r.stamps && item !in r.removed
    ensures Touch(r, k, item) == r.(stamps := r.stamps[item := r.stamps[item] + [k]])
  {
  }

  lemma TouchOneMore<T>(r: State<T>, k: nat, items: seq<T>, i: nat)
    requires i < |items|
    ensures TouchAll(r, k, items[..i + 1]) == Touch(TouchAll(r, k, items[..i]), k, items[i])
  {
    assert items[..i + 1][..i] == items[..i];
  }

  lemma SizeAfter<T>(r: State<T>, x: T, located: bool, size: nat)
    requires size == |r.stamps| && (located <==> x in r.stamps)
    ensures size == |Remove(r, x).stamps| + if located then 1 else 0
  {
    RemoveSize(r, x);
  }

  class IncrementalPriorityQueueV2<T(==, !new)> {
    const lt: (T, T) -> bool
    var nodes: Nodes<T>
    var nextNode: nat
    var priorityGroups: seq<nat>
    var recycledPriorityGroups: seq<nat>
    var itemToLocation: Index<T>
    var size: nat
    var sortedTopGroupItems: Option<seq<T>>

    ghost var model: State<T>
    ghost var stampOf: map<nat, seq<nat>>

    ghost function Fields(): Repr<T>
      reads this`nodes, this`nextNode, this`priorityGroups, this`recycledPriorityGroups, this`itemToLocation,
            this`sortedTopGroupItems, this`stampOf
    {
      Repr(nodes, nextNode, priorityGroups, recycledPriorityGroups, itemToLocation, sortedTopGroupItems, stampOf)
    }

    /** The list of groups stands for the ranking `model`. */
    ghost predicate Valid()
      reads this
    {
      StrictTotal(lt) && Settled(Fields(), lt, model) && size == |model.stamps|
    }

    constructor (lt: (T, T) -> bool)
      requires StrictTotal(lt)
      ensures Valid() && model == Initial() && this.lt == lt
    {
      this.lt := lt;
      nodes, nextNode, priorityGroups, recycledPriorityGroups := map[], 0, [], [];
      itemToLocation, size, sortedTopGroupItems := map[], 0, None;
      model, stampOf := Initial(), map[];
    }

    method RemoveItemFromGroup(l: Location)
      requires l.group in nodes && l.index < |nodes[l.group].items|
      requires l.index != |nodes[l.group].items| - 1 ==> Tracked(itemToLocation, Last(nodes[l.group].items))
      modifies this`nodes, this`itemToLocation
      ensures nodes == old(nodes[l.group := nodes[l.group].(items := SwapPop(nodes[l.group].items, l.index))])
      ensures itemToLocation == old(SwapPopIndex(nodes, itemToLocation, l))
    {
      var items := nodes[l.group].items;
      var lastItemIndex := |items| - 1;
      if l.index != lastItemIndex {
        items := items[l.index := items[lastItemIndex]];
        var moved := itemToLocation[items[l.index]].value;
        itemToLocation := itemToLocation[items[l.index] := Some(moved.(index := l.index))];
      }
      items := items[..|items| - 1];
      nodes := nodes[l.group := nodes[l.group].(items := items)];
    }

    method AppendItemToGroup(g: nat, item: T) returns (l: Location)
      requires g in nodes
      modifies this`nodes
      ensures nodes == old(nodes[g := nodes[g].(items := nodes[g].items + [item])])
      ensures l == Location(g, |old(nodes[g].items)|)
    {
      nodes := nodes[g := nodes[g].(items := nodes[g].items + [item])];
      l := Location(g, |nodes[g].items| - 1);
    }

    /** Splices a spare node, or a newly allocated one, in at position `p`. */
    method InsertGroupAt(p: nat) returns (h: nat)
      requires p <= |priorityGroups| && Spares(nodes, priorityGroups, recycledPriorityGroups, nextNode)
      requires forall g | g in priorityGroups :: g in nodes
      modifies this`nodes, this`nextNode, this`priorityGroups, this`recycledPriorityGroups
      ensures h !in old(priorityGroups)
      ensures nodes == old(nodes)[h := Group([], None)]
      ensures priorityGroups == InsertAt(old(priorityGroups), p, h)
      ensures Spares(nodes, priorityGroups, recycledPriorityGroups, nextNode)
    {
      if recycledPriorityGroups == [] {
        h := nextNode;
        nodes, nextNode := nodes[h := Group([], None)], nextNode + 1;
      } else {
        h := recycledPriorityGroups[0];
        recycledPriorityGroups := recycledPriorityGroups[1..];
      }
      InsertAtMembers(priorityGroups, p, h);
      priorityGroups := InsertAt(priorityGroups, p, h);
    }

    method InvalidateSortedTopGroupItemsIfNeeded(g: nat)
      requires sortedTopGroupItems.Some? ==> priorityGroups != []
      modifies this`sortedTopGroupItems
      ensures sortedTopGroupItems ==
              if old(sortedTopGroupItems).Some? && priorityGroups[0] == g then None else old(sortedTopGroupItems)
    {
      if sortedTopGroupItems.Some? && priorityGroups[0] == g {
        sortedTopGroupItems := None;
      }
    }

    /** Puts the item in transit into group `h`. */
    method PlaceItem(item: T, h: nat, ghost u: Progress, ghost r: State<T>)
      requires Consistent(Fields(), lt, u, r, {item}, {h})
      requires h in priorityGroups && u.k in stampOf[h] && item !in r.removed
      modifies this`nodes, this`itemToLocation
      ensures Consistent(Fields(), lt, u, r.(stamps := r.stamps[item := stampOf[h]]), {}, {})
    {
      PlaceItemKeeps(Fields(), lt, u, r, item, h);
      var l := AppendItemToGroup(h, item);
      itemToLocation := itemToLocation[item := Some(l)];
    }

    /** Starts the group for items this update sees for the first time. */
    method OpenNewItemsGroup(ghost u: Progress, ghost r: State<T>, ghost item: T) returns (h: nat)
      requires Consistent(Fields(), lt, u, r, {item}, {}) && u.newGroup.None?
      modifies this`nodes, this`nextNode, this`priorityGroups, this`recycledPriorityGroups, this`stampOf
      ensures Consistent(Fields(), lt, u.(newGroup := Some(h)), r, {item}, {h})
    {
      ghost var s0 := Fields();
      h := InsertGroupAt(|priorityGroups|);
      assert priorityGroups == s0.order + [h];
      stampOf := stampOf[h := [u.k]];
      OpenNewItemsGroupKeeps(s0, Fields(), lt, u, r, item, h);
    }

    method AddNewItem(item: T, newGroup: Option<nat>, ghost u: Progress, ghost r: State<T>) returns (newGroup': Option<nat>)
      requires Consistent(Fields(), lt, u, r, {}, {}) && newGroup == u.newGroup && item !in itemToLocation
      modifies this`nodes, this`nextNode, this`priorityGroups, this`recycledPriorityGroups, this`itemToLocation, this`size,
               this`stampOf
      ensures Consistent(Fields(), lt, u.(newGroup := newGroup'), Touch(r, u.k, item), {}, {})
      ensures size == old(size) + 1 && item !in r.stamps && item !in r.removed
    {
      newGroup' := newGroup;
      AnnounceKeeps(Fields(), lt, u, r, item);
      if newGroup'.None? {
        var h := OpenNewItemsGroup(u, r, item);
        newGroup' := Some(h);
      }
      assert stampOf[newGroup'.value] == [] + [u.k];
      assert Touch(r, u.k, item) == r.(stamps := r.stamps[item := stampOf[newGroup'.value]]);
      PlaceItem(item, newGroup'.value, u.(newGroup := newGroup'), r);
      ghost var s := Fields();
      size := size + 1;
      assert Fields() == s;
    }

    method GetOrCreateNewGroupBefore(g: nat, splits: seq<nat>, ghost u: Progress, ghost r: State<T>, ghost item: T)
      returns (h: nat, splits': seq<nat>)
      requires Consistent(Fields(), lt, u, r, {item}, {g}) && splits == u.splits && g in priorityGroups
      requires sortedTopGroupItems.Some? ==> priorityGroups[0] != g
      modifies this`nodes, this`nextNode, this`priorityGroups, this`recycledPriorityGroups, this`stampOf
      ensures Consistent(Fields(), lt, u.(splits := splits'), r, {item}, {h})
      ensures h in priorityGroups && stampOf[h] == old(stampOf)[g] + [u.k]
    {
      if nodes[g].updated.Some? {
        return nodes[g].updated.value, splits;
      }
      ghost var s0 := Fields();
      var p := PositionOf(priorityGroups, g);
      h := InsertGroupAt(p);
      nodes := nodes[g := nodes[g].(updated := Some(h))];
      splits' := splits + [g];
      stampOf := stampOf[h := stampOf[g] + [u.k]];
      SplitKeeps(s0, Fields(), lt, u, r, item, g, h, p);
    }

    /** Takes an item out of its group `g`, which may be left empty. */
    method LiftItem(item: T, ghost u: Progress, ghost r: State<T>) returns (g: nat)
      requires Consistent(Fields(), lt, u, r, {}, {}) && Tracked(itemToLocation, item)
      modifies this`nodes, this`itemToLocation, this`sortedTopGroupItems
      ensures Consistent(Fields(), lt, u, r, {item}, {g}) && g in priorityGroups
      ensures sortedTopGroupItems.Some? ==> priorityGroups[0] != g
      ensures item in r.stamps && item !in r.removed && r.stamps[item] == stampOf[g]
    {
      var l := itemToLocation[item].value;
      g := l.group;
      LiftTrackedKeeps(Fields(), lt, u, r, item, l);
      TakeOut(l);
    }

    method TakeOut(l: Location)
      requires l.group in nodes && l.index < |nodes[l.group].items| && (sortedTopGroupItems.Some? ==> priorityGroups != [])
      requires l.index != |nodes[l.group].items| - 1 ==> Tracked(itemToLocation, Last(nodes[l.group].items))
      modifies this`nodes, this`itemToLocation, this`sortedTopGroupItems
      ensures Fields() == old(Lifted(WithoutCacheOf(Fields(), l.group), l))
    {
      InvalidateSortedTopGroupItemsIfNeeded(l.group);
      RemoveItemFromGroup(l);
    }

    method MoveToNewGroupBeforeCurrentGroup(item: T, splits: seq<nat>, ghost u: Progress, ghost r: State<T>)
      returns (splits': seq<nat>)
      requires Consistent(Fields(), lt, u, r, {}, {}) && splits == u.splits && Tracked(itemToLocation, item)
      modifies this`nodes, this`nextNode, this`priorityGroups, this`recycledPriorityGroups, this`itemToLocation,
               this`sortedTopGroupItems, this`stampOf
      ensures Consistent(Fields(), lt, u.(splits := splits'), Touch(r, u.k, item), {}, {})
      ensures item in r.stamps && item !in r.removed
    {
      var g := LiftItem(item, u, r);
      splits' := MoveBefore(item, g, splits, u, r);
    }

    /** Puts the item in transit into the group split off before `g`. */
    method MoveBefore(item: T, g: nat, splits: seq<nat>, ghost u: Progress, ghost r: State<T>) returns (splits': seq<nat>)
      requires Consistent(Fields(), lt, u, r, {item}, {g}) && splits == u.splits && g in priorityGroups
      requires sortedTopGroupItems.Some? ==> priorityGroups[0] != g
      requires item in r.stamps && item !in r.removed && r.stamps[item] == stampOf[g]
      modifies this`nodes, this`nextNode, this`priorityGroups, this`recycledPriorityGroups, this`itemToLocation, this`stampOf
      ensures Consistent(Fields(), lt, u.(splits := splits'), Touch(r, u.k, item), {}, {})
    {
      var h;
      h, splits' := GetOrCreateNewGroupBefore(g, splits, u, r, item);
      TouchKnown(r, u.k, item);
      PlaceItem(item, h, u.(splits := splits'), r);
    }

    method EraseGroupIfEmpty(g: nat, ghost k: nat, ghost r: State<T>, ghost rest: seq<nat>)
      requires Grounded(Fields(), lt, k, r, {}, rest, {g}) && g in priorityGroups && nodes[g].updated.None?
      modifies this`priorityGroups, this`recycledPriorityGroups, this`sortedTopGroupItems
      ensures Grounded(Fields(), lt, k, r, {}, rest, {})
      ensures forall f | f in priorityGroups :: f in old(priorityGroups)
    {
      if nodes[g].items == [] {
        ghost var s0 := Fields();
        InvalidateSortedTopGroupItemsIfNeeded(g);
        var p := PositionOf(priorityGroups, g);
        priorityGroups, recycledPriorityGroups := DeleteAt(priorityGroups, p), recycledPriorityGroups + [g];
        EraseKeeps(s0, Fields(), lt, k, r, rest, g, p);
      }
    }

    method FinishGroupSplits(splits: seq<nat>, ghost k: nat, ghost r: State<T>)
      requires Grounded(Fields(), lt, k, r, {}, splits, {}) && r.count == k + 1
      modifies this`nodes, this`priorityGroups, this`recycledPriorityGroups, this`sortedTopGroupItems
      ensures Settled(Fields(), lt, r)
    {
      for i := 0 to |splits|
        invariant Grounded(Fields(), lt, k, r, {}, splits[i..], {})
      {
        var g := splits[i];
        assert splits[i..] == [g] + splits[i + 1..];
        ResetLinkKeeps(Fields(), lt, k, r, splits[i + 1..], g);
        nodes := nodes[g := nodes[g].(updated := None)];
        EraseGroupIfEmpty(g, k, r, splits[i + 1..]);
      }
      FinishKeeps(Fields(), lt, r, k);
    }

    /** One round of the item loop. */
    method UpdateItem(item: T, newGroup: Option<nat>, splits: seq<nat>, ghost k: nat, ghost r: State<T>)
      returns (newGroup': Option<nat>, splits': seq<nat>)
      requires Consistent(Fields(), lt, Progress(k, newGroup, splits), r, {}, {}) && size == |r.stamps|
      modifies this`nodes, this`nextNode, this`priorityGroups, this`recycledPriorityGroups, this`itemToLocation, this`size,
               this`sortedTopGroupItems, this`stampOf
      ensures Consistent(Fields(), lt, Progress(k, newGroup', splits'), Touch(r, k, item), {}, {})
      ensures size == |Touch(r, k, item).stamps|
    {
      newGroup', splits' := newGroup, splits;
      TouchSize(r, k, item);
      if item !in itemToLocation {
        newGroup' := AddNewItem(item, newGroup, Progress(k, newGroup, splits), r);
      } else if itemToLocation[item].Some? {
        splits' := MoveToNewGroupBeforeCurrentGroup(item, splits, Progress(k, newGroup, splits), r);
      }
    }

    /** The item loop of update number `k`. */
    method UpdateItems(items: seq<T>, ghost k: nat, ghost r: State<T>) returns (splitSourceGroups: seq<nat>)
      requires Consistent(Fields(), lt, Progress(k, None, []), r, {}, {}) && size == |r.stamps|
      modifies this`nodes, this`nextNode, this`priorityGroups, this`recycledPriorityGroups, this`itemToLocation, this`size,
               this`sortedTopGroupItems, this`stampOf
      ensures Grounded(Fields(), lt, k, TouchAll(r, k, items), {}, splitSourceGroups, {})
      ensures size == |TouchAll(r, k, items).stamps|
    {
      var newItemsGroup: Option<nat> := None;
      splitSourceGroups := [];
      ghost var done := r;
      for i := 0 to |items|
        invariant done == TouchAll(r, k, items[..i]) && size == |done.stamps|
        invariant Consistent(Fields(), lt, Progress(k, newItemsGroup, splitSourceGroups), done, {}, {})
      {
        newItemsGroup, splitSourceGroups := UpdateItem(items[i], newItemsGroup, splitSourceGroups, k, done);
        TouchOneMore(r, k, items, i);
        done := Touch(done, k, items[i]);
      }
      assert items[..|items|] == items;
    }

    method Update(items: seq<T>)
      requires Valid()
      modifies this
      ensures Valid() && model == Ranking.Update(old(model), items)
    {
      ghost var r := model.(count := model.count + 1);
      StartKeeps(Fields(), lt, model);
      TouchAllCount(r, model.count, items);
      var splitSourceGroups := UpdateItems(items, model.count, r);
      FinishGroupSplits(splitSourceGroups, model.count, TouchAll(r, model.count, items));
      ghost var s := Fields();
      model := Ranking.Update(model, items);
      assert Fields() == s;
    }

    method UpdateSortedTopGroupItemsAfterRemoval(g: nat, item: T)
      requires priorityGroups != [] && (sortedTopGroupItems.Some? && priorityGroups[0] == g ==> sortedTopGroupItems.value != [])
      modifies this`sortedTopGroupItems
      ensures sortedTopGroupItems == CacheAfterRemoval(old(sortedTopGroupItems), priorityGroups[0], g, item)
    {
      if sortedTopGroupItems.None? || g != priorityGroups[0] {
        return;
      }
      var items := sortedTopGroupItems.value;
      if items[|items| - 1] == item {
        sortedTopGroupItems := Some(items[..|items| - 1]);
      } else {
        sortedTopGroupItems := None;
      }
    }

    /** The edits of remove() before the group itself is looked at. */
    method DetachItem(item: T, l: Location)
      requires l.group in nodes && l.index < |nodes[l.group].items| && priorityGroups != []
      requires l.index != |nodes[l.group].items| - 1 ==> Tracked(itemToLocation[item := None], Last(nodes[l.group].items))
      requires sortedTopGroupItems.Some? && priorityGroups[0] == l.group ==> sortedTopGroupItems.value != []
      modifies this`nodes, this`itemToLocation, this`sortedTopGroupItems
      ensures Fields() == old(Detached(Fields(), item, l))
    {
      itemToLocation := itemToLocation[item := None];
      UpdateSortedTopGroupItemsAfterRemoval(l.group, item);
      RemoveItemFromGroup(l);
    }

    method RemoveFromGroups(item: T, l: Location, ghost r: State<T>, ghost r': State<T>)
      requires Settled(Fields(), lt, r) && item in itemToLocation && itemToLocation[item] == Some(l) && r' == Ranking.Remove(r, item)
      modifies this`nodes, this`itemToLocation, this`sortedTopGroupItems, this`priorityGroups, this`recycledPriorityGroups
      ensures Settled(Fields(), lt, r') && item in r.stamps
    {
      RemoveKeeps(Fields(), lt, r, item, l);
      DetachItem(item, l);
      EraseGroupIfEmpty(l.group, r.count, r', []);
    }

    /** Remembers an item never seen so far as removed. */
    method Ban(item: T, ghost r: State<T>)
      requires Settled(Fields(), lt, r) && item !in itemToLocation
      modifies this`itemToLocation
      ensures Settled(Fields(), lt, Ranking.Remove(r, item)) && item !in r.stamps
    {
      ghost var s := Fields();
      BanKeeps(s, lt, r, item);
      itemToLocation := itemToLocation[item := None];
      assert Fields() == s.(loc := s.loc[item := None]);
    }

    /** Takes the item off the list for good; says whether it was there. */
    method Forget(item: T, ghost r: State<T>, ghost r': State<T>) returns (located: bool)
      requires Settled(Fields(), lt, r) && r' == Ranking.Remove(r, item)
      modifies this`nodes, this`itemToLocation, this`sortedTopGroupItems, this`priorityGroups, this`recycledPriorityGroups
      ensures Settled(Fields(), lt, r') && (located <==> item in r.stamps)
    {
      if item !in itemToLocation {
        located := false;
        Ban(item, r);
      } else if itemToLocation[item].None? {
        located := false;
        RemoveSize(r, item);
      } else {
        located := true;
        RemoveFromGroups(item, itemToLocation[item].value, r, r');
      }
    }

    /** Removing an item is permanent: later updates ignore it. */
    method Remove(item: T)
      requires Valid()
      modifies this
      ensures Valid() && model == Ranking.Remove(old(model), item)
    {
      ghost var r := Ranking.Remove(model, item);
      var located := Forget(item, model, r);
      SizeAfter(model, item, located, size);
      Count(located, r);
    }

    /** The size and the ranking after a removal. */
    method Count(located: bool, ghost r: State<T>)
      requires size == |r.stamps| + if located then 1 else 0
      modifies this`size, this`model
      ensures Fields() == old(Fields()) && model == r && size == |r.stamps|
    {
      if located {
        size := size - 1;
      }
      model := r;
    }

    /** The best item of the top group; sorts a copy of the group on first use. */
    method BestItemInTopGroup() returns (x: T)
      requires Valid() && priorityGroups != [] && priorityGroups[0] in nodes && nodes[priorityGroups[0]].items != []
      modifies this`sortedTopGroupItems
      ensures Valid() && x in nodes[priorityGroups[0]].items
      ensures forall y | y in nodes[priorityGroups[0]].items :: !lt(y, x)
    {
      var items := nodes[priorityGroups[0]].items;
      if |items| == 1 {
        return items[0];
      }
      if sortedTopGroupItems.None? {
        SortTopGroup();
      }
      var sorted := sortedTopGroupItems.value;
      LastIsLeast(lt, sorted, items);
      x := sorted[|sorted| - 1];
    }

    method SortTopGroup()
      requires Valid() && priorityGroups != [] && priorityGroups[0] in nodes
      modifies this`sortedTopGroupItems
      ensures Valid() && sortedTopGroupItems.Some?
    {
      var items := nodes[priorityGroups[0]].items;
      SortDescendingSorts(lt, items);
      SetCacheKeeps(Fields(), lt, model, SortDescending(lt, items));
      sortedTopGroupItems := Some(SortDescending(lt, items));
    }

    /** None stands for the exception thrown on an empty queue. */
    method Top() returns (r: Option<T>)
      requires Valid()
      modifies this`sortedTopGroupItems
      ensures Valid() && (r.None? <==> |model.stamps| == 0)
      ensures r.Some? ==> IsTop(lt, model.stamps, r.value)
    {
      TopGroupExists(Fields(), lt, model);
      if size == 0 {
        return None;
      }
      var x := BestItemInTopGroup();
      TopOfTopGroup(Fields(), lt, model, x);
      r := Some(x);
    }

    method IsTopStrict() returns (r: Option<bool>)
      requires Valid()
      ensures r.None? <==> |model.stamps| == 0
      ensures r.Some? ==> exists x :: IsTop(lt, model.stamps, x) && (r.value <==> TopIsStrict(model.stamps, x))
    {
      TopGroupExists(Fields(), lt, model);
      if size == 0 {
        return None;
      }
      ghost var items := nodes[priorityGroups[0]].items;
      SortDescendingSorts(lt, items);
      ghost var sorted := SortDescending(lt, items);
      LastIsLeast(lt, sorted, items);
      TopOfTopGroup(Fields(), lt, model, Last(sorted));
      r := Some(|nodes[priorityGroups[0]].items| == 1);
    }
  }
}
