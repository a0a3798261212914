/**
 * AssociativeHybridMap: the keys known up front live in an AssociativeFixedMap,
 * all others in an AssociativeMap.  Removing a fixed key stores the neutral
 * element, which no query can tell from an absent key.
 */
module HybridMap {
  import opened Collections
  import opened Monoids
  import Fixed = FixedMap
  import Avl = AvlMap

  // ---- sorted items as maps ----

  ghost predicate KeysAscend<V>(items: seq<(int, V)>) {
    forall i, j | 0 <= i < j < |items| :: items[i].0 < items[j].0
  }

  function MapOf<V>(items: seq<(int, V)>): map<int, V> {
    if items == [] then map[] else MapOf(items[1..])[items[0].0 := items[0].1]
  }

  lemma {:induction false} MapOfLookup<V>(items: seq<(int, V)>)
    requires KeysAscend(items)
    ensures forall i | 0 <= i < |items| :: items[i].0 in MapOf(items) && MapOf(items)[items[i].0] == items[i].1
    ensures forall k | k in MapOf(items) :: Fixed.HasKey(items, k)
  {
    if items != [] {
      MapOfLookup(items[1..]);
      forall k | k in MapOf(items) ensures Fixed.HasKey(items, k) {
        if k == items[0].0 {
        } else {
          assert Fixed.HasKey(items[1..], k);
          var j :| 0 <= j < |items[1..]| && items[1..][j].0 == k;
          assert items[j + 1].0 == k;
        }
      }
      forall i | 0 <= i < |items| ensures items[i].0 in MapOf(items) && MapOf(items)[items[i].0] == items[i].1 {
        if i > 0 { assert items[1..][i - 1] == items[i]; }
      }
    }
  }

  /** Folding sorted items in order is folding the map they form. */
  lemma DropFirst<V>(items: seq<(int, V)>)
    requires KeysAscend(items) && items != []
    ensures items[0].0 in MapOf(items) && MapOf(items)[items[0].0] == items[0].1
    ensures MapOf(items) - {items[0].0} == MapOf(items[1..])
  {
    MapOfLookup(items);
    MapOfLookup(items[1..]);
    assert items[0].0 !in MapOf(items[1..]);
    SameMap(MapOf(items) - {items[0].0}, MapOf(items[1..]));
  }

  lemma {:induction false} FoldSortedItems<V>(m: Monoid<V>, items: seq<(int, V)>)
    requires KeysAscend(items)
    ensures Fold(m, Fixed.Values(items)) == FoldMap(m, MapOf(items))
  {
    if items != [] {
      FoldSortedItems(m, items[1..]);
      LeastIsFirst(items);
      DropFirst(items);
      assert Fixed.Values(items)[1..] == Fixed.Values(items[1..]);
    }
  }

  lemma LeastIsFirst<V>(items: seq<(int, V)>)
    requires KeysAscend(items) && items != []
    ensures MapOf(items).Keys != {} && Least(MapOf(items).Keys) == items[0].0
  {
    MapOfLookup(items);
    var k := Least(MapOf(items).Keys);
    assert Fixed.HasKey(items, k);
  }

  lemma {:induction false} PrefixAscends<V>(items: seq<(int, V)>, key: int, strict: bool)
    requires KeysAscend(items)
    ensures KeysAscend(Fixed.Prefix(items, key, strict))
    ensures forall p | p in Fixed.Prefix(items, key, strict) :: p in items
  {
    if items != [] {
      PrefixAscends(items[1..], key, strict);
      var rest := Fixed.Prefix(items[1..], key, strict);
      forall j | 0 <= j < |rest| ensures items[0].0 < rest[j].0 {
        assert rest[j] in rest;
        assert rest[j] in items[1..];
      }
    }
  }

  lemma BelowInserted<V>(kv: map<int, V>, k: int, v: V, key: int, strict: bool)
    requires k !in kv
    ensures Below(kv[k := v], key, strict) ==
            if Fixed.Within(k, key, strict) then Below(kv, key, strict)[k := v] else Below(kv, key, strict)
  {
    var a, b := Below(kv[k := v], key, strict),
                if Fixed.Within(k, key, strict) then Below(kv, key, strict)[k := v] else Below(kv, key, strict);
    assert a.Keys == b.Keys;
    SameMap(a, b);
  }

  lemma {:induction false} PrefixMap<V>(items: seq<(int, V)>, key: int, strict: bool)
    requires KeysAscend(items)
    ensures MapOf(Fixed.Prefix(items, key, strict)) == Below(MapOf(items), key, strict)
  {
    if items == [] {
      assert Below(MapOf(items), key, strict).Keys == {};
    } else {
      var rest := Fixed.Prefix(items[1..], key, strict);
      PrefixMap(items[1..], key, strict);
      FirstIsNew(items);
      BelowInserted(MapOf(items[1..]), items[0].0, items[0].1, key, strict);
      if Fixed.Within(items[0].0, key, strict) {
        assert ([items[0]] + rest)[1..] == rest;
      } else {
        assert [] + rest == rest;
      }
    }
  }

  lemma FirstIsNew<V>(items: seq<(int, V)>)
    requires KeysAscend(items) && items != []
    ensures items[0].0 !in MapOf(items[1..])
  {
    MapOfLookup(items[1..]);
  }

  lemma {:induction false} MapOfUpdated<V>(items: seq<(int, V)>, j: nat, value: V)
    requires KeysAscend(items) && j < |items|
    ensures KeysAscend(items[j := (items[j].0, value)])
    ensures MapOf(items[j := (items[j].0, value)]) == MapOf(items)[items[j].0 := value]
  {
    var after := items[j := (items[j].0, value)];
    if j > 0 {
      assert after[1..] == items[1..][j - 1 := (items[j].0, value)];
      MapOfUpdated(items[1..], j - 1, value);
      assert items[0].0 < items[j].0;
      SwapUpdates(MapOf(items[1..]), items[0].0, items[0].1, items[j].0, value);
    } else {
      assert after[1..] == items[1..];
    }
  }

  lemma SwapUpdates<V>(kv: map<int, V>, k: int, v: V, l: int, w: V)
    requires k != l
    ensures kv[k := v][l := w] == kv[l := w][k := v]
  {
    SameMap(kv[k := v][l := w], kv[l := w][k := v]);
  }

  lemma MapOfReplaced<V>(before: seq<(int, V)>, after: seq<(int, V)>, key: int, value: V)
    requires KeysAscend(before) && Fixed.Replaced(before, after, key, value)
    ensures KeysAscend(after) && MapOf(after) == MapOf(before)[key := value]
  {
    var j :| 0 <= j < |before| && before[j].0 == key && after == before[j := (key, value)];
    MapOfUpdated(before, j, value);
  }

  /** No key is listed twice. */
  ghost predicate KeysDiffer<V>(items: seq<(int, V)>) {
    forall i, j | 0 <= i < j < |items| :: items[i].0 != items[j].0
  }

  lemma {:induction false} InsertAscends<V>(less: (V, V) -> bool, s: seq<(int, V)>, x: (int, V))
    requires KeysAscend(s) && !Fixed.HasKey(s, x.0)
    ensures KeysAscend(Fixed.InsertPair(less, s, x)) && MapOf(Fixed.InsertPair(less, s, x)) == MapOf(s)[x.0 := x.1]
  {
    if s == [] {
      assert [x][1..] == [] && [x] + s == [x];
    } else if Fixed.PairLe(less, x, s[0]) {
      assert ([x] + s)[1..] == s;
    } else {
      assert forall j | 0 <= j < |s[1..]| :: s[1..][j].0 == s[j + 1].0;
      InsertAscends(less, s[1..], x);
      var t := Fixed.InsertPair(less, s[1..], x);
      assert ([s[0]] + t)[1..] == t;
      SwapUpdates(MapOf(s[1..]), s[0].0, s[0].1, x.0, x.1);
      forall j | 0 <= j < |t| ensures s[0].0 < t[j].0 {
        Fixed.InsertedMember(less, s[1..], x, t[j]);
      }
    }
  }

  lemma {:induction false} SortAscends<V>(less: (V, V) -> bool, items: seq<(int, V)>)
    requires KeysDiffer(items)
    ensures KeysAscend(Fixed.SortPairs(less, items)) && MapOf(Fixed.SortPairs(less, items)) == MapOf(items)
  {
    if items != [] {
      SortAscends(less, items[1..]);
      var s := Fixed.SortPairs(less, items[1..]);
      forall j | 0 <= j < |s| ensures s[j].0 != items[0].0 {
        Fixed.SortPairsSorts(less, items[1..]);
        assert s[j] in multiset(s);
        assert s[j] in items[1..];
      }
      InsertAscends(less, s, items[0]);
    }
  }

  // ---- neutral entries ----

  /** `stored` is `plain` with, besides, some keys that hold the neutral element. */
  ghost predicate Padded<V>(m: Monoid<V>, stored: map<int, V>, plain: map<int, V>) {
    && plain.Keys <= stored.Keys
    && (forall k | k in stored :: stored[k] == if k in plain then plain[k] else m.neutral)
  }

  lemma {:induction false} PaddingUnseen<V(!new)>(m: Monoid<V>, stored: map<int, V>, plain: map<int, V>)
    requires IsCommutativeMonoid(m) && Padded(m, stored, plain)
    ensures FoldMap(m, stored) == FoldMap(m, plain)
    decreases |stored|
  {
    if stored.Keys == plain.Keys {
      forall k | k in stored ensures stored[k] == plain[k] {
        assert k in plain.Keys;
      }
      SameMap(stored, plain);
    } else {
      var k := AnyBeyond(stored.Keys, plain.Keys);
      FoldMapTake(m, stored, k);
      assert (stored - {k}).Keys == stored.Keys - {k};
      PaddingUnseen(m, stored - {k}, plain);
    }
  }

  lemma PaddingBelow<V>(m: Monoid<V>, stored: map<int, V>, plain: map<int, V>, key: int, strict: bool)
    requires Padded(m, stored, plain)
    ensures Padded(m, Below(stored, key, strict), Below(plain, key, strict))
  {
  }

  /** An update of the stored map is an update of the plain one. */
  lemma PaddedUpdate<V>(m: Monoid<V>, stored: map<int, V>, plain: map<int, V>, key: int, value: V)
    requires Padded(m, stored, plain)
    ensures Padded(m, stored[key := value], plain[key := value])
  {
  }

  lemma PaddedRemove<V>(m: Monoid<V>, stored: map<int, V>, plain: map<int, V>, key: int)
    requires Padded(m, stored, plain)
    ensures key in stored ==> Padded(m, stored[key := m.neutral], plain - {key})
    ensures key !in stored ==> plain - {key} == plain
    ensures Padded(m, stored - {key}, plain - {key})
  {
    if key !in stored { SameMap(plain - {key}, plain); }
  }

  /** Both sides hold what the plain map says, each key on one side only. */
  ghost predicate Halves<V>(m: Monoid<V>, items: seq<(int, V)>, over: map<int, V>, plain: map<int, V>) {
    && KeysAscend(items) && (forall k | k in over :: !Fixed.HasKey(items, k)) && Padded(m, MapOf(items) + over, plain)
  }

  /** Where a value is stored: over a fixed key, or beside the fixed keys. */
  ghost predicate StoredAt<V>(items: seq<(int, V)>, items': seq<(int, V)>, over: map<int, V>, over': map<int, V>, key: int, value: V) {
    if Fixed.HasKey(items, key) then Fixed.Replaced(items, items', key, value) && over' == over
    else items' == items && over' == over[key := value]
  }

  class AssociativeHybridMap<V(!new)> {
    const m: Monoid<V>
    const fixed: Fixed.AssociativeFixedMap<V>
    const overflow: Avl.AssociativeMap<V>
    /** The key-value map that the calls so far describe. */
    ghost var plain: map<int, V>

    /** What every call keeps, also after an Init with repeated keys. */
    ghost predicate Sound()
      reads this, fixed, overflow
    {
      fixed.Valid() && overflow.Valid() && fixed.m == m == overflow.m
    }

    /** Initialized without repeated keys; every key is stored on one side only. */
    ghost predicate Valid()
      reads this, fixed, overflow
    {
      Sound() && Halves(m, fixed.Items(), overflow.Values(), plain)
    }

    constructor (m: Monoid<V>, less: (V, V) -> bool)
      ensures Valid() && plain == map[] && fresh(fixed) && fresh(overflow) && this.m == m && fixed.less == less
    {
      this.m, plain := m, map[];
      fixed := new Fixed.AssociativeFixedMap<V>(m, less);
      overflow := new Avl.AssociativeMap<V>(m);
    }

    method Init(items: seq<(int, V)>)
      requires Sound()
      modifies this, fixed, overflow
      ensures Sound() && plain == MapOf(items) && fixed.Items() == Fixed.SortPairs(fixed.less, items) && overflow.Values() == map[]
      ensures KeysDiffer(items) ==> Valid()
    {
      fixed.Init(items);
      overflow.Clear();
      plain := MapOf(items);
      if KeysDiffer(items) {
        InitHalves(m, fixed.less, items);
      }
    }

    method Update(key: int, value: V)
      requires Sound()
      modifies this, fixed, overflow
      ensures Sound() && plain == old(plain)[key := value]
      ensures StoredAt(old(fixed.Items()), fixed.Items(), old(overflow.Values()), overflow.Values(), key, value)
      ensures old(Valid()) ==> Valid()
    {
      ghost var items, over, was, valid := fixed.Items(), overflow.Values(), plain, Valid();
      var known := fixed.Count(key);
      if known != 0 {
        var found := fixed.Update(key, value);
      } else {
        overflow.Update(key, value);
      }
      plain := plain[key := value];
      if valid { UpdateKeeps(m, items, fixed.Items(), over, overflow.Values(), was, key, value); }
    }

    method Remove(key: int)
      requires Sound()
      modifies this, fixed, overflow
      ensures Sound() && plain == old(plain) - {key}
      ensures if Fixed.HasKey(old(fixed.Items()), key)
              then Fixed.Replaced(old(fixed.Items()), fixed.Items(), key, m.neutral) && overflow.Values() == old(overflow.Values())
              else fixed.Items() == old(fixed.Items()) && overflow.Values() == old(overflow.Values()) - {key}
      ensures old(Valid()) ==> Valid()
    {
      ghost var items, over, was, valid := fixed.Items(), overflow.Values(), plain, Valid();
      var known := fixed.Count(key);
      if known != 0 {
        var found := fixed.Update(key, m.neutral);
      } else {
        overflow.Remove(key);
      }
      plain := plain - {key};
      if valid { RemoveKeeps(m, items, fixed.Items(), over, overflow.Values(), was, key); }
    }

    method Query() returns (r: V)
      requires Sound()
      ensures IsCommutativeMonoid(m) ==> r == m.op(Fold(m, Fixed.Values(fixed.Items())), FoldMap(m, overflow.Values()))
      ensures IsCommutativeMonoid(m) && Valid() ==> r == FoldMap(m, plain)
    {
      var f := fixed.Query();
      var o := overflow.Query();
      r := m.op(f, o);
      if IsCommutativeMonoid(m) && Valid() { BothSides(m, fixed.Items(), overflow.Values(), plain); }
    }

    /** query_lt when `strict`, query_le otherwise. */
    method QueryBelow(key: int, strict: bool) returns (r: V)
      requires Sound()
      ensures IsCommutativeMonoid(m) ==>
                r == m.op(Fold(m, Fixed.Values(Fixed.Prefix(fixed.Items(), key, strict))), FoldMap(m, Below(overflow.Values(), key, strict)))
      ensures IsCommutativeMonoid(m) && Valid() ==> r == FoldMap(m, Below(plain, key, strict))
    {
      var f := fixed.QueryBelow(key, strict);
      var o := overflow.QueryBelow(key, strict);
      r := m.op(f, o);
      if IsCommutativeMonoid(m) && Valid() { BothSidesBelow(m, fixed.Items(), overflow.Values(), plain, key, strict); }
    }
  }

  lemma FixedKeys<V>(items: seq<(int, V)>, over: map<int, V>, key: int)
    requires KeysAscend(items) && forall k | k in over :: !Fixed.HasKey(items, k)
    ensures Fixed.HasKey(items, key) <==> key in MapOf(items)
    ensures MapOf(items).Keys !! over.Keys
  {
    MapOfLookup(items);
    forall k | k in over.Keys ensures k !in MapOf(items).Keys {
    }
  }

  lemma InitHalves<V>(m: Monoid<V>, less: (V, V) -> bool, items: seq<(int, V)>)
    requires KeysDiffer(items)
    ensures Halves(m, Fixed.SortPairs(less, items), map[], MapOf(items))
  {
    SortAscends(less, items);
    assert MapOf(items) + map[] == MapOf(items);
  }

  lemma UpdateKeeps<V>(m: Monoid<V>, items: seq<(int, V)>, items': seq<(int, V)>, over: map<int, V>, over': map<int, V>,
                       plain: map<int, V>, key: int, value: V)
    requires Halves(m, items, over, plain) && StoredAt(items, items', over, over', key, value)
    ensures Halves(m, items', over', plain[key := value])
  {
    FixedKeys(items, over, key);
    PaddedUpdate(m, MapOf(items) + over, plain, key, value);
    if Fixed.HasKey(items, key) {
      MapOfReplaced(items, items', key, value);
      SameKeys(items, items', key, value);
      SameMap(MapOf(items)[key := value] + over, (MapOf(items) + over)[key := value]);
    } else {
      SameMap(MapOf(items) + over[key := value], (MapOf(items) + over)[key := value]);
    }
  }

  lemma RemoveKeeps<V>(m: Monoid<V>, items: seq<(int, V)>, items': seq<(int, V)>, over: map<int, V>, over': map<int, V>,
                       plain: map<int, V>, key: int)
    requires Halves(m, items, over, plain)
    requires if Fixed.HasKey(items, key) then Fixed.Replaced(items, items', key, m.neutral) && over' == over
             else items' == items && over' == over - {key}
    ensures Halves(m, items', over', plain - {key})
  {
    FixedKeys(items, over, key);
    PaddedRemove(m, MapOf(items) + over, plain, key);
    if Fixed.HasKey(items, key) {
      MapOfReplaced(items, items', key, m.neutral);
      SameKeys(items, items', key, m.neutral);
      SameMap(MapOf(items)[key := m.neutral] + over, (MapOf(items) + over)[key := m.neutral]);
    } else {
      SameMap(MapOf(items) + (over - {key}), (MapOf(items) + over) - {key});
    }
  }

  /** Combining the two sides is folding the plain map. */
  lemma BothSides<V(!new)>(m: Monoid<V>, items: seq<(int, V)>, over: map<int, V>, plain: map<int, V>)
    requires IsCommutativeMonoid(m) && Halves(m, items, over, plain)
    ensures m.op(Fold(m, Fixed.Values(items)), FoldMap(m, over)) == FoldMap(m, plain)
  {
    FixedKeys(items, over, 0);
    FoldSortedItems(m, items);
    FoldMapUnion(m, MapOf(items), over);
    PaddingUnseen(m, MapOf(items) + over, plain);
  }

  lemma BothSidesBelow<V(!new)>(m: Monoid<V>, items: seq<(int, V)>, over: map<int, V>, plain: map<int, V>, key: int, strict: bool)
    requires IsCommutativeMonoid(m) && Halves(m, items, over, plain)
    ensures m.op(Fold(m, Fixed.Values(Fixed.Prefix(items, key, strict))), FoldMap(m, Below(over, key, strict)))
            == FoldMap(m, Below(plain, key, strict))
  {
    PrefixHalves(m, items, over, plain, key, strict);
    BothSides(m, Fixed.Prefix(items, key, strict), Below(over, key, strict), Below(plain, key, strict));
  }

  lemma PrefixHalves<V>(m: Monoid<V>, items: seq<(int, V)>, over: map<int, V>, plain: map<int, V>, key: int, strict: bool)
    requires Halves(m, items, over, plain)
    ensures Halves(m, Fixed.Prefix(items, key, strict), Below(over, key, strict), Below(plain, key, strict))
  {
    var front := Fixed.Prefix(items, key, strict);
    PrefixAscends(items, key, strict);
    PrefixMap(items, key, strict);
    BelowUnion(MapOf(items), over, key, strict);
    PaddingBelow(m, MapOf(items) + over, plain, key, strict);
    forall k | k in Below(over, key, strict) ensures !Fixed.HasKey(front, k) {
      if j :| 0 <= j < |front| && front[j].0 == k { MemberHasKey(items, front[j]); }
    }
  }

  lemma MemberHasKey<V>(items: seq<(int, V)>, p: (int, V))
    requires p in items
    ensures Fixed.HasKey(items, p.0)
  {
    var i :| 0 <= i < |items| && items[i] == p;
  }

  lemma SameKeys<V>(before: seq<(int, V)>, after: seq<(int, V)>, key: int, value: V)
    requires Fixed.Replaced(before, after, key, value)
    ensures forall k :: Fixed.HasKey(after, k) <==> Fixed.HasKey(before, k)
  {
    var j :| 0 <= j < |before| && before[j].0 == key && after == before[j := (key, value)];
    assert forall i | 0 <= i < |before| :: after[i].0 == before[i].0;
  }

  lemma BelowUnion<V>(a: map<int, V>, b: map<int, V>, key: int, strict: bool)
    ensures Below(a + b, key, strict) == Below(a, key, strict) + Below(b, key, strict)
  {
    var x, y := Below(a + b, key, strict), Below(a, key, strict) + Below(b, key, strict);
    assert x.Keys == y.Keys;
    forall k | k in x ensures x[k] == y[k] { }
    SameMap(x, y);
  }

  // ---- repeated keys ----

  function Zip<V>(keys: seq<int>, values: seq<V>): (items: seq<(int, V)>)
    requires |keys| == |values|
    ensures |items| == |keys| && forall i | 0 <= i < |keys| :: items[i] == (keys[i], values[i])
  {
    seq(|keys|, i requires 0 <= i < |keys| => (keys[i], values[i]))
  }

  /** What a query right after Init returns. */
  ghost function InitQuery<V>(m: Monoid<V>, less: (V, V) -> bool, items: seq<(int, V)>): V {
    m.op(Fold(m, Fixed.Values(Fixed.SortPairs(less, items))), FoldMap(m, map[]))
  }

  /** `pick` says for every key which of its listings counts. */
  ghost predicate Picks(pick: map<int, nat>, keys: seq<int>) {
    (forall k | k in pick :: pick[k] < |keys| && keys[pick[k]] == k) && (forall i | 0 <= i < |keys| :: keys[i] in pick)
  }

  ghost function Picked<V>(pick: map<int, nat>, keys: seq<int>, values: seq<V>): map<int, V>
    requires Picks(pick, keys) && |values| == |keys|
  {
    map k | k in pick :: values[pick[k]]
  }

  ghost predicate QueriesPicked<V>(m: Monoid<V>, less: (V, V) -> bool, keys: seq<int>, pick: map<int, nat>, values: seq<V>)
    requires Picks(pick, keys) && |values| == |keys|
  {
    InitQuery(m, less, Zip(keys, values)) == FoldMap(m, Picked(pick, keys, values))
  }

  lemma PickedIsMap<V>(less: (V, V) -> bool, keys: seq<int>, pick: map<int, nat>, values: seq<V>)
    requires Picks(pick, keys) && |values| == |keys| && NoRepeats(keys)
    ensures KeysAscend(Fixed.SortPairs(less, Zip(keys, values)))
    ensures MapOf(Fixed.SortPairs(less, Zip(keys, values))) == Picked(pick, keys, values)
  {
    var items := Zip(keys, values);
    var sorted, picked := Fixed.SortPairs(less, items), Picked(pick, keys, values);
    SortAscends(less, items);
    Fixed.SortPairsSorts(less, items);
    forall k | k in picked ensures k in MapOf(sorted) && MapOf(sorted)[k] == picked[k] {
      assert items[pick[k]] == (k, picked[k]);
      MemberMapped(items, sorted, (k, picked[k]));
    }
    forall k | k in MapOf(sorted) ensures k in picked {
      MappedMember(items, sorted, k);
      var i :| 0 <= i < |items| && items[i].0 == k;
      assert keys[i] == k;
    }
    SameMap(MapOf(sorted), picked);
  }

  lemma MemberMapped<V>(items: seq<(int, V)>, sorted: seq<(int, V)>, p: (int, V))
    requires multiset(items) == multiset(sorted) && KeysAscend(sorted) && p in items
    ensures p.0 in MapOf(sorted) && MapOf(sorted)[p.0] == p.1
  {
    assert p in multiset(sorted);
    MapOfLookup(sorted);
    var j :| 0 <= j < |sorted| && sorted[j] == p;
  }

  lemma MappedMember<V>(items: seq<(int, V)>, sorted: seq<(int, V)>, k: int)
    requires multiset(items) == multiset(sorted) && KeysAscend(sorted) && k in MapOf(sorted)
    ensures Fixed.HasKey(items, k)
  {
    MapOfLookup(sorted);
    assert Fixed.HasKey(sorted, k);
    var j :| 0 <= j < |sorted| && sorted[j].0 == k;
    assert sorted[j] in multiset(sorted);
    assert sorted[j] in multiset(items);
    MemberHasKey(items, sorted[j]);
  }

  lemma {:induction false} FoldNeutral<V(!new)>(m: Monoid<V>, s: seq<V>)
    requires HasNeutral(m) && forall i | 0 <= i < |s| :: s[i] == m.neutral
    ensures Fold(m, s) == m.neutral
  {
    if s != [] { FoldNeutral(m, s[1..]); }
  }

  /** One value among neutral ones. */
  lemma FoldOne<V(!new)>(m: Monoid<V>, s: seq<V>, h: nat)
    requires IsMonoid(m) && h < |s| && forall i | 0 <= i < |s| && i != h :: s[i] == m.neutral
    ensures Fold(m, s) == s[h]
  {
    assert s == s[..h] + ([s[h]] + s[h + 1..]);
    FoldConcat(m, s[..h], [s[h]] + s[h + 1..]);
    FoldConcat(m, [s[h]], s[h + 1..]);
    FoldSingle(m, s[h]);
    FoldNeutral(m, s[..h]);
    FoldNeutral(m, s[h + 1..]);
  }

  lemma SortedFold<V(!new)>(m: Monoid<V>, less: (V, V) -> bool, keys: seq<int>, values: seq<V>)
    requires IsCommutativeMonoid(m) && |keys| == |values|
    ensures InitQuery(m, less, Zip(keys, values)) == Fold(m, values)
  {
    var items := Zip(keys, values);
    var sorted, second := Fixed.SortPairs(less, items), (p: (int, V)) => p.1;
    Fixed.SortPairsSorts(less, items);
    MappedPermuted(second, sorted, items);
    assert Mapped(second, sorted) == Fixed.Values(sorted) && Mapped(second, items) == values;
    FoldPermuted(m, Fixed.Values(sorted), values);
  }

  /** A listing that does not count is still in the query. */
  lemma ExtraListing<V(!new)>(m: Monoid<V>, less: (V, V) -> bool, keys: seq<int>, pick: map<int, nat>, h: nat, a: V)
    requires IsCommutativeMonoid(m) && a != m.neutral && Picks(pick, keys)
    requires h < |keys| && forall k | k in pick :: pick[k] != h
    ensures !QueriesPicked(m, less, keys, pick, seq(|keys|, i => if i == h then a else m.neutral))
  {
    var values := seq(|keys|, i => if i == h then a else m.neutral);
    SortedFold(m, less, keys, values);
    FoldOne(m, values, h);
    PaddingUnseen(m, Picked(pick, keys, values), map[]);
  }

  /** For every commutative monoid with more than one value, and whichever listing
      of a key counts: the query after Init is the fold of the map, for all values,
      exactly when no key is listed twice. */
  lemma InitExactly<V(!new)>(m: Monoid<V>, less: (V, V) -> bool, keys: seq<int>, pick: map<int, nat>, a: V)
    requires IsCommutativeMonoid(m) && a != m.neutral && Picks(pick, keys)
    ensures (forall values: seq<V> | |values| == |keys| :: QueriesPicked(m, less, keys, pick, values)) <==> NoRepeats(keys)
  {
    if NoRepeats(keys) {
      forall values: seq<V> | |values| == |keys| ensures QueriesPicked(m, less, keys, pick, values) {
        PickedIsMap(less, keys, pick, values);
        FoldSortedItems(m, Fixed.SortPairs(less, Zip(keys, values)));
      }
    } else {
      var i, j :| 0 <= i < j < |keys| && keys[i] == keys[j];
      var h := if pick[keys[i]] == i then j else i;
      ExtraListing(m, less, keys, pick, h, a);
    }
  }

  /** The first listing of every key, which is the one `MapOf` keeps. */
  function FirstListings(keys: seq<int>): map<int, nat> {
    if keys == [] then map[]
    else
      var rest := FirstListings(keys[1..]);
      (map k | k in rest :: rest[k] + 1)[keys[0] := 0]
  }

  lemma {:induction false} FirstListingsPick(keys: seq<int>)
    ensures Picks(FirstListings(keys), keys)
  {
    if keys != [] {
      FirstListingsPick(keys[1..]);
      var rest, pick := FirstListings(keys[1..]), FirstListings(keys);
      forall k | k in pick ensures pick[k] < |keys| && keys[pick[k]] == k {
        if k != keys[0] { assert keys[1..][rest[k]] == k; }
      }
      forall i | 0 <= i < |keys| ensures keys[i] in pick {
        if i > 0 { assert keys[1..][i - 1] in rest; }
      }
    }
  }

  lemma {:induction false} FirstListingsAre<V>(keys: seq<int>, values: seq<V>)
    requires |keys| == |values|
    ensures Picks(FirstListings(keys), keys) && Picked(FirstListings(keys), keys, values) == MapOf(Zip(keys, values))
  {
    FirstListingsPick(keys);
    if keys != [] {
      FirstListingsAre(keys[1..], values[1..]);
      assert Zip(keys, values)[1..] == Zip(keys[1..], values[1..]);
      var inner, picked := Picked(FirstListings(keys[1..]), keys[1..], values[1..]), Picked(FirstListings(keys), keys, values);
      forall k | k in picked ensures picked[k] == if k == keys[0] then values[0] else inner[k] {
        if k != keys[0] { assert values[1..][FirstListings(keys[1..])[k]] == values[FirstListings(keys)[k]]; }
      }
      SameMap(picked, MapOf(Zip(keys, values)));
    } else {
      SameMap(Picked(FirstListings(keys), keys, values), MapOf(Zip(keys, values)));
    }
  }

  /** In particular for the map that Init is meant to describe. */
  lemma InitMeansMap<V(!new)>(m: Monoid<V>, less: (V, V) -> bool, keys: seq<int>, a: V)
    requires IsCommutativeMonoid(m) && a != m.neutral
    ensures (forall values: seq<V> | |values| == |keys| ::
               InitQuery(m, less, Zip(keys, values)) == FoldMap(m, MapOf(Zip(keys, values)))) <==> NoRepeats(keys)
  {
    var pick := FirstListings(keys);
    FirstListingsPick(keys);
    forall values: seq<V> | |values| == |keys|
      ensures QueriesPicked(m, less, keys, pick, values)
              <==> InitQuery(m, less, Zip(keys, values)) == FoldMap(m, MapOf(Zip(keys, values)))
    {
      FirstListingsAre(keys, values);
    }
    InitExactly(m, less, keys, pick, a);
  }

  /** Two listings of one key are added up, so the query is the value of neither. */
  lemma EqualKeysAddUp()
    ensures var m, items := Monoid((x: real, y: real) => x + y, 0.0), [(1, 2.0), (1, 3.0)];
            InitQuery(m, (x: real, y: real) => x < y, items) == 5.0 && FoldMap(m, MapOf(items)) == 2.0
  {
    var m, less := Monoid((x: real, y: real) => x + y, 0.0), (x: real, y: real) => x < y;
    var items := [(1, 2.0), (1, 3.0)];
    assert items == Zip([1, 1], [2.0, 3.0]);
    assert IsCommutativeMonoid(m);
    SortedFold(m, less, [1, 1], [2.0, 3.0]);
    assert Fold(m, [2.0, 3.0]) == 5.0 by { assert [2.0, 3.0][1..] == [3.0] && [3.0][1..] == []; }
    assert MapOf(items) == map[1 := 2.0] by { assert items[1..] == [(1, 3.0)] && [(1, 3.0)][1..] == []; }
    FoldMapTake(m, map[1 := 2.0], 1);
    assert map[1 := 2.0] - {1} == map[];
  }
}
