/** ObjectDynamicDimension: object values per scope item, their statistics, and
    the serialized form. */
module DynamicDimension {
  import opened CompressedIdMap
  import opened ObjectPartition
  import opened ObjectValues
  import opened Options
  import opened Collections

  // Statistics over the values seen

  /** `maxValue` is None before any value (the lowest double), `minPositive` is
      None while no positive value was seen (infinity). */
  datatype Summary = Summary(hasNegative: bool, hasZero: bool, maxValue: Option<real>, minPositive: Option<real>)

  ghost predicate IsMax(m: real, seen: set<real>) {
    m in seen && forall x | x in seen :: x <= m
  }

  ghost predicate IsMinPositive(m: real, seen: set<real>) {
    m in seen && m > 0.0 && forall x | x in seen && x > 0.0 :: m <= x
  }

  ghost predicate Summarises(s: Summary, seen: set<real>) {
    && (s.hasNegative <==> exists x :: x in seen && x < 0.0)
    && (s.hasZero <==> 0.0 in seen)
    && (s.maxValue.None? ==> seen == {}) && (s.maxValue.Some? ==> IsMax(s.maxValue.value, seen))
    && (s.minPositive.None? ==> forall x | x in seen :: x <= 0.0)
    && (s.minPositive.Some? ==> IsMinPositive(s.minPositive.value, seen))
  }

  /** The statistics are a function of the set of values alone: neither order nor
      repetition matters. */
  lemma SummaryUnique(a: Summary, b: Summary, seen: set<real>)
    requires Summarises(a, seen) && Summarises(b, seen)
    ensures a == b
  {
    assert a.hasNegative == b.hasNegative;
    assert a.maxValue == b.maxValue;
    assert a.minPositive == b.minPositive;
  }

  class ObjectDimensionValueStats {
    var hasNegative: bool
    var hasZero: bool
    var maxValue: Option<real>
    var minPositive: Option<real>
    ghost var seen: set<real>

    function Current(): Summary
      reads this
    {
      Summary(hasNegative, hasZero, maxValue, minPositive)
    }

    ghost predicate Valid()
      reads this
    {
      Summarises(Current(), seen)
    }

    constructor ()
      ensures Valid() && seen == {}
    {
      hasNegative, hasZero, maxValue, minPositive, seen := false, false, None, None, {};
    }

    method Observe(value: real) returns (isZero: bool)
      requires Valid()
      modifies this
      ensures Valid() && seen == old(seen) + {value} && isZero == (value == 0.0)
    {
      if value < 0.0 {
        hasNegative := true;
      } else if value == 0.0 {
        hasZero := true;
      } else if minPositive.None? || value < minPositive.value {
        minPositive := Some(value);
      }
      if maxValue.None? || value > maxValue.value {
        maxValue := Some(value);
      }
      seen := seen + {value};
      isZero := value == 0.0;
    }

    /** One scope item: whether any of its values is zero. */
    method ObserveAll(visited: seq<(nat, real)>) returns (anyZero: bool)
      requires Valid()
      modifies this
      ensures Valid() && seen == old(seen) + Second(visited) && anyZero == (0.0 in Second(visited))
    {
      anyZero := false;
      for i := 0 to |visited|
        invariant Valid() && seen == old(seen) + Second(visited[..i]) && anyZero == (0.0 in Second(visited[..i]))
      {
        SecondExtend(visited, i);
        var isZero := Observe(visited[i].1);
        anyZero := anyZero || isZero;
      }
      assert visited[..|visited|] == visited;
    }
  }

  ghost function Second(visited: seq<(nat, real)>): set<real> {
    set p | p in visited :: p.1
  }

  lemma SecondExtend(visited: seq<(nat, real)>, i: nat)
    requires i < |visited|
    ensures Second(visited[..i + 1]) == Second(visited[..i]) + {visited[i].1}
  {
    assert visited[..i + 1] == visited[..i] + [visited[i]];
    var p := visited[i];
    assert p in visited[..i + 1];
  }

  // The values of a scope item

  ghost function ValuesOf(m: map<nat, real>): set<real> {
    set o | o in m :: m[o]
  }

  ghost function SeenIn(v: Values): set<real> {
    ValuesOf(Covered(v))
  }

  lemma PairsShowValues(visited: seq<(nat, real)>, m: map<nat, real>)
    requires Pairs(visited, m)
    ensures Second(visited) == ValuesOf(m)
  {
    forall x | x in ValuesOf(m) ensures x in Second(visited) {
      var o :| o in m && m[o] == x;
      assert (o, m[o]) in visited;
    }
    forall x | x in Second(visited) ensures x in ValuesOf(m) {
      var p :| p in visited && p.1 == x;
      var i :| 0 <= i < |visited| && visited[i] == p;
      assert m[visited[i].0] == x;
    }
  }

  // Dimensions

  datatype Dimension = Dimension(
    scopeId: nat,
    items: map<nat, Values>,
    empty: Values,
    default: real,
    summary: Summary,
    zeroItems: set<nat>)

  ghost function SeenAll(items: map<nat, Values>, default: real): set<real> {
    {default} + set i, x | i in items && x in SeenIn(items[i]) :: x
  }

  ghost function ZeroItems(items: map<nat, Values>): set<nat> {
    set i | i in items && 0.0 in SeenIn(items[i])
  }

  /** Stored values of the right shape.  An object map keeps a size and a default
      of its own. */
  ghost predicate ItemOk(v: Values, default: real) {
    ValuesOk(v) && KnownGroups(v) && (v.GroupBacked? ==> v.default_ == default)
  }

  ghost predicate ItemsOk(items: map<nat, Values>, default: real) {
    forall i | i in items :: ItemOk(items[i], default)
  }

  ghost predicate DimensionOk(d: Dimension) {
    && ItemsOk(d.items, d.default)
    && ItemOk(d.empty, d.default) && d.empty.Default() == d.default && Covered(d.empty) == map[]
    && Summarises(d.summary, SeenAll(d.items, d.default))
    && d.zeroItems == ZeroItems(d.items)
  }

  function ValuesAt(d: Dimension, item: nat): Values {
    if item in d.items then d.items[item] else d.empty
  }

  /** Reading an object beyond the size of an object map aborts. */
  predicate CanRead(d: Dimension, o: nat, item: nat) {
    ValuesAt(d, item).ObjectBacked? ==> o < ValuesAt(d, item).objects.total
  }

  function GetValueFor(d: Dimension, o: nat, item: nat): real
    requires CanRead(d, o, item)
  {
    GetObjectValue(ValuesAt(d, item), o)
  }

  function GetValue(d: Dimension, o: nat, item: Option<nat>): real
    requires item.Some? ==> CanRead(d, o, item.value)
  {
    if item.None? then d.default else GetValueFor(d, o, item.value)
  }

  /** None when the pair belongs to another scope. */
  function GetValueSafe(d: Dimension, o: nat, pair: Option<(nat, nat)>): Option<real>
    requires pair.Some? && pair.value.0 == d.scopeId ==> CanRead(d, o, pair.value.1)
  {
    if pair.None? then Some(d.default)
    else if pair.value.0 != d.scopeId then None
    else Some(GetValueFor(d, o, pair.value.1))
  }

  predicate HasZeroValuedObjects(d: Dimension, item: nat) {
    d.default == 0.0 || item in d.zeroItems
  }

  // Growing the item map

  lemma SeenAllAdd(items: map<nat, Values>, default: real, i: nat, v: Values)
    requires i !in items
    ensures SeenAll(items[i := v], default) == SeenAll(items, default) + SeenIn(v)
    ensures ZeroItems(items[i := v]) == ZeroItems(items) + (if 0.0 in SeenIn(v) then {i} else {})
  {
    var items' := items[i := v];
    forall x | x in SeenIn(v) ensures x in SeenAll(items', default) {
      assert i in items' && x in SeenIn(items'[i]);
    }
    forall x | x in SeenAll(items, default) ensures x in SeenAll(items', default) {
      if x != default {
        var j :| j in items && x in SeenIn(items[j]);
        assert j in items' && x in SeenIn(items'[j]);
      }
    }
  }

  /** The scope items handled so far agree with the statistics so far. */
  ghost predicate Tallied(items: map<nat, Values>, zeroItems: set<nat>, seen: set<real>, default: real) {
    ItemsOk(items, default) && seen == SeenAll(items, default) && zeroItems == ZeroItems(items)
  }

  lemma TallyOne(items: map<nat, Values>, zeroItems: set<nat>, seen: set<real>, default: real,
                 i: nat, v: Values, anyZero: bool)
    requires Tallied(items, zeroItems, seen, default) && i !in items && ItemOk(v, default)
    requires anyZero == (0.0 in SeenIn(v))
    ensures Tallied(items[i := v], zeroItems + (if anyZero then {i} else {}), seen + SeenIn(v), default)
  {
    SeenAllAdd(items, default, i, v);
  }

  /** With every item tallied the dimension is complete. */
  lemma TallyDone(d: Dimension, seen: set<real>)
    requires Tallied(d.items, d.zeroItems, seen, d.default) && Summarises(d.summary, seen)
    requires ItemOk(d.empty, d.default) && d.empty.Default() == d.default && Covered(d.empty) == map[]
    ensures DimensionOk(d)
  {
  }

  function EmptyObjects(default: real, total: nat): Values {
    ObjectBacked(ObjectMap(map[], default, total))
  }

  /** Statistics that have seen the default. */
  method StartStats(default: real) returns (stats: ObjectDimensionValueStats)
    ensures fresh(stats) && stats.Valid() && stats.seen == {default}
  {
    stats := new ObjectDimensionValueStats();
    var _ := stats.Observe(default);
  }

  /** Observes every value that an iteration over the item visits; None when the
      iteration throws. */
  method ObserveItem(stats: ObjectDimensionValueStats, v: Values) returns (r: Option<bool>)
    requires stats.Valid() && ValuesOk(v)
    modifies stats
    ensures r.Some? <==> KnownGroups(v)
    ensures r.Some? ==> stats.Valid() && stats.seen == old(stats.seen) + SeenIn(v) && r.value == (0.0 in SeenIn(v))
  {
    var visited := ForEachNonDefault(v);
    if visited.None? {
      return None;
    }
    PairsShowValues(visited.value, Covered(v));
    var anyZero := stats.ObserveAll(visited.value);
    r := Some(anyZero);
  }

  // Construction from object maps

  method FromObjects(scopeId: nat, maps: map<nat, ObjectMap>, default: real, total: nat) returns (d: Dimension)
    requires forall i | i in maps :: MapOk(maps[i])
    ensures DimensionOk(d) && d.scopeId == scopeId && d.default == default && d.empty == EmptyObjects(default, total)
    ensures d.items.Keys == maps.Keys && forall i | i in maps :: d.items[i] == ObjectBacked(maps[i])
  {
    var stats := StartStats(default);
    var items: map<nat, Values>, zeroItems: set<nat> := map[], {};
    var left := maps.Keys;
    while left != {}
      invariant fresh(stats) && stats.Valid() && left <= maps.Keys
      invariant Tallied(items, zeroItems, stats.seen, default)
      invariant items.Keys == maps.Keys - left && forall i | i in items :: items[i] == ObjectBacked(maps[i])
      decreases |left|
    {
      var i := Pick(left);
      var v := ObjectBacked(maps[i]);
      ghost var seen := stats.seen;
      var anyZero := ObserveItem(stats, v);
      TallyOne(items, zeroItems, seen, default, i, v, anyZero.value);
      items := items[i := v];
      zeroItems := zeroItems + (if anyZero.value then {i} else {});
      left := left - {i};
    }
    d := Dimension(scopeId, items, EmptyObjects(default, total), default, stats.Current(), zeroItems);
    TallyDone(d, stats.seen);
  }

  // Construction from groups

  ghost predicate AllKnown(p: Partition, groupValues: map<nat, real>) {
    forall g | g in groupValues :: g in p.groups
  }

  /** The values of groups with members. */
  ghost function GroupsSeen(p: Partition, groupValues: map<nat, real>, done: set<nat>): set<real>
    requires done <= groupValues.Keys && forall g | g in done :: g in p.groups
  {
    set g | g in done && p.groups[g] != [] :: groupValues[g]
  }

  /** Observing each non-empty group once sees the same values as observing each
      of its objects. */
  lemma GroupsSeenIsSeenIn(v: Values)
    requires ValuesOk(v) && v.GroupBacked? && KnownGroups(v)
    ensures GroupsSeen(v.partition, v.groupValues, v.groupValues.Keys) == SeenIn(v)
  {
    var p := v.partition;
    forall x | x in GroupsSeen(p, v.groupValues, v.groupValues.Keys) ensures x in SeenIn(v) {
      var g :| g in v.groupValues.Keys && p.groups[g] != [] && v.groupValues[g] == x;
      var o := p.groups[g][0];
      IndexFinds(p, o);
      assert o in Covered(v) && Covered(v)[o] == x;
    }
    forall x | x in SeenIn(v) ensures x in GroupsSeen(p, v.groupValues, v.groupValues.Keys) {
      var o :| o in Covered(v) && Covered(v)[o] == x;
      IndexFinds(p, o);
      var g := p.index[o][0];
      assert g in v.groupValues.Keys && p.groups[g] != [];
    }
  }

  /** The groups in `done` have been observed. */
  ghost predicate Observed(seen: set<real>, before: set<real>, anyZero: bool, p: Partition, groupValues: map<nat, real>, done: set<nat>) {
    && done <= groupValues.Keys && (forall g | g in done :: g in p.groups)
    && seen == before + GroupsSeen(p, groupValues, done) && anyZero == (0.0 in GroupsSeen(p, groupValues, done))
  }

  method ObserveGroup(stats: ObjectDimensionValueStats, p: Partition, groupValues: map<nat, real>, g: nat, anyZero: bool,
                      ghost before: set<real>, ghost done: set<nat>)
    returns (anyZero': bool)
    requires stats.Valid() && g in groupValues && g in p.groups && Observed(stats.seen, before, anyZero, p, groupValues, done)
    modifies stats
    ensures stats.Valid() && Observed(stats.seen, before, anyZero', p, groupValues, done + {g})
  {
    GroupsSeenAdd(p, groupValues, done, g);
    anyZero' := anyZero;
    if p.groups[g] != [] {
      var isZero := stats.Observe(groupValues[g]);
      anyZero' := anyZero || isZero;
    }
  }

  method ObserveGroups(stats: ObjectDimensionValueStats, p: Partition, groupValues: map<nat, real>) returns (r: Option<bool>)
    requires stats.Valid()
    modifies stats
    ensures r.Some? <==> AllKnown(p, groupValues)
    ensures r.Some? ==> stats.Valid() && Observed(stats.seen, old(stats.seen), r.value, p, groupValues, groupValues.Keys)
  {
    var anyZero := false;
    var left := groupValues.Keys;
    ghost var done: set<nat> := {};
    while left != {}
      invariant stats.Valid() && left <= groupValues.Keys && done == groupValues.Keys - left
      invariant Observed(stats.seen, old(stats.seen), anyZero, p, groupValues, done)
      decreases |left|
    {
      var g := Pick(left);
      if g !in p.groups {
        return None;
      }
      MoveOne(groupValues.Keys, left, done, g);
      anyZero := ObserveGroup(stats, p, groupValues, g, anyZero, old(stats.seen), done);
      left, done := left - {g}, done + {g};
    }
    assert done == groupValues.Keys;
    r := Some(anyZero);
  }

  lemma GroupsSeenAdd(p: Partition, groupValues: map<nat, real>, done: set<nat>, g: nat)
    requires done <= groupValues.Keys && (forall h | h in done :: h in p.groups) && g in groupValues && g in p.groups
    ensures GroupsSeen(p, groupValues, done + {g})
            == GroupsSeen(p, groupValues, done) + (if p.groups[g] != [] then {groupValues[g]} else {})
  {
    forall x | x in GroupsSeen(p, groupValues, done) ensures x in GroupsSeen(p, groupValues, done + {g}) {
      var h :| h in done && p.groups[h] != [] && groupValues[h] == x;
      assert h in done + {g};
    }
    if p.groups[g] != [] { assert g in done + {g}; }
  }

  method ObserveGroupItem(stats: ObjectDimensionValueStats, v: Values) returns (r: Option<bool>)
    requires stats.Valid() && ValuesOk(v) && v.GroupBacked?
    modifies stats
    ensures r.Some? <==> AllKnown(v.partition, v.groupValues)
    ensures r.Some? ==> KnownGroups(v) && stats.Valid() && stats.seen == old(stats.seen) + SeenIn(v) && r.value == (0.0 in SeenIn(v))
  {
    r := ObserveGroups(stats, v.partition, v.groupValues);
    if r.Some? { GroupsSeenIsSeenIn(v); }
  }

  ghost predicate IsGroupItem(v: Values, p: Partition, groupValues: map<nat, real>, default: real, total: nat, partitionId: nat) {
    AllKnown(p, groupValues) && v == GroupBacked(groupValues, p, partitionId, default, total)
  }

  /** Observes and stores one scope item. */
  method AddGroupItem(stats: ObjectDimensionValueStats, items: map<nat, Values>, zeroItems: set<nat>, i: nat, v: Values, default: real)
    returns (ok: bool, items': map<nat, Values>, zeroItems': set<nat>)
    requires stats.Valid() && Tallied(items, zeroItems, stats.seen, default) && i !in items
    requires ValuesOk(v) && v.GroupBacked? && v.default_ == default
    modifies stats
    ensures ok <==> AllKnown(v.partition, v.groupValues)
    ensures ok ==> stats.Valid() && items' == items[i := v] && Tallied(items', zeroItems', stats.seen, default)
  {
    ghost var seen := stats.seen;
    var anyZero := ObserveGroupItem(stats, v);
    if anyZero.None? {
      return false, items, zeroItems;
    }
    TallyOne(items, zeroItems, seen, default, i, v, anyZero.value);
    return true, items[i := v], zeroItems + (if anyZero.value then {i} else {});
  }

  /** The scope items stored so far. */
  ghost predicate AllGroupItems(items: map<nat, Values>, p: Partition, values: map<nat, map<nat, real>>, default: real, total: nat,
                                partitionId: nat) {
    forall i | i in items :: i in values && IsGroupItem(items[i], p, values[i], default, total, partitionId)
  }

  method GroupItems(stats: ObjectDimensionValueStats, p: Partition, values: map<nat, map<nat, real>>, default: real, total: nat, partitionId: nat)
    returns (ok: bool, items: map<nat, Values>, zeroItems: set<nat>)
    requires PartitionOk(p) && p.isDisjoint && stats.Valid() && stats.seen == {default}
    modifies stats
    ensures ok <==> forall i | i in values :: AllKnown(p, values[i])
    ensures ok ==> stats.Valid() && Tallied(items, zeroItems, stats.seen, default) && items.Keys == values.Keys
    ensures ok ==> AllGroupItems(items, p, values, default, total, partitionId)
  {
    ok, items, zeroItems := true, map[], {};
    var left := values.Keys;
    while left != {}
      invariant stats.Valid() && left <= values.Keys
      invariant Tallied(items, zeroItems, stats.seen, default)
      invariant items.Keys == values.Keys - left
      invariant AllGroupItems(items, p, values, default, total, partitionId)
      decreases |left|
    {
      var i := Pick(left);
      ok, items, zeroItems :=
        AddGroupItem(stats, items, zeroItems, i, GroupBacked(values[i], p, partitionId, default, total), default);
      if !ok {
        return;
      }
      left := left - {i};
    }
    ok := true;
  }

  /** None when the partition is not disjoint or a group is unknown to it. */
  method FromGroups(scopeId: nat, p: Partition, values: map<nat, map<nat, real>>, default: real, total: nat, partitionId: nat)
    returns (r: Option<Dimension>)
    requires PartitionOk(p)
    ensures r.Some? <==> p.isDisjoint && forall i | i in values :: AllKnown(p, values[i])
    ensures r.Some? ==> DimensionOk(r.value) && r.value.scopeId == scopeId && r.value.default == default
    ensures r.Some? ==> r.value.empty == GroupBacked(map[], p, partitionId, default, total) && r.value.items.Keys == values.Keys
    ensures r.Some? ==> AllGroupItems(r.value.items, p, values, default, total, partitionId)
  {
    if !p.isDisjoint {
      return None;
    }
    var stats := StartStats(default);
    var ok, items, zeroItems := GroupItems(stats, p, values, default, total, partitionId);
    if !ok {
      return None;
    }
    var d := Dimension(scopeId, items, GroupBacked(map[], p, partitionId, default, total), default, stats.Current(), zeroItems);
    TallyDone(d, stats.seen);
    r := Some(d);
  }

  // The serialized form

  datatype ThriftValues =
    | ThriftObjects(objectValues: map<nat, real>)
    | ThriftGroups(partitionId: nat, groupValues: map<nat, real>)
    | ThriftEmpty

  datatype ThriftDimension = ThriftDimension(scopeId: nat, scopedValues: map<nat, ThriftValues>, defaultValue: real)

  function ToThriftValues(v: Values): ThriftValues {
    match v
    case ObjectBacked(m) => ThriftObjects(m.entries)
    case GroupBacked(groupValues, _, partitionId, _, _) => ThriftGroups(partitionId, groupValues)
  }

  function ToThrift(d: Dimension): ThriftDimension {
    ThriftDimension(d.scopeId, map i | i in d.items :: ToThriftValues(d.items[i]), d.default)
  }

  /** Storing a value beyond the size of the object map aborts; default values are
      not stored. */
  ghost predicate Fits(t: ThriftValues, default: real, total: nat) {
    t.ThriftObjects? ==> forall o | o in t.objectValues && t.objectValues[o] != default :: o < total
  }

  /** The serialized item can be read back. */
  ghost predicate Readable(t: ThriftValues, default: real, partitions: Option<map<nat, Partition>>) {
    match t
    case ThriftObjects(_) => true
    case ThriftGroups(id, groupValues) =>
      && partitions.Some? && id in partitions.value && partitions.value[id].isDisjoint
      && forall g | g in groupValues && groupValues[g] != default :: g in partitions.value[id].groups
    case ThriftEmpty => false
  }

  /** What it is read back as: default-valued entries are dropped. */
  ghost function ReadBack(t: ThriftValues, default: real, total: nat, partitions: Option<map<nat, Partition>>): Values
    requires Readable(t, default, partitions)
  {
    match t
    case ThriftObjects(values) => ObjectBacked(ObjectMap(WithoutDefaults(values, default), default, total))
    case ThriftGroups(id, groupValues) =>
      GroupBacked(WithoutDefaults(groupValues, default), partitions.value[id], id, default, total)
  }

  ghost predicate IsReadBack(v: Values, t: ThriftValues, default: real, total: nat, partitions: Option<map<nat, Partition>>) {
    Readable(t, default, partitions) && v == ReadBack(t, default, total, partitions)
  }

  method DropDefaults(values: map<nat, real>, default: real) returns (kept: map<nat, real>)
    ensures kept == WithoutDefaults(values, default)
  {
    kept := map[];
    var left := values.Keys;
    while left != {}
      invariant left <= values.Keys && kept == WithoutDefaults(values - left, default)
      decreases |left|
    {
      var k := Pick(left);
      if values[k] != default {
        kept := kept[k := values[k]];
      }
      SameMap(kept, WithoutDefaults(values - (left - {k}), default));
      left := left - {k};
    }
    SameMap(values - left, values);
  }

  /** None when the item or its iteration throws. */
  method ReadItem(stats: ObjectDimensionValueStats, t: ThriftValues, default: real, total: nat, partitions: Option<map<nat, Partition>>)
    returns (v: Option<Values>, anyZero: bool)
    requires stats.Valid()
    requires Fits(t, default, total)
    requires PartitionsOk(partitions)
    modifies stats
    ensures v.Some? <==> Readable(t, default, partitions)
    ensures v.Some? ==> v.value == ReadBack(t, default, total, partitions) && ItemOk(v.value, default)
    ensures v.Some? ==> stats.Valid() && stats.seen == old(stats.seen) + SeenIn(v.value) && anyZero == (0.0 in SeenIn(v.value))
  {
    v, anyZero := None, false;
    var built: Values;
    match t {
      case ThriftEmpty =>
        return;
      case ThriftObjects(values) =>
        var kept := DropDefaults(values, default);
        built := ObjectBacked(ObjectMap(kept, default, total));
      case ThriftGroups(id, groupValues) =>
        if partitions.None? || id !in partitions.value {
          return;
        }
        var kept := DropDefaults(groupValues, default);
        if !partitions.value[id].isDisjoint {
          return;
        }
        built := GroupBacked(kept, partitions.value[id], id, default, total);
    }
    var observed := ObserveItem(stats, built);
    if observed.Some? {
      v, anyZero := Some(built), observed.value;
    }
  }

  ghost predicate PartitionsOk(partitions: Option<map<nat, Partition>>) {
    partitions.Some? ==> forall id | id in partitions.value :: PartitionOk(partitions.value[id])
  }

  /** Reads, observes and stores one scope item. */
  method AddThriftItem(stats: ObjectDimensionValueStats, items: map<nat, Values>, zeroItems: set<nat>, i: nat, t: ThriftValues,
                       default: real, total: nat, partitions: Option<map<nat, Partition>>)
    returns (ok: bool, items': map<nat, Values>, zeroItems': set<nat>)
    requires stats.Valid() && Tallied(items, zeroItems, stats.seen, default) && i !in items
    requires Fits(t, default, total) && PartitionsOk(partitions)
    modifies stats
    ensures ok <==> Readable(t, default, partitions)
    ensures ok ==> stats.Valid() && items' == items[i := ReadBack(t, default, total, partitions)]
                   && Tallied(items', zeroItems', stats.seen, default)
  {
    ghost var seen := stats.seen;
    var v, anyZero := ReadItem(stats, t, default, total, partitions);
    if v.None? {
      return false, items, zeroItems;
    }
    TallyOne(items, zeroItems, seen, default, i, v.value, anyZero);
    return true, items[i := v.value], zeroItems + (if anyZero then {i} else {});
  }

  /** The scope items read so far. */
  ghost predicate AllReadBack(items: map<nat, Values>, scopedValues: map<nat, ThriftValues>, default: real, total: nat,
                              partitions: Option<map<nat, Partition>>) {
    forall i | i in items :: i in scopedValues && IsReadBack(items[i], scopedValues[i], default, total, partitions)
  }

  lemma OneReadBack(items: map<nat, Values>, scopedValues: map<nat, ThriftValues>, default: real, total: nat,
                    partitions: Option<map<nat, Partition>>, i: nat)
    requires AllReadBack(items, scopedValues, default, total, partitions)
    requires i in scopedValues && Readable(scopedValues[i], default, partitions)
    ensures AllReadBack(items[i := ReadBack(scopedValues[i], default, total, partitions)], scopedValues, default, total, partitions)
  {
  }

  /** What is stored once all scope items but those left are handled. */
  ghost predicate StoredUpTo<V>(items: map<nat, Values>, all: map<nat, V>, left: set<nat>) {
    left <= all.Keys && items.Keys == all.Keys - left
  }

  lemma StoreOne<V>(items: map<nat, Values>, all: map<nat, V>, left: set<nat>, i: nat, v: Values)
    requires StoredUpTo(items, all, left) && i in left
    ensures i in all && i !in items && StoredUpTo(items[i := v], all, left - {i})
  {
  }

  method ThriftItems(stats: ObjectDimensionValueStats, scopedValues: map<nat, ThriftValues>, default: real, total: nat,
                     partitions: Option<map<nat, Partition>>)
    returns (ok: bool, items: map<nat, Values>, zeroItems: set<nat>)
    requires stats.Valid() && stats.seen == {default} && PartitionsOk(partitions)
    requires forall i | i in scopedValues :: Fits(scopedValues[i], default, total)
    modifies stats
    ensures ok <==> forall i | i in scopedValues :: Readable(scopedValues[i], default, partitions)
    ensures ok ==> stats.Valid() && Tallied(items, zeroItems, stats.seen, default)
    ensures ok ==> items.Keys == scopedValues.Keys && AllReadBack(items, scopedValues, default, total, partitions)
  {
    ok, items, zeroItems := true, map[], {};
    var left := scopedValues.Keys;
    while left != {}
      invariant stats.Valid() && StoredUpTo(items, scopedValues, left)
      invariant Tallied(items, zeroItems, stats.seen, default)
      invariant AllReadBack(items, scopedValues, default, total, partitions)
      decreases |left|
    {
      var i := Pick(left);
      ghost var before := items;
      StoreOne(items, scopedValues, left, i, EmptyObjects(default, total));
      ok, items, zeroItems := AddThriftItem(stats, items, zeroItems, i, scopedValues[i], default, total, partitions);
      if !ok {
        return;
      }
      OneReadBack(before, scopedValues, default, total, partitions, i);
      StoreOne(before, scopedValues, left, i, items[i]);
      left := left - {i};
    }
    ok := true;
  }

  method FromThrift(t: ThriftDimension, total: nat, partitions: Option<map<nat, Partition>>) returns (r: Option<Dimension>)
    requires PartitionsOk(partitions) && forall i | i in t.scopedValues :: Fits(t.scopedValues[i], t.defaultValue, total)
    ensures r.Some? <==> forall i | i in t.scopedValues :: Readable(t.scopedValues[i], t.defaultValue, partitions)
    ensures r.Some? ==> DimensionOk(r.value) && r.value.scopeId == t.scopeId && r.value.default == t.defaultValue
    ensures r.Some? ==> r.value.empty == EmptyObjects(t.defaultValue, total) && r.value.items.Keys == t.scopedValues.Keys
    ensures r.Some? ==> AllReadBack(r.value.items, t.scopedValues, t.defaultValue, total, partitions)
  {
    var default := t.defaultValue;
    var stats := StartStats(default);
    var ok, items, zeroItems := ThriftItems(stats, t.scopedValues, default, total, partitions);
    if !ok {
      return None;
    }
    var d := Dimension(t.scopeId, items, EmptyObjects(default, total), default, stats.Current(), zeroItems);
    TallyDone(d, stats.seen);
    r := Some(d);
  }
}
