/** ObjectValues: the values of one dimension, stored per object or per group. */
module ObjectValues {
  import opened CompressedIdMap
  import opened ObjectPartition
  import opened Options
  import opened Collections
  import Monoids

  /** The meaning of a CompressedIdMap from objects to doubles. */
  datatype ObjectMap = ObjectMap(entries: map<nat, real>, default: real, total: nat)

  datatype Values =
    | ObjectBacked(objects: ObjectMap)
    | GroupBacked(groupValues: map<nat, real>, partition: Partition, partitionId: nat, default_: real, total_: nat)
  {
    function Default(): real { if ObjectBacked? then objects.default else default_ }
    function TotalObjects(): nat { if ObjectBacked? then objects.total else total_ }
  }

  ghost predicate MapOk(m: ObjectMap) {
    forall k | k in m.entries :: k < m.total && m.entries[k] != m.default
  }

  /** What the constructors accept. */
  ghost predicate ValuesOk(v: Values) {
    match v
    case ObjectBacked(m) => MapOk(m)
    case GroupBacked(_, p, _, _, _) => PartitionOk(p) && p.isDisjoint
  }

  /** The groups with an entry speak about objects of the problem. */
  ghost predicate InProblem(v: Values) {
    v.GroupBacked? ==>
      forall g | g in v.groupValues && g in v.partition.groups :: forall o | o in v.partition.groups[g] :: o < v.total_
  }

  /** Reading the members of an unknown group throws. */
  predicate KnownGroups(v: Values) {
    v.GroupBacked? ==> forall g | g in v.groupValues :: g in v.partition.groups
  }

  function GetObjectValue(v: Values, o: nat): real
    requires v.ObjectBacked? ==> o < v.objects.total
  {
    match v
    case ObjectBacked(m) => Lookup(m.entries, o, m.default)
    case GroupBacked(groupValues, p, _, default_, _) =>
      if o !in p.index || p.index[o] == [] then default_
      else Lookup(groupValues, p.index[o][0], default_)
  }

  /** An object of a group has the group's value, any other object the default. */
  lemma LookupMeaning(v: Values, o: nat)
    requires ValuesOk(v) && v.GroupBacked?
    ensures forall g | g in v.partition.groups && o in v.partition.groups[g] ::
              GetObjectValue(v, o) == Lookup(v.groupValues, g, v.default_)
    ensures (forall g | g in v.partition.groups :: o !in v.partition.groups[g]) ==> GetObjectValue(v, o) == v.default_
  {
    IndexFinds(v.partition, o);
  }

  // Sums over vectors of values

  ghost function Total(s: seq<real>): real {
    if s == [] then 0.0 else Total(s[..|s| - 1]) + s[|s| - 1]
  }

  ghost function Spread(m: map<nat, real>, default: real, n: nat): seq<real> {
    seq(n, o requires 0 <= o < n => Lookup(m, o, default))
  }

  /** Every object's value, object by object. */
  ghost function AllValues(v: Values): seq<real> {
    seq(v.TotalObjects(), o requires 0 <= o < v.TotalObjects() => GetObjectValue(v, o))
  }

  /** `k` copies of `x`. */
  ghost function Times(k: nat, x: real): real {
    if k == 0 then 0.0 else Times(k - 1, x) + x
  }

  lemma {:induction false} TimesIs(k: nat, x: real)
    ensures Times(k, x) == x * k as real
  {
    if k > 0 {
      TimesIs(k - 1, x);
      Successor(k - 1, x);
    }
  }

  lemma Successor(k: nat, x: real)
    ensures x * (k + 1) as real == x * k as real + x
  {
  }

  // Giving one value to a list of objects

  ghost function Paint(m: map<nat, real>, objects: seq<nat>, value: real): map<nat, real>
    decreases |objects|
  {
    if objects == [] then m
    else Paint(m, objects[..|objects| - 1], value)[objects[|objects| - 1] := value]
  }

  lemma {:induction false} PaintAt(m: map<nat, real>, objects: seq<nat>, value: real, o: nat)
    ensures o in Paint(m, objects, value) <==> o in m || o in objects
    ensures o in Paint(m, objects, value) ==> Paint(m, objects, value)[o] == if o in objects then value else m[o]
    decreases |objects|
  {
    if objects != [] {
      assert objects == objects[..|objects| - 1] + [objects[|objects| - 1]];
      PaintAt(m, objects[..|objects| - 1], value, o);
    }
  }

  // Sums over entries

  /** The sum of a map's values. */
  ghost function EntryTotal(m: map<nat, real>): real
    decreases |m|
  {
    if m == map[] then 0.0
    else
      var k := Monoids.Least(m.Keys);
      assert (m - {k}).Keys == m.Keys - {k};
      EntryTotal(m - {k}) + m[k]
  }

  lemma {:induction false} EntryTotalTake(m: map<nat, real>, k: nat)
    requires k in m
    ensures EntryTotal(m) == EntryTotal(m - {k}) + m[k]
    decreases |m|
  {
    var l := Monoids.Least(m.Keys);
    if l != k {
      var a, b := m - {l}, m - {k};
      assert a.Keys == m.Keys - {l} && b.Keys == m.Keys - {k};
      EntryTotalTake(a, k);
      assert l in b.Keys;
      EntryTotalTake(b, l);
      SameMap(a - {k}, b - {l});
    }
  }

  lemma EntryTotalAdd(m: map<nat, real>, k: nat, value: real)
    requires k !in m
    ensures EntryTotal(m[k := value]) == EntryTotal(m) + value && |m[k := value]| == |m| + 1
  {
    EntryTotalTake(m[k := value], k);
    SameMap(m[k := value] - {k}, m);
    Grow(m, k, value);
  }

  lemma LastFresh(objects: seq<nat>, m: map<nat, real>) returns (front: seq<nat>, o: nat)
    requires objects != [] && NoRepeats(objects) && forall o | o in objects :: o !in m
    ensures front == objects[..|objects| - 1] && o == objects[|objects| - 1]
    ensures NoRepeats(front) && (forall o | o in front :: o !in m) && o !in m && o !in front
  {
    front, o := objects[..|objects| - 1], objects[|objects| - 1];
    assert objects == front + [o] && o in objects;
  }

  /** Objects new to the map add their number times the value. */
  lemma {:induction false} PaintTotal(m: map<nat, real>, objects: seq<nat>, value: real)
    requires NoRepeats(objects) && forall o | o in objects :: o !in m
    ensures EntryTotal(Paint(m, objects, value)) == EntryTotal(m) + Times(|objects|, value)
    ensures |Paint(m, objects, value)| == |m| + |objects|
    decreases |objects|
  {
    if objects != [] {
      var front, o := LastFresh(objects, m);
      PaintTotal(m, front, value);
      PaintAt(m, front, value, o);
      EntryTotalAdd(Paint(m, front, value), o, value);
    }
  }

  ghost function Within(m: map<nat, real>, n: nat): map<nat, real> {
    map k | k in m && k < n :: m[k]
  }

  lemma WithinStep(m: map<nat, real>, n: nat)
    ensures Within(m, n + 1) == if n in m then Within(m, n)[n := m[n]] else Within(m, n)
  {
    SameMap(Within(m, n + 1), if n in m then Within(m, n)[n := m[n]] else Within(m, n));
  }

  lemma SpreadStep(m: map<nat, real>, default: real, n: nat)
    ensures Total(Spread(m, default, n + 1)) == Total(Spread(m, default, n)) + Lookup(m, n, default)
  {
    assert Spread(m, default, n + 1)[..n] == Spread(m, default, n);
  }

  lemma WithinNothing(m: map<nat, real>)
    ensures Within(m, 0) == map[]
  {
    SameMap(Within(m, 0), map[]);
  }

  /** Object by object: the entries below `n`, and the default for the others. */
  lemma {:induction false} SpreadTotal(m: map<nat, real>, default: real, n: nat)
    ensures |Within(m, n)| <= n
    ensures Total(Spread(m, default, n)) == EntryTotal(Within(m, n)) + Times(n - |Within(m, n)|, default)
  {
    if n == 0 {
      WithinNothing(m);
    } else {
      SpreadTotal(m, default, n - 1);
      SpreadStep(m, default, n - 1);
      WithinStep(m, n - 1);
      if n - 1 in m { EntryTotalAdd(Within(m, n - 1), n - 1, m[n - 1]); }
    }
  }

  // The entries an iteration visits

  ghost function CoveredBy(v: Values, done: set<nat>): map<nat, real>
    requires v.GroupBacked? && done <= v.groupValues.Keys
  {
    map o | o in v.partition.index && v.partition.index[o] != [] && v.partition.index[o][0] in done
      :: v.groupValues[v.partition.index[o][0]]
  }

  /** Objects with an explicit entry, of their own or of their group. */
  ghost function Covered(v: Values): map<nat, real> {
    if v.ObjectBacked? then v.objects.entries else CoveredBy(v, v.groupValues.Keys)
  }

  lemma CoverGroup(v: Values, done: set<nat>, g: nat)
    requires ValuesOk(v) && v.GroupBacked? && done <= v.groupValues.Keys
    requires g in v.groupValues && g !in done && g in v.partition.groups
    ensures NoRepeats(v.partition.groups[g]) && forall o | o in v.partition.groups[g] :: o !in CoveredBy(v, done)
    ensures CoveredBy(v, done + {g}) == Paint(CoveredBy(v, done), v.partition.groups[g], v.groupValues[g])
  {
    var m, objects := CoveredBy(v, done), v.partition.groups[g];
    DisjointMeans(v.partition);
    var painted := Paint(m, objects, v.groupValues[g]);
    forall o: nat
      ensures o in objects ==> o !in m
      ensures o in CoveredBy(v, done + {g}) <==> o in painted
      ensures o in painted ==> painted[o] == CoveredBy(v, done + {g})[o]
    {
      IndexFinds(v.partition, o);
      PaintAt(m, objects, v.groupValues[g], o);
    }
    SameMap(CoveredBy(v, done + {g}), painted);
  }

  lemma SpreadIsAllValues(v: Values)
    requires ValuesOk(v)
    ensures Spread(Covered(v), v.Default(), v.TotalObjects()) == AllValues(v)
  {
  }

  /** The covered objects are those of the groups with an entry. */
  lemma CoveredInProblem(v: Values)
    requires ValuesOk(v) && KnownGroups(v)
    ensures InProblem(v) <==> forall o | o in Covered(v) :: o < v.TotalObjects()
  {
    if v.GroupBacked? {
      if InProblem(v) {
        forall o | o in Covered(v) ensures o < v.total_ { IndexFinds(v.partition, o); }
      } else {
        var g :| g in v.groupValues && g in v.partition.groups && exists o :: o in v.partition.groups[g] && o >= v.total_;
        var o: nat :| o in v.partition.groups[g] && o >= v.total_;
        IndexFinds(v.partition, o);
        assert o in Covered(v);
      }
    }
  }

  // Non-default count

  method NonDefaultCount(v: Values) returns (r: Option<nat>)
    requires ValuesOk(v)
    ensures r == if KnownGroups(v) then Some(|Covered(v)|) else None
  {
    if v.ObjectBacked? {
      return Some(|v.objects.entries|);
    }
    var count := 0;
    var left := v.groupValues.Keys;
    ghost var done: set<nat> := {};
    assert CoveredBy(v, done) == map[];
    while left != {}
      invariant done == v.groupValues.Keys - left && left <= v.groupValues.Keys
      invariant forall g | g in done :: g in v.partition.groups
      invariant count == |CoveredBy(v, done)|
      decreases |left|
    {
      var g := Pick(left);
      if g !in v.partition.groups {
        return None;
      }
      MoveOne(v.groupValues.Keys, left, done, g);
      CoverGroup(v, done, g);
      PaintTotal(CoveredBy(v, done), v.partition.groups[g], v.groupValues[g]);
      count := count + |v.partition.groups[g]|;
      left, done := left - {g}, done + {g};
    }
    assert done == v.groupValues.Keys;
    r := Some(count);
  }

  // Sum

  const SIZE_LIMIT: nat := 0x1_0000_0000_0000_0000

  /** Subtraction of 64-bit sizes wraps around below zero. */
  function SizeMinus(a: nat, b: nat): nat {
    if a >= b then a - b else (a - b) % SIZE_LIMIT
  }

  method Multiply(x: real, k: nat) returns (r: real)
    ensures r == Times(k, x)
  {
    TimesIs(k, x);
    r := x * k as real;
  }

  /** What `sum` returns: the entries, and the default for as many objects as the
      size subtraction says are left. */
  ghost function SumOf(v: Values): real {
    EntryTotal(Covered(v)) + Times(SizeMinus(v.TotalObjects(), |Covered(v)|), v.Default())
  }

  /** The sum, from group sizes or from the entries, and the object-by-object sum. */
  method Sum(v: Values) returns (r: Option<real>)
    requires ValuesOk(v)
    ensures r == if KnownGroups(v) then Some(SumOf(v)) else None
    ensures r.Some? && InProblem(v) ==> r.value == Total(AllValues(v))
  {
    if v.ObjectBacked? {
      var sum := SumEntries(v.objects);
      r := Some(sum);
    } else {
      r := SumGroups(v);
    }
    if r.Some? && InProblem(v) { SumIsTotal(v); }
  }

  lemma SumIsTotal(v: Values)
    requires ValuesOk(v) && KnownGroups(v) && InProblem(v)
    ensures SumOf(v) == Total(AllValues(v))
  {
    CoveredInProblem(v);
    SpreadIsAllValues(v);
    SpreadTotal(Covered(v), v.Default(), v.TotalObjects());
    SameMap(Within(Covered(v), v.TotalObjects()), Covered(v));
  }

  /** Running totals that account for the groups in `done`. */
  ghost predicate Accounts(total: real, covered: nat, v: Values, done: set<nat>) {
    v.GroupBacked? && done <= v.groupValues.Keys && total == EntryTotal(CoveredBy(v, done)) && covered == |CoveredBy(v, done)|
  }

  lemma AccountGroup(v: Values, done: set<nat>, g: nat, total: real, covered: nat)
    requires ValuesOk(v) && Accounts(total, covered, v, done)
    requires g in v.groupValues && g !in done && g in v.partition.groups
    ensures var objects := v.partition.groups[g];
            Accounts(total + Times(|objects|, v.groupValues[g]), covered + |objects|, v, done + {g})
  {
    CoverGroup(v, done, g);
    PaintTotal(CoveredBy(v, done), v.partition.groups[g], v.groupValues[g]);
  }

  method AddGroup(v: Values, g: nat, total: real, covered: nat, ghost done: set<nat>) returns (total': real, covered': nat)
    requires ValuesOk(v) && Accounts(total, covered, v, done)
    requires g in v.groupValues && g !in done && g in v.partition.groups
    ensures Accounts(total', covered', v, done + {g})
  {
    var groupSize := |v.partition.groups[g]|;
    var product := Multiply(v.groupValues[g], groupSize);
    AccountGroup(v, done, g, total, covered);
    total', covered' := total + product, covered + groupSize;
  }

  /** Every other object has the default. */
  method AddUncovered(v: Values, total: real, covered: nat) returns (total': real)
    requires v.GroupBacked? && Accounts(total, covered, v, v.groupValues.Keys)
    ensures total' == SumOf(v)
  {
    var product := Multiply(v.default_, SizeMinus(v.total_, covered));
    total' := total + product;
  }

  method SumGroups(v: Values) returns (r: Option<real>)
    requires ValuesOk(v) && v.GroupBacked?
    ensures r == if KnownGroups(v) then Some(SumOf(v)) else None
  {
    var total, coveredObjectCount: nat := 0.0, 0;
    var left := v.groupValues.Keys;
    ghost var done: set<nat> := {};
    assert CoveredBy(v, done) == map[];
    while left != {}
      invariant done == v.groupValues.Keys - left && left <= v.groupValues.Keys
      invariant forall g | g in done :: g in v.partition.groups
      invariant Accounts(total, coveredObjectCount, v, done)
      decreases |left|
    {
      var g := Pick(left);
      if g !in v.partition.groups {
        return None;
      }
      MoveOne(v.groupValues.Keys, left, done, g);
      total, coveredObjectCount := AddGroup(v, g, total, coveredObjectCount, done);
      left, done := left - {g}, done + {g};
    }
    assert done == v.groupValues.Keys;
    total := AddUncovered(v, total, coveredObjectCount);
    r := Some(total);
  }

  method SumEntries(m: ObjectMap) returns (sum: real)
    ensures sum == SumOf(ObjectBacked(m))
  {
    var nonDefaultSum := 0.0;
    var left := m.entries.Keys;
    ghost var done: map<nat, real> := map[];
    while left != {}
      invariant left <= m.entries.Keys && done == m.entries - left && nonDefaultSum == EntryTotal(done)
      decreases |left|
    {
      var k := Pick(left);
      TakeEntry(m.entries, left, k);
      nonDefaultSum := nonDefaultSum + m.entries[k];
      left, done := left - {k}, m.entries - (left - {k});
    }
    SameMap(done, m.entries);
    var product := Multiply(m.default, SizeMinus(m.total, |m.entries|));
    sum := nonDefaultSum + product;
  }

  lemma TakeEntry(entries: map<nat, real>, left: set<nat>, k: nat)
    requires left <= entries.Keys && k in left
    ensures EntryTotal(entries - (left - {k})) == EntryTotal(entries - left) + entries[k]
  {
    SameMap(entries - (left - {k}), (entries - left)[k := entries[k]]);
    EntryTotalAdd(entries - left, k, entries[k]);
  }

  // When the sum is right

  /** The same partition and groups with other values. */
  ghost predicate SumsRight(p: Partition, groups: set<nat>, total: nat) {
    forall groupValues: map<nat, real>, default: real | groupValues.Keys == groups ::
      SumRightFor(p, groupValues, default, total)
  }

  ghost predicate SumRightFor(p: Partition, groupValues: map<nat, real>, default: real, total: nat) {
    var v := GroupBacked(groupValues, p, 0, default, total);
    SumOf(v) == Total(AllValues(v))
  }

  lemma {:induction false} TotalOfOnes(m: map<nat, real>)
    requires forall k | k in m :: m[k] == 1.0
    ensures EntryTotal(m) == |m| as real
    decreases |m|
  {
    if m != map[] {
      var k := Monoids.Least(m.Keys);
      assert (m - {k}).Keys == m.Keys - {k};
      TotalOfOnes(m - {k});
      EntryTotalAdd(m - {k}, k, 1.0);
      SameMap((m - {k})[k := 1.0], m);
    }
  }

  lemma {:induction false} TimesZero(k: nat)
    ensures Times(k, 0.0) == 0.0
  {
    if k > 0 { TimesZero(k - 1); }
  }

  /** One object too many shows in the sum when every group has the value 1. */
  lemma OverrunShows(v: Values, o: nat)
    requires ValuesOk(v) && v.GroupBacked? && KnownGroups(v) && v.default_ == 0.0
    requires forall g | g in v.groupValues :: v.groupValues[g] == 1.0
    requires o in Covered(v) && o >= v.total_
    ensures SumOf(v) != Total(AllValues(v))
  {
    SpreadIsAllValues(v);
    OnesShow(Covered(v), v.total_, o);
    TimesZero(SizeMinus(v.total_, |Covered(v)|));
  }

  lemma OnesShow(m: map<nat, real>, n: nat, o: nat)
    requires (forall k | k in m :: m[k] == 1.0) && o in m && o >= n
    ensures EntryTotal(m) > Total(Spread(m, 0.0, n))
  {
    var inner := Within(m, n);
    SpreadTotal(m, 0.0, n);
    TimesZero(n - |inner|);
    TotalOfOnes(m);
    TotalOfOnes(inner);
    SmallerMap(inner, m);
  }

  /** For a partition and the groups that carry an entry: the sum is the
      object-by-object sum for all values exactly when those groups hold objects of
      the problem only. */
  lemma SumExactly(p: Partition, groups: set<nat>, total: nat)
    requires PartitionOk(p) && p.isDisjoint && groups <= p.groups.Keys
    ensures SumsRight(p, groups, total) <==> forall g | g in groups :: forall o | o in p.groups[g] :: o < total
  {
    if forall g | g in groups :: forall o | o in p.groups[g] :: o < total {
      forall groupValues: map<nat, real>, default: real | groupValues.Keys == groups
        ensures SumRightFor(p, groupValues, default, total)
      {
        SumIsTotal(GroupBacked(groupValues, p, 0, default, total));
      }
    } else {
      var g :| g in groups && exists o :: o in p.groups[g] && o >= total;
      var o :| o in p.groups[g] && o >= total;
      var ones: map<nat, real> := map h | h in groups :: 1.0;
      IndexFinds(p, o);
      OverrunShows(GroupBacked(ones, p, 0, 0.0, total), o);
      assert ones.Keys == groups && !SumRightFor(p, ones, 0.0, total);
    }
  }

  /** A group with one object beyond the problem: the sum counts it, though no
      object of the problem has its value. */
  lemma OverrunIsSummed()
    ensures var p := Partition(map[0 := [0, 1]], [0], map[0 := [0], 1 := [0]], true);
            var v := GroupBacked(map[0 := 5.0], p, 0, 0.0, 1);
            ValuesOk(v) && KnownGroups(v) && SumOf(v) == 10.0 && Total(AllValues(v)) == 5.0
  {
    var p := Partition(map[0 := [0, 1]], [0], map[0 := [0], 1 := [0]], true);
    var v := GroupBacked(map[0 := 5.0], p, 0, 0.0, 1);
    forall o: nat, g: nat ensures Listed(p.index, o, g) == Contained(p.groups, g, o) {}
    SingleGroup(v, 0);
    assert Times(2, 5.0) == Times(1, 5.0) + 5.0 == 10.0;
    assert AllValues(v) == [5.0];
    assert Total([5.0]) == 5.0 by { assert [5.0][..0] == []; }
  }

  lemma SingleGroup(v: Values, g: nat)
    requires ValuesOk(v) && v.GroupBacked? && v.groupValues.Keys == {g} && g in v.partition.groups && v.default_ == 0.0
    ensures SumOf(v) == Times(|v.partition.groups[g]|, v.groupValues[g])
  {
    assert CoveredBy(v, {}) == map[];
    CoverGroup(v, {}, g);
    PaintTotal(map[], v.partition.groups[g], v.groupValues[g]);
    assert {} + {g} == v.groupValues.Keys;
    TimesZero(SizeMinus(v.total_, |Covered(v)|));
  }

  // Iteration

  lemma PairsPaint(visited: seq<(nat, real)>, m: map<nat, real>, o: nat, value: real)
    requires Pairs(visited, m) && o !in m
    ensures Pairs(visited + [(o, value)], m[o := value])
  {
    var visited', m' := visited + [(o, value)], m[o := value];
    assert visited'[|visited|] == (o, value);
    forall k | k in m' ensures (k, m'[k]) in visited' {
      if k != o { assert (k, m[k]) in visited; }
    }
  }

  method VisitGroup(before: seq<(nat, real)>, objects: seq<nat>, value: real, ghost m: map<nat, real>)
    returns (visited: seq<(nat, real)>)
    requires Pairs(before, m) && NoRepeats(objects) && forall o | o in objects :: o !in m
    ensures Pairs(visited, Paint(m, objects, value))
  {
    visited := before;
    for i := 0 to |objects|
      invariant Pairs(visited, Paint(m, objects[..i], value))
    {
      PaintAt(m, objects[..i], value, objects[i]);
      assert objects[i] in objects && objects[..i + 1][..i] == objects[..i];
      PairsPaint(visited, Paint(m, objects[..i], value), objects[i], value);
      visited := visited + [(objects[i], value)];
    }
    assert objects[..|objects|] == objects;
  }

  /** Each covered object once, with its value. */
  method ForEachNonDefault(v: Values) returns (r: Option<seq<(nat, real)>>)
    requires ValuesOk(v)
    ensures r.Some? <==> KnownGroups(v)
    ensures r.Some? ==> Pairs(r.value, Covered(v))
  {
    var visited: seq<(nat, real)> := [];
    if v.ObjectBacked? {
      visited := VisitEntries(v.objects.entries);
      return Some(visited);
    }
    var left := v.groupValues.Keys;
    ghost var done: set<nat> := {};
    assert CoveredBy(v, done) == map[];
    while left != {}
      invariant done == v.groupValues.Keys - left && left <= v.groupValues.Keys
      invariant forall g | g in done :: g in v.partition.groups
      invariant Pairs(visited, CoveredBy(v, done))
      decreases |left|
    {
      var g := Pick(left);
      if g !in v.partition.groups {
        return None;
      }
      MoveOne(v.groupValues.Keys, left, done, g);
      CoverGroup(v, done, g);
      visited := VisitGroup(visited, v.partition.groups[g], v.groupValues[g], CoveredBy(v, done));
      left, done := left - {g}, done + {g};
    }
    assert done == v.groupValues.Keys;
    r := Some(visited);
  }

  method VisitEntries(entries: map<nat, real>) returns (visited: seq<(nat, real)>)
    ensures Pairs(visited, entries)
  {
    visited := [];
    var left := entries;
    while left != map[]
      invariant left.Keys <= entries.Keys && forall k | k in left :: left[k] == entries[k]
      invariant Pairs(visited, entries - left.Keys)
      decreases |left|
    {
      var k := Pick(left.Keys);
      NextPair(visited, entries, left, k);
      visited := visited + [(k, left[k])];
      left := left - {k};
    }
    SameMap(entries - left.Keys, entries);
  }

  // Agreement with the object-by-object form

  /** The values looked up object by object, without those equal to the default. */
  ghost function PerObject(v: Values): map<nat, real> {
    map o: nat | o < v.TotalObjects() && GetObjectValue(v, o) != v.Default() :: GetObjectValue(v, o)
  }

  /** Writing what an iteration visits into an object map, in the order of the
      visits, gives every object the value that lookup gives it. */
  lemma ExpandAgrees(v: Values, visited: seq<(nat, real)>)
    requires ValuesOk(v) && Pairs(visited, Covered(v))
    ensures forall o: nat | o < v.TotalObjects() ::
              Lookup(FirstWrites(visited, v.Default()), o, v.Default()) == GetObjectValue(v, o)
  {
    var written := FirstWrites(visited, v.Default());
    forall o: nat | o < v.TotalObjects() ensures Lookup(written, o, v.Default()) == GetObjectValue(v, o) {
      VisitedWrite(visited, Covered(v), v.Default(), o);
    }
  }

  /** Each key is visited once, so its visit is its first write. */
  lemma VisitedWrite(visited: seq<(nat, real)>, m: map<nat, real>, default: real, o: nat)
    requires Pairs(visited, m)
    ensures Lookup(FirstWrites(visited, default), o, default) == Lookup(m, o, default)
  {
    var written := FirstWrites(visited, default);
    if o in written {
      FirstWritesMeaning(visited, default, o, written[o]);
    } else if o in m && m[o] != default {
      var i :| 0 <= i < |visited| && visited[i] == (o, m[o]);
      assert IsFirst(visited, default, i);
      FirstWritesMeaning(visited, default, o, m[o]);
    }
  }

  /** No group with members is given the default explicitly. */
  ghost predicate NoDefaultEntries(v: Values) {
    v.GroupBacked? ==>
      forall g | g in v.groupValues && g in v.partition.groups && v.partition.groups[g] != [] :: v.groupValues[g] != v.default_
  }

  lemma PerObjectEntries(v: Values, o: nat)
    requires ValuesOk(v)
    ensures o in PerObject(v) <==> o in Covered(v) && o < v.TotalObjects() && Covered(v)[o] != v.Default()
    ensures o in PerObject(v) ==> PerObject(v)[o] == Covered(v)[o]
  {
    if v.GroupBacked? { IndexFinds(v.partition, o); }
  }

  lemma {:induction false} SmallerMap<K, V>(a: map<K, V>, b: map<K, V>)
    requires a.Keys <= b.Keys && forall k | k in a :: a[k] == b[k]
    ensures |a| <= |b| && (|a| == |b| ==> a == b)
    decreases |b|
  {
    if a == map[] {
      if b != map[] {
        var k := AnyOf(b.Keys);
        assert |b.Keys| >= 1 by { assert {k} <= b.Keys; }
      }
    } else {
      var k := AnyOf(a.Keys);
      var a', b' := a - {k}, b - {k};
      SameMap(a'[k := a[k]], a);
      SameMap(b'[k := b[k]], b);
      Grow(a', k, a[k]);
      Grow(b', k, b[k]);
      SmallerMap(a', b');
    }
  }

  /** Count and iteration agree with lookup exactly when no non-empty group carries
      the default as an explicit value, and the groups with an entry hold objects
      of the problem only. */
  lemma CountAndIterationAgree(v: Values)
    requires ValuesOk(v) && KnownGroups(v)
    ensures |Covered(v)| == |PerObject(v)| <==> NoDefaultEntries(v) && InProblem(v)
    ensures Covered(v) == PerObject(v) <==> NoDefaultEntries(v) && InProblem(v)
  {
    forall o: nat
      ensures o in PerObject(v) <==> o in Covered(v) && o < v.TotalObjects() && Covered(v)[o] != v.Default()
      ensures o in PerObject(v) ==> PerObject(v)[o] == Covered(v)[o]
    {
      PerObjectEntries(v, o);
    }
    CoveredInProblem(v);
    SmallerMap(PerObject(v), Covered(v));
    if NoDefaultEntries(v) && InProblem(v) {
      forall o | o in Covered(v) ensures Covered(v)[o] != v.Default() { CoveredIsNotDefault(v, o); }
      SameMap(Covered(v), PerObject(v));
    } else if InProblem(v) {
      var o := DefaultIsCovered(v);
      assert o !in PerObject(v);
    }
  }

  lemma DefaultIsCovered(v: Values) returns (o: nat)
    requires ValuesOk(v) && !NoDefaultEntries(v)
    ensures o in Covered(v) && Covered(v)[o] == v.Default()
  {
    var g :| g in v.groupValues && g in v.partition.groups && v.partition.groups[g] != [] && v.groupValues[g] == v.default_;
    o := v.partition.groups[g][0];
    IndexFinds(v.partition, o);
  }

  lemma CoveredIsNotDefault(v: Values, o: nat)
    requires ValuesOk(v) && NoDefaultEntries(v) && o in Covered(v)
    ensures Covered(v)[o] != v.Default()
  {
    if v.GroupBacked? {
      IndexFinds(v.partition, o);
      var g := v.partition.index[o][0];
      assert o in v.partition.groups[g];
    }
  }

  /** A default-valued group with one member is counted, though the member has
      the default value. */
  lemma DefaultEntryIsCounted()
    ensures var p := Partition(map[0 := [0]], [0], map[0 := [0]], true);
            var v := GroupBacked(map[0 := 5.0], p, 0, 5.0, 1);
            ValuesOk(v) && InProblem(v) && KnownGroups(v) && |Covered(v)| != |PerObject(v)|
  {
    var p := Partition(map[0 := [0]], [0], map[0 := [0]], true);
    var v := GroupBacked(map[0 := 5.0], p, 0, 5.0, 1);
    forall o: nat, g: nat ensures Listed(p.index, o, g) == Contained(p.groups, g, o) {}
    assert !NoDefaultEntries(v) by { assert v.partition.groups[0] != [] && v.groupValues[0] == v.default_; }
    CountAndIterationAgree(v);
  }

  // One group's slice

  ghost predicate InGroup(p: Partition, g: nat, o: nat) {
    g in p.groups && o in p.groups[g]
  }

  /** The original value inside the group, 0 outside. */
  ghost predicate IsSlice(r: Values, v: Values, p: Partition, g: nat) {
    && r.TotalObjects() == v.TotalObjects()
    && forall o: nat | o < v.TotalObjects() :: GetObjectValue(r, o) == if InGroup(p, g, o) then GetObjectValue(v, o) else 0.0
  }

  lemma CompactSlice(v: Values, g: nat)
    requires ValuesOk(v) && v.GroupBacked?
    ensures var value := Lookup(v.groupValues, g, v.default_);
            IsSlice(GroupBacked(if value != 0.0 then map[g := value] else map[], v.partition, v.partitionId, 0.0, v.total_),
                    v, v.partition, g)
  {
    forall o: nat ensures o in v.partition.index ==> (InGroup(v.partition, g, o) <==> v.partition.index[o][0] == g)
                  ensures o !in v.partition.index ==> !InGroup(v.partition, g, o)
    {
      IndexFinds(v.partition, o);
    }
  }

  method ExpandGroup(v: Values, objects: seq<nat>) returns (r: Values)
    requires ValuesOk(v) && forall o | o in objects :: o < v.TotalObjects()
    ensures r.ObjectBacked? && ValuesOk(r) && r.TotalObjects() == v.TotalObjects()
    ensures forall o: nat | o < v.TotalObjects() :: GetObjectValue(r, o) == if o in objects then GetObjectValue(v, o) else 0.0
  {
    var entries: map<nat, real> := map[];
    for i := 0 to |objects|
      invariant forall o | o in entries :: o < v.TotalObjects() && entries[o] != 0.0
      invariant forall o: nat | o < v.TotalObjects() ::
                  Lookup(entries, o, 0.0) == if o in objects[..i] then GetObjectValue(v, o) else 0.0
    {
      assert objects[i] in objects && objects[..i + 1] == objects[..i] + [objects[i]];
      entries := FirstWrite(entries, objects[i], GetObjectValue(v, objects[i]), 0.0);
    }
    assert objects[..|objects|] == objects;
    r := ObjectBacked(ObjectMap(entries, 0.0, v.TotalObjects()));
  }

  /** The compact and the expanded slice denote the same function. `samePartition`
      says whether the storage was built on this very partition object. */
  method SliceGroup(v: Values, p: Partition, samePartition: bool, g: nat) returns (r: Option<Values>)
    requires ValuesOk(v) && PartitionOk(p) && (samePartition ==> v.GroupBacked? && v.partition == p)
    requires !samePartition && g in p.groups ==> forall o | o in p.groups[g] :: o < v.TotalObjects()
    ensures r.None? <==> !samePartition && g !in p.groups
    ensures r.Some? ==> ValuesOk(r.value) && IsSlice(r.value, v, p, g) && NoDefaultEntries(r.value)
    ensures r.Some? ==> (r.value.GroupBacked? <==> samePartition)
  {
    if samePartition {
      var groupValue := Lookup(v.groupValues, g, v.default_);
      var singleGroupMap := if groupValue != 0.0 then map[g := groupValue] else map[];
      CompactSlice(v, g);
      return Some(GroupBacked(singleGroupMap, v.partition, v.partitionId, 0.0, v.total_));
    }
    if g !in p.groups {
      return None;
    }
    var expanded := ExpandGroup(v, p.groups[g]);
    r := Some(expanded);
  }
}
