/** Partition: groups of objects, with the inverse index from objects to groups. */
module ObjectPartition {
  import opened Collections

  datatype Partition = Partition(
    groups: map<nat, seq<nat>>,
    groupIds: seq<nat>,
    index: map<nat, seq<nat>>,
    isDisjoint: bool)

  /** How often the index lists group `g` for object `o`. */
  ghost function Listed(index: map<nat, seq<nat>>, o: nat, g: nat): nat {
    if o in index then multiset(index[o])[g] else 0
  }

  /** How often group `g` contains object `o`. */
  ghost function Contained(groups: map<nat, seq<nat>>, g: nat, o: nat): nat {
    if g in groups then multiset(groups[g])[o] else 0
  }

  /** The index is the inverse of the groups, with multiplicity, and lists only
      objects that are in some group. */
  ghost predicate Inverse(groups: map<nat, seq<nat>>, index: map<nat, seq<nat>>) {
    && (forall o: nat, g: nat :: Listed(index, o, g) == Contained(groups, g, o))
    && (forall o | o in index :: index[o] != [])
  }

  ghost predicate PartitionOk(p: Partition) {
    && Inverse(p.groups, p.index)
    && NoRepeats(p.groupIds) && (forall g: nat :: g in p.groupIds <==> g in p.groups)
    && (p.isDisjoint <==> forall o | o in p.index :: |p.index[o]| <= 1)
  }

  // What disjointness means

  /** No object is in two groups, nor twice in one. */
  ghost predicate Separate(groups: map<nat, seq<nat>>) {
    && (forall g | g in groups :: NoRepeats(groups[g]))
    && (forall g, h | g in groups && h in groups && g != h :: forall o | o in groups[g] :: o !in groups[h])
  }

  lemma SeparateWhenShort(p: Partition)
    requires Inverse(p.groups, p.index)
    requires forall o | o in p.index :: |p.index[o]| <= 1
    ensures Separate(p.groups)
  {
    forall o: nat, g: nat, h: nat ensures Contained(p.groups, g, o) <= 1 && (g != h ==> Contained(p.groups, g, o) + Contained(p.groups, h, o) <= 1) {
      assert Listed(p.index, o, g) == Contained(p.groups, g, o);
      assert Listed(p.index, o, h) == Contained(p.groups, h, o);
      if o in p.index { assert p.index[o] == [] || p.index[o] == [p.index[o][0]]; }
    }
    forall g | g in p.groups ensures NoRepeats(p.groups[g]) {
      RepeatsCount(p.groups[g]);
      forall o | o in p.groups[g] ensures multiset(p.groups[g])[o] <= 1 {
        assert Contained(p.groups, g, o) <= 1;
      }
    }
    forall g, h | g in p.groups && h in p.groups && g != h ensures forall o | o in p.groups[g] :: o !in p.groups[h] {
      forall o | o in p.groups[g] ensures o !in p.groups[h] {
        assert Contained(p.groups, g, o) + Contained(p.groups, h, o) <= 1;
      }
    }
  }

  lemma FirstTwo(list: seq<nat>)
    requires |list| >= 2
    ensures multiset(list)[list[0]] >= (if list[0] == list[1] then 2 else 1) && multiset(list)[list[1]] >= 1
  {
    assert list == [list[0]] + ([list[1]] + list[2..]);
  }

  lemma ContainedOnce(groups: map<nat, seq<nat>>, g: nat, h: nat, o: nat)
    requires Separate(groups)
    ensures Contained(groups, g, o) <= 1
    ensures g != h && Contained(groups, g, o) > 0 ==> Contained(groups, h, o) == 0
  {
    if g in groups {
      RepeatsCount(groups[g]);
      assert o in groups[g] <==> o in multiset(groups[g]);
      if h in groups {
        assert o in groups[h] <==> o in multiset(groups[h]);
      }
    }
  }

  lemma ShortWhenSeparate(p: Partition, o: nat)
    requires Inverse(p.groups, p.index) && Separate(p.groups) && o in p.index
    ensures |p.index[o]| <= 1
  {
    var list := p.index[o];
    if |list| >= 2 {
      assert Listed(p.index, o, list[0]) == Contained(p.groups, list[0], o);
      assert Listed(p.index, o, list[1]) == Contained(p.groups, list[1], o);
      FirstTwo(list);
      ContainedOnce(p.groups, list[0], list[1], o);
    }
  }

  /** A partition reports itself disjoint exactly when its groups are. */
  lemma DisjointMeans(p: Partition)
    requires PartitionOk(p)
    ensures p.isDisjoint <==> Separate(p.groups)
  {
    if p.isDisjoint {
      SeparateWhenShort(p);
    }
    if Separate(p.groups) {
      forall o | o in p.index ensures |p.index[o]| <= 1 { ShortWhenSeparate(p, o); }
    }
  }

  /** In a disjoint partition the index names the one group that holds an object. */
  lemma IndexFinds(p: Partition, o: nat)
    requires PartitionOk(p) && p.isDisjoint
    ensures o in p.index <==> exists g :: g in p.groups && o in p.groups[g]
    ensures o in p.index ==> p.index[o][0] in p.groups && forall g | g in p.groups :: o in p.groups[g] <==> g == p.index[o][0]
  {
    forall g | g in p.groups ensures o in p.groups[g] <==> o in p.index && g == p.index[o][0] {
      assert Listed(p.index, o, g) == Contained(p.groups, g, o);
      if o in p.index { assert p.index[o] == [p.index[o][0]]; }
    }
    if o in p.index {
      assert p.index[o] == [p.index[o][0]];
      assert Listed(p.index, o, p.index[o][0]) == Contained(p.groups, p.index[o][0], o);
    }
  }

  // Construction

  function Push(index: map<nat, seq<nat>>, o: nat, g: nat): map<nat, seq<nat>> {
    index[o := (if o in index then index[o] else []) + [g]]
  }

  lemma PushKeeps(groups: map<nat, seq<nat>>, index: map<nat, seq<nat>>, g: nat, o: nat)
    requires Inverse(groups, index) && g in groups
    ensures Inverse(groups[g := groups[g] + [o]], Push(index, o, g))
  {
    var groups', index' := groups[g := groups[g] + [o]], Push(index, o, g);
    forall u: nat, h: nat ensures Listed(index', u, h) == Contained(groups', h, u) {
      assert Listed(index, u, h) == Contained(groups, h, u);
    }
  }

  lemma EmptyGroupKeeps(groups: map<nat, seq<nat>>, index: map<nat, seq<nat>>, g: nat)
    requires Inverse(groups, index) && g !in groups
    ensures Inverse(groups[g := []], index)
  {
    forall o: nat, h: nat ensures Listed(index, o, h) == Contained(groups[g := []], h, o) {
      assert Listed(index, o, h) == Contained(groups, h, o);
    }
  }

  method IndexGroup(index: map<nat, seq<nat>>, g: nat, objects: seq<nat>, ghost done: map<nat, seq<nat>>)
    returns (r: map<nat, seq<nat>>)
    requires Inverse(done, index) && g !in done
    ensures Inverse(done[g := objects], r)
  {
    r := index;
    EmptyGroupKeeps(done, index, g);
    for i := 0 to |objects|
      invariant Inverse(done[g := objects[..i]], r)
    {
      PushKeeps(done[g := objects[..i]], r, g, objects[i]);
      assert objects[..i + 1] == objects[..i] + [objects[i]];
      SameMap(done[g := objects[..i]][g := objects[..i + 1]], done[g := objects[..i + 1]]);
      r := Push(r, objects[i], g);
    }
    assert objects[..|objects|] == objects;
  }

  /** The groups read so far, and their ids in reading order. */
  ghost predicate Read(groups: map<nat, seq<nat>>, left: map<nat, seq<nat>>, done: map<nat, seq<nat>>, ids: seq<nat>) {
    && left.Keys <= groups.Keys && done.Keys == groups.Keys - left.Keys
    && (forall g | g in left :: left[g] == groups[g]) && (forall g | g in done :: done[g] == groups[g])
    && NoRepeats(ids) && (forall g: nat :: g in ids <==> g in done)
  }

  lemma ReadOne(groups: map<nat, seq<nat>>, left: map<nat, seq<nat>>, done: map<nat, seq<nat>>, ids: seq<nat>, g: nat)
    requires Read(groups, left, done, ids) && g in left
    ensures Read(groups, left - {g}, done[g := left[g]], ids + [g])
  {
  }

  lemma ReadAll(groups: map<nat, seq<nat>>, done: map<nat, seq<nat>>, ids: seq<nat>)
    requires Read(groups, map[], done, ids)
    ensures done == groups
  {
    SameMap(done, groups);
  }

  /** Groups are read in an arbitrary order. */
  method Build(groups: map<nat, seq<nat>>) returns (p: Partition)
    ensures p.groups == groups && PartitionOk(p)
  {
    var index: map<nat, seq<nat>> := map[];
    var groupIds: seq<nat> := [];
    var left := groups;
    ghost var done: map<nat, seq<nat>> := map[];
    while left != map[]
      invariant Read(groups, left, done, groupIds) && Inverse(done, index)
      decreases |left|
    {
      var g := Pick(left.Keys);
      ReadOne(groups, left, done, groupIds, g);
      index := IndexGroup(index, g, left[g], done);
      groupIds, done := groupIds + [g], done[g := left[g]];
      left := left - {g};
    }
    ReadAll(groups, done, groupIds);
    p := Partition(groups, groupIds, index, forall o | o in index :: |index[o]| <= 1);
  }
}
