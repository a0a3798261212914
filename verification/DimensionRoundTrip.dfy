/** Serializing a dynamic dimension and building it again. */
module DimensionRoundTrip {
  import opened CompressedIdMap
  import opened ObjectPartition
  import opened ObjectValues
  import opened DynamicDimension
  import opened Options
  import opened Collections

  /** Group-backed items find their own partition again under its id. */
  ghost predicate Registered(v: Values, partitions: Option<map<nat, Partition>>) {
    v.GroupBacked? ==> partitions.Some? && v.partitionId in partitions.value && partitions.value[v.partitionId] == v.partition
  }

  lemma Rereadable(v: Values, default: real, total: nat, partitions: Option<map<nat, Partition>>)
    requires ItemOk(v, default) && Registered(v, partitions)
    ensures Readable(ToThriftValues(v), default, partitions)
  {
  }

  ghost function Reread(v: Values, default: real, total: nat, partitions: Option<map<nat, Partition>>): Values
    requires ItemOk(v, default) && Registered(v, partitions)
  {
    Rereadable(v, default, total, partitions);
    ReadBack(ToThriftValues(v), default, total, partitions)
  }

  /** Dropping default-valued entries or groups drops exactly the default-valued
      objects from the iteration. */
  lemma CoveredAgain(v: Values, default: real, total: nat, partitions: Option<map<nat, Partition>>)
    requires ItemOk(v, default) && Registered(v, partitions)
    ensures Covered(Reread(v, default, total, partitions)) == WithoutDefaults(Covered(v), default)
  {
    SameMap(Covered(Reread(v, default, total, partitions)), WithoutDefaults(Covered(v), default));
  }

  /** The default itself is always observed, so no value is lost or gained. */
  lemma SeenAgain(v: Values, default: real, total: nat, partitions: Option<map<nat, Partition>>)
    requires ItemOk(v, default) && Registered(v, partitions)
    ensures SeenIn(Reread(v, default, total, partitions)) == SeenIn(v) - {default}
  {
    CoveredAgain(v, default, total, partitions);
    var m, m' := Covered(v), Covered(Reread(v, default, total, partitions));
    forall x | x in ValuesOf(m) && x != default ensures x in ValuesOf(m') {
      var o :| o in m && m[o] == x;
      assert o in m' && m'[o] == x;
    }
  }

  /** An item keeps an object's value unless the object has no entry and the
      item's map has a default of its own. */
  predicate KeepsValue(v: Values, default: real, o: nat) {
    v.GroupBacked? || o in v.objects.entries || v.objects.default == default
  }

  lemma ValueAgain(v: Values, default: real, total: nat, partitions: Option<map<nat, Partition>>, o: nat)
    requires ItemOk(v, default) && Registered(v, partitions) && o < total && (v.ObjectBacked? ==> o < v.objects.total)
    ensures GetObjectValue(Reread(v, default, total, partitions), o) == GetObjectValue(v, o) <==> KeepsValue(v, default, o)
  {
  }

  lemma AllSeenAgain(d: Dimension, d': Dimension, total: nat, partitions: Option<map<nat, Partition>>)
    requires DimensionOk(d) && d'.default == d.default && d'.items.Keys == d.items.Keys
    requires forall i | i in d.items :: Registered(d.items[i], partitions)
    requires forall i | i in d.items :: d'.items[i] == Reread(d.items[i], d.default, total, partitions)
    ensures SeenAll(d'.items, d.default) == SeenAll(d.items, d.default)
    ensures d.default != 0.0 ==> ZeroItems(d'.items) == ZeroItems(d.items)
  {
    forall i | i in d.items ensures SeenIn(d'.items[i]) == SeenIn(d.items[i]) - {d.default} {
      SeenAgain(d.items[i], d.default, total, partitions);
    }
    forall x | x in SeenAll(d.items, d.default) ensures x in SeenAll(d'.items, d.default) {
      if x != d.default {
        var i :| i in d.items && x in SeenIn(d.items[i]);
        assert i in d'.items && x in SeenIn(d'.items[i]);
      }
    }
    forall x | x in SeenAll(d'.items, d.default) ensures x in SeenAll(d.items, d.default) {
      if x != d.default {
        var i :| i in d'.items && x in SeenIn(d'.items[i]);
        assert i in d.items && x in SeenIn(d.items[i]);
      }
    }
  }

  /** What the rebuilt dimension has in common with the original. */
  ghost predicate SameStatistics(d: Dimension, d': Dimension) {
    && d'.scopeId == d.scopeId && d'.default == d.default && d'.summary == d.summary
    && forall item: nat :: HasZeroValuedObjects(d', item) <==> HasZeroValuedObjects(d, item)
  }

  /** Whether object `o` keeps its value at `item`. */
  predicate Keeps(d: Dimension, item: nat, o: nat) {
    item in d.items ==> KeepsValue(d.items[item], d.default, o)
  }

  /** Object `o` can be read at `item` before and after, and is read alike exactly
      when it keeps its value. */
  ghost predicate ReadsAlike(d: Dimension, d': Dimension, item: nat, o: nat) {
    && (CanRead(d', o, item) <== CanRead(d, o, item))
    && (CanRead(d, o, item) ==> (GetValueFor(d', o, item) == GetValueFor(d, o, item) <==> Keeps(d, item, o)))
  }

  /** The dimension rebuilt from its serialized items. */
  ghost predicate Rebuilt(d: Dimension, d': Dimension, total: nat, partitions: Option<map<nat, Partition>>) {
    && DimensionOk(d) && DimensionOk(d')
    && d'.scopeId == d.scopeId && d'.default == d.default && d'.items.Keys == d.items.Keys
    && d'.empty == EmptyObjects(d.default, total)
    && (forall i | i in d.items :: Registered(d.items[i], partitions))
    && (forall i | i in d.items :: d'.items[i] == Reread(d.items[i], d.default, total, partitions))
  }

  lemma RebuiltStatistics(d: Dimension, d': Dimension, total: nat, partitions: Option<map<nat, Partition>>)
    requires Rebuilt(d, d', total, partitions)
    ensures SameStatistics(d, d')
  {
    AllSeenAgain(d, d', total, partitions);
    SummaryUnique(d.summary, d'.summary, SeenAll(d.items, d.default));
  }

  lemma RebuiltReads(d: Dimension, d': Dimension, total: nat, partitions: Option<map<nat, Partition>>, item: nat, o: nat)
    requires Rebuilt(d, d', total, partitions) && o < total
    ensures ReadsAlike(d, d', item, o)
  {
    if CanRead(d, o, item) {
      if item in d.items {
        ValueAgain(d.items[item], d.default, total, partitions, o);
      } else {
        EmptyValue(d.empty, o);
      }
    }
  }

  lemma EmptyValue(v: Values, o: nat)
    requires ValuesOk(v) && Covered(v) == map[] && (v.ObjectBacked? ==> o < v.objects.total)
    ensures GetObjectValue(v, o) == v.Default()
  {
    assert o !in Covered(v);
  }

  /** The getters agree before and after on every object that keeps its value. */
  ghost predicate SameReads(d: Dimension, d': Dimension, o: nat) {
    && (forall item: Option<nat> | item.Some? ==> CanRead(d, o, item.value) && CanRead(d', o, item.value) ::
          GetValue(d', o, item) == GetValue(d, o, item) <==> item.None? || Keeps(d, item.value, o))
    && (forall pair: Option<(nat, nat)> | pair.Some? ==> CanRead(d, o, pair.value.1) && CanRead(d', o, pair.value.1) ::
          GetValueSafe(d', o, pair) == GetValueSafe(d, o, pair)
          <==> pair.None? || pair.value.0 != d.scopeId || Keeps(d, pair.value.1, o))
  }

  /** The round trip succeeds and preserves the scope, the default and every
      statistic; every object that could be read still can, and keeps its value at
      a scope item, through each of the getters, exactly where `Keeps` holds. */
  method RoundTrip(d: Dimension, total: nat, partitions: Option<map<nat, Partition>>) returns (d': Dimension)
    requires DimensionOk(d)
    requires forall i | i in d.items :: Registered(d.items[i], partitions) && Fits(ToThriftValues(d.items[i]), d.default, total)
    requires PartitionsOk(partitions)
    ensures Rebuilt(d, d', total, partitions) && SameStatistics(d, d')
    ensures forall item: nat, o: nat | o < total :: ReadsAlike(d, d', item, o)
    ensures forall o: nat | o < total :: SameReads(d, d', o)
  {
    var t := ToThrift(d);
    forall i | i in t.scopedValues ensures Readable(t.scopedValues[i], d.default, partitions) {
      Rereadable(d.items[i], d.default, total, partitions);
    }
    var r := FromThrift(t, total, partitions);
    d' := r.value;
    forall i | i in d.items ensures d'.items[i] == Reread(d.items[i], d.default, total, partitions) {
      assert IsReadBack(d'.items[i], t.scopedValues[i], d.default, total, partitions);
    }
    RebuiltStatistics(d, d', total, partitions);
    forall item: nat, o: nat | o < total ensures ReadsAlike(d, d', item, o) {
      RebuiltReads(d, d', total, partitions, item, o);
    }
    forall o: nat | o < total ensures SameReads(d, d', o) {
      SameGetters(d, d', o);
    }
  }

  lemma SameGetters(d: Dimension, d': Dimension, o: nat)
    requires d'.scopeId == d.scopeId && d'.default == d.default && forall item: nat :: ReadsAlike(d, d', item, o)
    ensures SameReads(d, d', o)
  {
    forall item: nat | CanRead(d, o, item)
      ensures CanRead(d', o, item) && (GetValueFor(d', o, item) == GetValueFor(d, o, item) <==> Keeps(d, item, o))
    {
      assert ReadsAlike(d, d', item, o);
    }
  }

  /** The value of object `o` at `item` that the group values describe. */
  ghost predicate DescribedValue(p: Partition, values: map<nat, map<nat, real>>, default: real, item: nat, o: nat, x: real) {
    && (forall g | g in p.groups && o in p.groups[g] :: x == if item in values then Lookup(values[item], g, default) else default)
    && ((forall g | g in p.groups :: o !in p.groups[g]) ==> x == default)
  }

  lemma DescribedKept(p: Partition, values: map<nat, map<nat, real>>, default: real, total: nat, partitionId: nat,
                      d: Dimension, d': Dimension, item: nat, o: nat)
    requires DimensionOk(d) && d.default == default && d.items.Keys == values.Keys && ReadsAlike(d, d', item, o)
    requires d.empty == GroupBacked(map[], p, partitionId, default, total)
    requires AllGroupItems(d.items, p, values, default, total, partitionId)
    ensures CanRead(d', o, item) && DescribedValue(p, values, default, item, o, GetValueFor(d', o, item))
  {
    LookupMeaning(ValuesAt(d, item), o);
  }

  /** Dimensions built from groups keep every value: after serializing and
      rebuilding, an object still has the value that the caller gave its group. */
  method GroupsKeepEverything(scopeId: nat, p: Partition, values: map<nat, map<nat, real>>, default: real, total: nat,
                              partitionId: nat, partitions: map<nat, Partition>)
    returns (r: Option<Dimension>)
    requires forall id | id in partitions :: PartitionOk(partitions[id])
    requires partitionId in partitions && partitions[partitionId] == p
    ensures r.Some? <==> p.isDisjoint && forall i | i in values :: AllKnown(p, values[i])
    ensures r.Some? ==> forall item: nat, o: nat | o < total ::
              CanRead(r.value, o, item) && DescribedValue(p, values, default, item, o, GetValueFor(r.value, o, item))
  {
    var built := FromGroups(scopeId, p, values, default, total, partitionId);
    if built.None? {
      return None;
    }
    var d := built.value;
    var d' := RoundTrip(d, total, Some(partitions));
    forall item: nat, o: nat | o < total
      ensures CanRead(d', o, item) && DescribedValue(p, values, default, item, o, GetValueFor(d', o, item))
    {
      DescribedKept(p, values, default, total, partitionId, d, d', item, o);
    }
    r := Some(d');
  }

  /** An item whose map has a different default loses it: the original reads 7
      for object 0, the rebuilt item reads 3. */
  lemma OwnDefaultIsLost()
    ensures var v := ObjectBacked(ObjectMap(map[], 7.0, 1));
            ItemOk(v, 3.0) && GetObjectValue(v, 0) == 7.0 && GetObjectValue(Reread(v, 3.0, 1, None), 0) == 3.0
  {
  }
}
