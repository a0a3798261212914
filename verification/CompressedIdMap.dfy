/** CompressedIdMap: a default-extended map with a dense or a sparse layout. */
module CompressedIdMap {
  import opened DynamicBitSet
  import opened Collections

  // What the container denotes: the map of its non-default entries

  /** A write counts only when it is not the default and the key is still unset. */
  function FirstWrite<V(==)>(m: map<nat, V>, key: nat, value: V, default: V): map<nat, V> {
    if value == default || key in m then m else m[key := value]
  }

  function FirstWrites<V(==)>(items: seq<(nat, V)>, default: V): map<nat, V>
    decreases |items|
  {
    if items == [] then map[]
    else
      var last := items[|items| - 1];
      FirstWrite(FirstWrites(items[..|items| - 1], default), last.0, last.1, default)
  }

  /** Item `i` is the first non-default write of its key. */
  ghost predicate IsFirst<V>(items: seq<(nat, V)>, default: V, i: nat) {
    && i < |items| && items[i].1 != default
    && forall h | 0 <= h < i :: items[h].0 == items[i].0 ==> items[h].1 == default
  }

  /** The entries of a write sequence are exactly its first non-default writes. */
  lemma {:induction false} FirstWritesMeaning<V>(items: seq<(nat, V)>, default: V, key: nat, value: V)
    ensures key in FirstWrites(items, default) && FirstWrites(items, default)[key] == value
            <==> exists i: nat :: IsFirst(items, default, i) && items[i] == (key, value)
    decreases |items|, 2, 0
  {
    if items != [] {
      var n := |items| - 1;
      var front := items[..n];
      FirstWritesMeaning(front, default, key, value);
      forall i: nat | i < n ensures IsFirst(front, default, i) <==> IsFirst(items, default, i) {}
      if exists i: nat :: IsFirst(front, default, i) && front[i] == (key, value) {
        var i: nat :| IsFirst(front, default, i) && front[i] == (key, value);
        assert IsFirst(items, default, i) && items[i] == (key, value);
      }
      if items[n].0 == key {
        LastWrite(items, default);
      }
    }
  }

  /** The last write is a first one exactly when its key is unset before it. */
  lemma LastWrite<V>(items: seq<(nat, V)>, default: V)
    requires items != []
    ensures var n := |items| - 1;
            IsFirst(items, default, n) <==> items[n].1 != default && items[n].0 !in FirstWrites(items[..n], default)
    decreases |items|, 1, 0
  {
    var n := |items| - 1;
    var front, key := items[..n], items[n].0;
    if key in FirstWrites(front, default) {
      var value := FirstWrites(front, default)[key];
      FirstWritesMeaning(front, default, key, value);
      var i: nat :| IsFirst(front, default, i) && front[i] == (key, value);
    } else {
      forall h | 0 <= h < n && items[h].0 == key ensures items[h].1 == default {
        if items[h].1 != default { EarliestIsFirst(items, default, h); }
      }
    }
  }

  lemma {:induction false} EarliestIsFirst<V>(items: seq<(nat, V)>, default: V, h: nat)
    requires h < |items| - 1 && items[h].1 != default
    ensures items[h].0 in FirstWrites(items[..|items| - 1], default)
    decreases |items|, 0, h
  {
    var front := items[..|items| - 1];
    if IsFirst(front, default, h) {
      assert front[h] == items[h];
      FirstWritesMeaning(front, default, items[h].0, items[h].1);
    } else {
      var g :| 0 <= g < h && front[g].0 == front[h].0 && front[g].1 != default;
      EarliestIsFirst(items, default, g);
    }
  }

  function Lookup<V>(m: map<nat, V>, key: nat, default: V): V {
    if key in m then m[key] else default
  }

  function ShouldPickDense(totalSize: nat, expected: nat, threshold: real): bool {
    totalSize > 0 && expected > 0 && expected as real >= threshold * totalSize as real
  }

  /** The non-default positions of a vector. */
  ghost function NonDefault<V>(values: seq<V>, default: V): map<nat, V> {
    map i: nat | i < |values| && values[i] != default :: values[i]
  }

  lemma NonDefaultUpdate<V>(values: seq<V>, default: V, key: nat, value: V)
    requires key < |values| && values[key] == default && value != default
    ensures NonDefault(values[key := value], default) == NonDefault(values, default)[key := value]
  {
    SameMap(NonDefault(values[key := value], default), NonDefault(values, default)[key := value]);
  }

  ghost predicate Pairs<V>(visited: seq<(nat, V)>, m: map<nat, V>) {
    && (forall i, j | 0 <= i < j < |visited| :: visited[i].0 != visited[j].0)
    && (forall i | 0 <= i < |visited| :: visited[i].0 in m && m[visited[i].0] == visited[i].1)
    && (forall k | k in m :: (k, m[k]) in visited)
  }

  ghost predicate KeysAscend<V>(visited: seq<(nat, V)>) {
    forall i, j | 0 <= i < j < |visited| :: visited[i].0 < visited[j].0
  }

  lemma BitsToPairs<V>(bits: seq<nat>, visited: seq<(nat, V)>, values: seq<V>, default: V)
    requires Ascending(bits) && |visited| == |bits|
    requires forall i: nat :: i in bits <==> i < |values| && values[i] != default
    requires forall h | 0 <= h < |bits| :: bits[h] < |values| && visited[h] == (bits[h], values[bits[h]])
    ensures Pairs(visited, NonDefault(values, default)) && KeysAscend(visited)
  {
    var m := NonDefault(values, default);
    forall k | k in m ensures (k, m[k]) in visited {
      assert k in bits;
      var h :| 0 <= h < |bits| && bits[h] == k;
      assert visited[h] == (k, m[k]);
    }
    forall h | 0 <= h < |visited| ensures visited[h].0 in m && m[visited[h].0] == visited[h].1 {
      assert bits[h] in bits;
    }
  }

  /** Visiting one more key of the map. */
  lemma NextPair<V>(visited: seq<(nat, V)>, all: map<nat, V>, left: map<nat, V>, k: nat)
    requires left.Keys <= all.Keys && (forall j | j in left :: left[j] == all[j]) && k in left
    requires Pairs(visited, all - left.Keys)
    ensures Pairs(visited + [(k, left[k])], all - (left - {k}).Keys)
  {
    var done, done', visited' := all - left.Keys, all - (left - {k}).Keys, visited + [(k, left[k])];
    assert visited'[|visited|] == (k, left[k]);
    forall j | j in done' ensures (j, done'[j]) in visited' {
      if j != k {
        assert j in done && (j, done[j]) in visited;
      }
    }
  }

  /** The entries that survive the sweep of default values. */
  function WithoutDefaults<V(==)>(m: map<nat, V>, default: V): map<nat, V> {
    map k | k in m && m[k] != default :: m[k]
  }

  /** Filling an empty dense map from a default-free map, in any order. */
  lemma FillOne<V>(all: map<nat, V>, left: map<nat, V>, k: nat, default: V)
    requires left.Keys <= all.Keys && (forall j | j in left :: left[j] == all[j]) && k in left && all[k] != default
    ensures FirstWrite(all - left.Keys, k, left[k], default) == all - (left - {k}).Keys
  {
    SameMap(FirstWrite(all - left.Keys, k, left[k], default), all - (left - {k}).Keys);
  }

  class IdMap<V(==)> {
    var isDense: bool
    var totalSize: nat
    var defaultValue: V
    var sparse: map<nat, V>
    var values: seq<V>
    var nonDefaultBits: BitSet
    var numNonDefaultValues: nat

    ghost predicate Valid()
      reads this, nonDefaultBits
    {
      && nonDefaultBits.Valid()
      && nonDefaultBits.numBits == |values| == (if isDense then totalSize else 0)
      && (forall i: nat | i < |values| :: nonDefaultBits.Has(i) <==> values[i] != defaultValue)
      && numNonDefaultValues == |NonDefault(values, defaultValue)|
      && (isDense ==> sparse == map[])
      && (forall k | k in sparse :: k < totalSize && sparse[k] != defaultValue)
    }

    ghost function Entries(): map<nat, V>
      reads this
    {
      if isDense then NonDefault(values, defaultValue) else sparse
    }

    constructor (totalSize: nat, defaultValue: V, expected: nat, threshold: real)
      ensures Valid() && fresh(nonDefaultBits)
      ensures this.totalSize == totalSize && this.defaultValue == defaultValue
      ensures isDense == ShouldPickDense(totalSize, expected, threshold)
      ensures Entries() == map[]
    {
      var dense := ShouldPickDense(totalSize, expected, threshold);
      isDense := dense;
      this.totalSize := totalSize;
      this.defaultValue := defaultValue;
      sparse := map[];
      values := seq(if dense then totalSize else 0, _ => defaultValue);
      nonDefaultBits := new BitSet(if dense then totalSize else 0);
      numNonDefaultValues := 0;
      new;
      assert NonDefault(values, defaultValue) == map[];
    }

    constructor FromRange(keyToValue: seq<(nat, V)>, defaultValue: V, totalSize: nat, threshold: real)
      requires forall p | p in keyToValue :: p.0 < totalSize
      ensures Valid() && fresh(nonDefaultBits)
      ensures this.totalSize == totalSize && this.defaultValue == defaultValue
      ensures isDense == ShouldPickDense(totalSize, |keyToValue|, threshold)
      ensures Entries() == FirstWrites(keyToValue, defaultValue)
    {
      var dense := ShouldPickDense(totalSize, |keyToValue|, threshold);
      isDense := dense;
      this.totalSize := totalSize;
      this.defaultValue := defaultValue;
      sparse := map[];
      values := seq(if dense then totalSize else 0, _ => defaultValue);
      nonDefaultBits := new BitSet(if dense then totalSize else 0);
      numNonDefaultValues := 0;
      new;
      assert NonDefault(values, this.defaultValue) == map[];
      for i := 0 to |keyToValue|
        invariant Valid() && fresh(nonDefaultBits)
        invariant this.totalSize == totalSize && this.defaultValue == defaultValue && isDense == dense
        invariant Entries() == FirstWrites(keyToValue[..i], defaultValue)
      {
        assert keyToValue[i] in keyToValue;
        assert keyToValue[..i + 1][..i] == keyToValue[..i];
        Emplace(keyToValue[i].0, keyToValue[i].1);
      }
      assert keyToValue[..|keyToValue|] == keyToValue;
    }

    /** Consumes a hash map: default entries are erased first, and the layout is
        chosen by how many remain. */
    constructor FromSparse(keyToValue: map<nat, V>, defaultValue: V, totalSize: nat, threshold: real)
      requires forall k | k in keyToValue :: k < totalSize
      ensures Valid() && fresh(nonDefaultBits)
      ensures this.totalSize == totalSize && this.defaultValue == defaultValue
      ensures Entries() == WithoutDefaults(keyToValue, defaultValue)
      ensures isDense == ShouldPickDense(totalSize, |Entries()|, threshold)
    {
      var kept := WithoutDefaults(keyToValue, defaultValue);
      var dense := ShouldPickDense(totalSize, |kept|, threshold);
      isDense := dense;
      this.totalSize := totalSize;
      this.defaultValue := defaultValue;
      values := seq(if dense then totalSize else 0, _ => defaultValue);
      nonDefaultBits := new BitSet(if dense then totalSize else 0);
      numNonDefaultValues := 0;
      sparse := if dense then map[] else kept;
      new;
      assert NonDefault(values, this.defaultValue) == map[];
      if dense {
        EmplaceAll(kept);
      }
    }

    method EmplaceAll(kept: map<nat, V>)
      requires Valid() && isDense && Entries() == map[]
      requires forall k | k in kept :: k < totalSize && kept[k] != defaultValue
      modifies this, nonDefaultBits
      ensures Valid() && nonDefaultBits == old(nonDefaultBits)
      ensures totalSize == old(totalSize) && defaultValue == old(defaultValue) && isDense
      ensures Entries() == kept
    {
      var left := kept;
      assert kept - left.Keys == map[];
      while left != map[]
        invariant left.Keys <= kept.Keys && forall k | k in left :: left[k] == kept[k]
        invariant Valid() && nonDefaultBits == old(nonDefaultBits)
        invariant totalSize == old(totalSize) && defaultValue == old(defaultValue) && isDense
        invariant Entries() == kept - left.Keys
        decreases |left|
      {
        var k := Pick(left.Keys);
        FillOne(kept, left, k, defaultValue);
        Emplace(k, left[k]);
        left := left - {k};
      }
      SameMap(kept - left.Keys, kept);
    }

    /** The first non-default write of a key wins, in both layouts. */
    method Emplace(key: nat, value: V)
      requires Valid() && key < totalSize
      modifies this, nonDefaultBits
      ensures Valid() && nonDefaultBits == old(nonDefaultBits)
      ensures totalSize == old(totalSize) && defaultValue == old(defaultValue) && isDense == old(isDense)
      ensures Entries() == FirstWrite(old(Entries()), key, value, defaultValue)
    {
      if value == defaultValue {
        return;
      }
      if isDense {
        var added := nonDefaultBits.Set(key);
        if added {
          NonDefaultUpdate(values, defaultValue, key, value);
          Grow(NonDefault(values, defaultValue), key, value);
          values := values[key := value];
          numNonDefaultValues := numNonDefaultValues + 1;
        }
        return;
      }
      if key !in sparse {
        sparse := sparse[key := value];
      }
    }

    method GetValue(key: nat) returns (r: V)
      requires Valid() && key < totalSize
      ensures r == Lookup(Entries(), key, defaultValue)
    {
      r := if isDense then values[key] else if key in sparse then sparse[key] else defaultValue;
    }

    method NonDefaultSize() returns (n: nat)
      requires Valid()
      ensures n == |Entries()|
    {
      n := if isDense then numNonDefaultValues else |sparse|;
    }

    /** Each non-default entry once; in ascending key order when dense. */
    method ForEachNonDefault() returns (visited: seq<(nat, V)>)
      requires Valid()
      ensures Pairs(visited, Entries())
      ensures isDense ==> KeysAscend(visited)
    {
      if isDense {
        var bits := nonDefaultBits.ForEachSetBit();
        visited := [];
        for i := 0 to |bits|
          invariant |visited| == i
          invariant forall h | 0 <= h < i :: bits[h] < |values| && visited[h] == (bits[h], values[bits[h]])
        {
          assert bits[i] in bits;
          visited := visited + [(bits[i], values[bits[i]])];
        }
        BitsToPairs(bits, visited, values, defaultValue);
      } else {
        visited := IterateSparse();
      }
    }

    /** The member-wise comparison: the bit set compares its blocks and size. */
    ghost predicate SameFields(that: IdMap<V>)
      reads this, nonDefaultBits, that, that.nonDefaultBits
    {
      && isDense == that.isDense && totalSize == that.totalSize && defaultValue == that.defaultValue
      && sparse == that.sparse && values == that.values && numNonDefaultValues == that.numNonDefaultValues
      && nonDefaultBits.blocks == that.nonDefaultBits.blocks && nonDefaultBits.numBits == that.nonDefaultBits.numBits
    }

    /** Comparing field by field decides equality of meaning, provided the two
        maps have the same layout; maps with different layouts never compare equal. */
    lemma EqualityMeans(that: IdMap<V>)
      requires Valid() && that.Valid()
      ensures SameFields(that)
              <==> isDense == that.isDense && totalSize == that.totalSize && defaultValue == that.defaultValue
                   && Entries() == that.Entries()
    {
      if isDense == that.isDense && totalSize == that.totalSize && defaultValue == that.defaultValue
         && Entries() == that.Entries() {
        forall i: nat | i < |values| ensures values[i] == that.values[i] {
          if isDense {
            assert i in Entries() <==> i in that.Entries();
          }
        }
        assert values == that.values;
        forall j: nat ensures Member(nonDefaultBits.blocks, j) <==> Member(that.nonDefaultBits.blocks, j) {
          assert nonDefaultBits.Has(j) <==> Member(nonDefaultBits.blocks, j);
          assert that.nonDefaultBits.Has(j) <==> Member(that.nonDefaultBits.blocks, j);
        }
        SameMembers(nonDefaultBits.blocks, that.nonDefaultBits.blocks, nonDefaultBits.numBits);
      }
    }

    method IterateSparse() returns (visited: seq<(nat, V)>)
      ensures Pairs(visited, sparse)
    {
      visited := [];
      var left := sparse;
      while left != map[]
        invariant left.Keys <= sparse.Keys && forall k | k in left :: left[k] == sparse[k]
        invariant Pairs(visited, sparse - left.Keys)
        decreases |left|
      {
        var k := Pick(left.Keys);
        NextPair(visited, sparse, left, k);
        visited := visited + [(k, left[k])];
        left := left - {k};
      }
      SameMap(sparse - left.Keys, sparse);
    }
  }
}
