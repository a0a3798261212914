/** groupPairsByFirst: a stable sort on the first component, then runs. */
module Grouping {
  ghost predicate KeysAscend<T>(pairs: seq<(char, T)>) {
    forall i, j | 0 <= i < j < |pairs| :: pairs[i].0 <= pairs[j].0
  }

  /** Before the first pair whose key is not smaller: equal keys keep their order. */
  function Insert<T>(p: (char, T), sorted: seq<(char, T)>): seq<(char, T)> {
    if sorted == [] || p.0 <= sorted[0].0 then [p] + sorted else [sorted[0]] + Insert(p, sorted[1..])
  }

  function SortByKey<T>(pairs: seq<(char, T)>): seq<(char, T)> {
    if pairs == [] then [] else Insert(pairs[0], SortByKey(pairs[1..]))
  }

  /** Consecutive pairs with the same key. */
  function Runs<T>(pairs: seq<(char, T)>): seq<(char, seq<T>)> {
    if pairs == [] then []
    else
      var (key, value) := pairs[0];
      var rest := Runs(pairs[1..]);
      if rest != [] && rest[0].0 == key then rest[0 := (key, [value] + rest[0].1)] else [(key, [value])] + rest
  }

  function GroupPairsByFirst<T>(pairs: seq<(char, T)>): seq<(char, seq<T>)> {
    Runs(SortByKey(pairs))
  }

  /** The second components that go with a key, in their original order. */
  function Select<T>(pairs: seq<(char, T)>, key: char): seq<T> {
    if pairs == [] then [] else (if pairs[0].0 == key then [pairs[0].1] else []) + Select(pairs[1..], key)
  }

  lemma {:induction false} InsertKeeps<T>(p: (char, T), sorted: seq<(char, T)>, key: char)
    requires KeysAscend(sorted)
    ensures KeysAscend(Insert(p, sorted)) && |Insert(p, sorted)| == |sorted| + 1
    ensures Insert(p, sorted)[0].0 == p.0 || (sorted != [] && Insert(p, sorted)[0] == sorted[0])
    ensures Select(Insert(p, sorted), key) == Select([p] + sorted, key)
    decreases |sorted|
  {
    assert ([p] + sorted)[1..] == sorted;
    if sorted != [] && p.0 > sorted[0].0 {
      var tail := sorted[1..];
      InsertKeeps(p, tail, key);
      var inner := Insert(p, tail);
      assert Insert(p, sorted)[1..] == inner && ([p] + tail)[1..] == tail;
      forall i | 0 <= i < |inner| ensures sorted[0].0 <= inner[i].0 {
        assert sorted[0].0 <= inner[0].0 by { if inner[0].0 != p.0 { assert inner[0] == sorted[1]; } }
        if i > 0 { assert inner[0].0 <= inner[i].0; }
      }
    }
  }

  lemma {:induction false} SortKeeps<T>(pairs: seq<(char, T)>, key: char)
    ensures KeysAscend(SortByKey(pairs)) && |SortByKey(pairs)| == |pairs|
    ensures Select(SortByKey(pairs), key) == Select(pairs, key)
    decreases |pairs|
  {
    if pairs != [] {
      SortKeeps(pairs[1..], key);
      InsertKeeps(pairs[0], SortByKey(pairs[1..]), key);
      assert ([pairs[0]] + SortByKey(pairs[1..]))[1..] == SortByKey(pairs[1..]);
    }
  }

  ghost predicate HasKey<T>(groups: seq<(char, seq<T>)>, key: char) {
    exists j :: 0 <= j < |groups| && groups[j].0 == key
  }

  /** Keys in strictly ascending order, each with all of its values. */
  ghost predicate Groups<T>(groups: seq<(char, seq<T>)>, pairs: seq<(char, T)>) {
    && (forall i, j | 0 <= i < j < |groups| :: groups[i].0 < groups[j].0)
    && (forall i | 0 <= i < |groups| :: groups[i].1 == Select(pairs, groups[i].0) && groups[i].1 != [])
    && (forall i | 0 <= i < |pairs| :: HasKey(groups, pairs[i].0))
  }

  lemma {:induction false} SelectMember<T>(pairs: seq<(char, T)>, key: char, value: T)
    ensures value in Select(pairs, key) <==> (key, value) in pairs
    decreases |pairs|
  {
    if pairs != [] {
      SelectMember(pairs[1..], key, value);
      assert pairs == [pairs[0]] + pairs[1..];
    }
  }

  lemma SelectLow<T>(pairs: seq<(char, T)>, key: char)
    requires forall i | 0 <= i < |pairs| :: pairs[i].0 > key
    ensures Select(pairs, key) == []
  {
    if pairs != [] { SelectLow(pairs[1..], key); }
  }

  /** The key of the first run is the first key. */
  lemma RunsStart<T>(pairs: seq<(char, T)>)
    requires pairs != []
    ensures Runs(pairs) != [] && Runs(pairs)[0].0 == pairs[0].0
  {
  }

  lemma {:induction false} RunsGroup<T>(pairs: seq<(char, T)>)
    requires KeysAscend(pairs)
    ensures Groups(Runs(pairs), pairs)
    decreases |pairs|
  {
    if pairs != [] {
      var tail, key := pairs[1..], pairs[0].0;
      RunsGroup(tail);
      var rest, groups := Runs(tail), Runs(pairs);
      if tail != [] { RunsStart(tail); }
      if rest != [] && rest[0].0 == key {
        RunsJoin(pairs, rest, groups);
      } else {
        RunsNew(pairs, rest, groups);
      }
    }
  }

  lemma RunsJoin<T>(pairs: seq<(char, T)>, rest: seq<(char, seq<T>)>, groups: seq<(char, seq<T>)>)
    requires pairs != [] && Groups(rest, pairs[1..]) && rest != [] && rest[0].0 == pairs[0].0
    requires groups == rest[0 := (pairs[0].0, [pairs[0].1] + rest[0].1)]
    ensures Groups(groups, pairs)
  {
    forall i, j | 0 <= i < j < |groups| ensures groups[i].0 < groups[j].0 {
      assert rest[i].0 < rest[j].0;
    }
    forall i | 0 <= i < |groups| ensures groups[i].1 == Select(pairs, groups[i].0) && groups[i].1 != [] {
      assert rest[i].1 == Select(pairs[1..], rest[i].0);
      if i > 0 { assert rest[0].0 < rest[i].0; }
      SelectStep(pairs, groups[i].0);
    }
    forall i | 0 <= i < |pairs| ensures HasKey(groups, pairs[i].0) {
      if i == 0 {
        assert groups[0].0 == pairs[0].0;
      } else {
        KeyCarries(rest, groups, pairs[1..], i - 1, 0);
      }
    }
  }

  lemma SelectStep<T>(pairs: seq<(char, T)>, key: char)
    requires pairs != []
    ensures pairs[0].0 == key ==> Select(pairs, key) == [pairs[0].1] + Select(pairs[1..], key)
    ensures pairs[0].0 != key ==> Select(pairs, key) == Select(pairs[1..], key)
  {
  }

  /** A key of the tail is a key of the groups, `shift` places further on. */
  lemma KeyCarries<T>(rest: seq<(char, seq<T>)>, groups: seq<(char, seq<T>)>, tail: seq<(char, T)>, i: nat, shift: nat)
    requires Groups(rest, tail) && i < |tail| && |groups| == |rest| + shift
    requires forall j | 0 <= j < |rest| :: groups[j + shift].0 == rest[j].0
    ensures HasKey(groups, tail[i].0)
  {
    assert HasKey(rest, tail[i].0);
    var j :| 0 <= j < |rest| && rest[j].0 == tail[i].0;
    assert groups[j + shift].0 == tail[i].0;
  }

  lemma RunsNew<T>(pairs: seq<(char, T)>, rest: seq<(char, seq<T>)>, groups: seq<(char, seq<T>)>)
    requires pairs != [] && Groups(rest, pairs[1..]) && KeysAscend(pairs)
    requires pairs[1..] == [] <==> rest == []
    requires rest != [] ==> rest[0].0 == pairs[1].0 && rest[0].0 != pairs[0].0
    requires groups == [(pairs[0].0, [pairs[0].1])] + rest
    ensures Groups(groups, pairs)
  {
    var key, tail := pairs[0].0, pairs[1..];
    forall i | 0 <= i < |tail| ensures tail[i].0 > key {
      assert pairs[0].0 <= pairs[1].0 <= pairs[i + 1].0;
    }
    SelectLow(tail, key);
    forall j | 0 <= j < |rest| ensures groups[j + 1] == rest[j] && rest[j].0 > key {
      if j > 0 { assert rest[0].0 < rest[j].0; }
    }
    forall i | 0 <= i < |groups| ensures groups[i].1 == Select(pairs, groups[i].0) && groups[i].1 != [] {
      SelectStep(pairs, groups[i].0);
      if i > 0 { assert groups[i] == rest[i - 1]; }
    }
    forall i | 0 <= i < |pairs| ensures HasKey(groups, pairs[i].0) {
      if i == 0 {
        assert groups[0].0 == key;
      } else {
        KeyCarries(rest, groups, tail, i - 1, 1);
      }
    }
  }

  /** Every key once, in ascending order, with the values of its pairs in their
      original order. */
  lemma GroupPairsMeaning<T>(pairs: seq<(char, T)>)
    ensures Groups(GroupPairsByFirst(pairs), pairs)
  {
    var sorted := SortByKey(pairs);
    SortKeeps(pairs, 'a');
    RunsGroup(sorted);
    var groups := Runs(sorted);
    forall i | 0 <= i < |groups| ensures groups[i].1 == Select(pairs, groups[i].0) {
      SortKeeps(pairs, groups[i].0);
    }
    forall i | 0 <= i < |pairs| ensures HasKey(groups, pairs[i].0) {
      var key := pairs[i].0;
      SortKeeps(pairs, key);
      assert pairs[i] == (key, pairs[i].1);
      SelectMember(pairs, key, pairs[i].1);
      SelectMember(sorted, key, pairs[i].1);
      var k :| 0 <= k < |sorted| && sorted[k] == (key, pairs[i].1);
      assert HasKey(groups, sorted[k].0);
    }
  }
}
