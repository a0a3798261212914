/**
 * What the ranking says about the calls that were made: which items are in the
 * queue, and which of two items is ahead.
 */
module RankingMeaning {
  import opened Ranking
  import opened QueueAgreement

  /** The item lists of the update calls, in order. */
  function Updates<T>(calls: seq<Call<T>>): seq<seq<T>> {
    if calls == [] then []
    else
      var rest, c := Updates(calls[..|calls| - 1]), calls[|calls| - 1];
      if c.Update? then rest + [c.items] else rest
  }

  /** How often one update lists an item. */
  function Times<T(==)>(items: seq<T>, x: T): nat {
    multiset(items)[x]
  }

  function Repeat(k: nat, n: nat): (s: seq<nat>)
    ensures |s| == n && forall i | 0 <= i < n :: s[i] == k
  {
    seq(n, _ => k)
  }

  /** Every update number, once per listing of `x` in that update. */
  function Appearances<T(==)>(updates: seq<seq<T>>, x: T): (s: seq<nat>)
    ensures forall i | 0 <= i < |s| :: s[i] < |updates|
  {
    if updates == [] then []
    else
      var n := |updates| - 1;
      Appearances(updates[..n], x) + Repeat(n, Times(updates[n], x))
  }

  lemma {:induction false} TouchAllAppends<T>(r: State<T>, k: nat, items: seq<T>, x: T)
    requires r.removed !! r.stamps.Keys
    ensures var r' := TouchAll(r, k, items);
            && r'.removed == r.removed && r'.removed !! r'.stamps.Keys && r'.count == r.count
            && (x in r'.stamps <==> x in r.stamps || (x in items && x !in r.removed))
            && (x in r'.stamps ==> r'.stamps[x] == (if x in r.stamps then r.stamps[x] else []) + Repeat(k, Times(items, x)))
  {
    if items != [] {
      var n := |items| - 1;
      assert items == items[..n] + [items[n]];
      TouchAllAppends(r, k, items[..n], x);
      if x == items[n] && x !in r.removed {
        var s := if x in r.stamps then r.stamps[x] else [];
        assert Repeat(k, Times(items, x)) == Repeat(k, Times(items[..n], x)) + [k];
        assert s + Repeat(k, Times(items, x)) == s + Repeat(k, Times(items[..n], x)) + [k];
        if x !in TouchAll(r, k, items[..n]).stamps { assert Times(items[..n], x) == 0; }
      }
    }
  }

  /** The queue holds the items some update listed and no call removed, each with
      its appearances.  A removed item stays out whatever comes later. */
  lemma {:induction false} RunMeaning<T>(calls: seq<Call<T>>, x: T)
    ensures var r := Run(calls);
            && r.removed !! r.stamps.Keys && r.count == |Updates(calls)|
            && (x in r.removed <==> Call.Remove(x) in calls)
            && (x in r.stamps <==> (exists i | 0 <= i < |calls| :: calls[i].Update? && x in calls[i].items) && Call.Remove(x) !in calls)
            && (x in r.stamps ==> r.stamps[x] == Appearances(Updates(calls), x))
            && (x !in r.stamps && x !in r.removed ==> Appearances(Updates(calls), x) == [])
  {
    if calls != [] {
      var n := |calls| - 1;
      var before, c := calls[..n], calls[n];
      assert calls == before + [c];
      RunMeaning(before, x);
      if c.Update? {
        var r := Run(before);
        TouchAllAppends(r.(count := r.count + 1), r.count, c.items, x);
        assert Updates(calls)[..|Updates(before)|] == Updates(before);
        if x !in c.items { assert Times(c.items, x) == 0; }
      }
    }
  }

  /** The rule: the first update that lists one item more often than the other
      puts it ahead. */
  ghost predicate ListedAhead<T>(updates: seq<seq<T>>, x: T, y: T) {
    exists i | 0 <= i < |updates| :: DecidesAt(updates, x, y, i)
  }

  ghost predicate DecidesAt<T>(updates: seq<seq<T>>, x: T, y: T, i: nat)
    requires i < |updates|
  {
    Times(updates[i], x) > Times(updates[i], y) && ListedAlike(updates[..i], x, y)
  }

  ghost predicate ListedAlike<T>(updates: seq<seq<T>>, x: T, y: T) {
    forall j | 0 <= j < |updates| :: Times(updates[j], x) == Times(updates[j], y)
  }

  lemma {:induction false} BeforeRepeats(s: seq<nat>, k: nat, a: nat, b: nat)
    ensures Before(s + Repeat(k, a), s + Repeat(k, b)) <==> a > b
  {
    if s != [] {
      assert (s + Repeat(k, a))[1..] == s[1..] + Repeat(k, a);
      assert (s + Repeat(k, b))[1..] == s[1..] + Repeat(k, b);
      BeforeRepeats(s[1..], k, a, b);
    } else {
      assert s + Repeat(k, a) == Repeat(k, a) && s + Repeat(k, b) == Repeat(k, b);
      if a > 0 && b > 0 {
        assert Repeat(k, a)[1..] == [] + Repeat(k, a - 1);
        assert Repeat(k, b)[1..] == [] + Repeat(k, b - 1);
        BeforeRepeats([], k, a - 1, b - 1);
      }
    }
  }

  /** Later update numbers cannot reverse an earlier decision. */
  lemma {:induction false} BeforePersists(s: seq<nat>, t: seq<nat>, k: nat, a: nat, b: nat)
    requires Before(s, t) && forall i | 0 <= i < |s| :: s[i] < k
    ensures Before(s + Repeat(k, a), t + Repeat(k, b))
  {
    if t != [] && s[0] == t[0] {
      assert (s + Repeat(k, a))[1..] == s[1..] + Repeat(k, a);
      assert (t + Repeat(k, b))[1..] == t[1..] + Repeat(k, b);
      BeforePersists(s[1..], t[1..], k, a, b);
    }
  }

  /** The appearance order is that rule, for every history, repeats included. */
  lemma {:induction false} AppearancesDecide<T>(updates: seq<seq<T>>, x: T, y: T)
    ensures Appearances(updates, x) == Appearances(updates, y) <==> ListedAlike(updates, x, y)
    ensures Before(Appearances(updates, x), Appearances(updates, y)) <==> ListedAhead(updates, x, y)
    decreases |updates|, 1
  {
    if updates != [] {
      var n := |updates| - 1;
      var a, b := Times(updates[n], x), Times(updates[n], y);
      var s, t := Appearances(updates[..n], x), Appearances(updates[..n], y);
      AppearancesDecide(updates[..n], x, y);
      AppearancesDecide(updates[..n], y, x);
      BeforeTotal(s, t);
      AheadStepwise(updates, x, y);
      if s == t {
        BeforeRepeats(s, n, a, b);
        BeforeIrreflexive(s);
        if a == b { } else { assert |s + Repeat(n, a)| != |t + Repeat(n, b)|; }
      } else if Before(s, t) {
        BeforePersists(s, t, n, a, b);
        BeforeIrreflexive(s + Repeat(n, a));
      } else {
        BeforePersists(t, s, n, b, a);
        BeforeAsymmetric(t + Repeat(n, b), s + Repeat(n, a));
        BeforeAsymmetric(t, s);
      }
    }
  }

  lemma AheadStepwise<T>(updates: seq<seq<T>>, x: T, y: T)
    requires updates != []
    ensures var n := |updates| - 1;
            && (ListedAlike(updates, x, y) <==> ListedAlike(updates[..n], x, y) && Times(updates[n], x) == Times(updates[n], y))
            && (ListedAhead(updates, x, y) <==>
                ListedAhead(updates[..n], x, y) || (ListedAlike(updates[..n], x, y) && Times(updates[n], x) > Times(updates[n], y)))
  {
    var n := |updates| - 1;
    assert forall j | 0 <= j < n :: updates[j] == updates[..n][j];
    forall i | 0 <= i < n ensures updates[..i] == updates[..n][..i] {
    }
    if ListedAhead(updates[..n], x, y) {
      var i :| 0 <= i < n && DecidesAt(updates[..n], x, y, i);
      assert DecidesAt(updates, x, y, i);
    }
    if ListedAhead(updates, x, y) {
      var i :| 0 <= i < |updates| && DecidesAt(updates, x, y, i);
      if i < n { assert DecidesAt(updates[..n], x, y, i); }
    }
    if ListedAlike(updates[..n], x, y) && Times(updates[n], x) > Times(updates[n], y) {
      assert DecidesAt(updates, x, y, n);
    }
  }

  /** Of two queued items, the first update listing one more often than the other
      decides; without such an update they are tied. */
  lemma QueueOrderMeaning<T>(calls: seq<Call<T>>, x: T, y: T)
    requires x in Run(calls).stamps && y in Run(calls).stamps
    ensures Before(Run(calls).stamps[x], Run(calls).stamps[y]) <==> ListedAhead(Updates(calls), x, y)
    ensures Run(calls).stamps[x] == Run(calls).stamps[y] <==> ListedAlike(Updates(calls), x, y)
  {
    RunMeaning(calls, x);
    RunMeaning(calls, y);
    AppearancesDecide(Updates(calls), x, y);
  }

  /** The header comment's wording: the first call containing one item but not
      the other puts that item first. */
  ghost predicate ContainedAhead<T>(updates: seq<seq<T>>, x: T, y: T) {
    exists i | 0 <= i < |updates| :: ContainsOnlyAt(updates, x, y, i)
  }

  ghost predicate ContainsOnlyAt<T>(updates: seq<seq<T>>, x: T, y: T, i: nat)
    requires i < |updates|
  {
    && x in updates[i] && y !in updates[i]
    && forall j | 0 <= j < i :: x in updates[j] <==> y in updates[j]
  }

  /** An update that contains both items, after updates that listed them equally
      often, lists them equally often too. */
  ghost predicate EvenAt<T>(updates: seq<seq<T>>, x: T, y: T, i: nat)
    requires i < |updates|
  {
    ListedAlike(updates[..i], x, y) && x in updates[i] && y in updates[i] ==> Times(updates[i], x) == Times(updates[i], y)
  }

  ghost predicate EvenlyListed<T>(updates: seq<seq<T>>, x: T, y: T) {
    forall i | 0 <= i < |updates| :: EvenAt(updates, x, y, i)
  }

  lemma ContainsMeans<T>(items: seq<T>, x: T)
    ensures x in items <==> Times(items, x) > 0
  {
    assert x in items <==> x in multiset(items);
  }

  lemma EvenPrefix<T>(updates: seq<seq<T>>, x: T, y: T, n: nat)
    requires n <= |updates| && EvenlyListed(updates, x, y)
    ensures EvenlyListed(updates[..n], x, y)
  {
    forall i | 0 <= i < n ensures EvenAt(updates[..n], x, y, i) {
      assert EvenAt(updates, x, y, i) && updates[..n][..i] == updates[..i];
    }
  }

  lemma {:induction false} ContainedAlike<T>(updates: seq<seq<T>>, x: T, y: T, n: nat)
    requires n <= |updates| && EvenlyListed(updates, x, y)
    ensures ListedAlike(updates[..n], x, y) <==> forall j | 0 <= j < n :: x in updates[j] <==> y in updates[j]
  {
    if n > 0 {
      ContainedAlike(updates, x, y, n - 1);
      AheadStepwise(updates[..n], x, y);
      assert updates[..n][..n - 1] == updates[..n - 1];
      assert EvenAt(updates, x, y, n - 1);
      ContainsMeans(updates[n - 1], x);
      ContainsMeans(updates[n - 1], y);
    }
  }

  lemma EvenDecides<T>(updates: seq<seq<T>>, x: T, y: T)
    requires EvenlyListed(updates, x, y)
    ensures ListedAhead(updates, x, y) <==> ContainedAhead(updates, x, y)
  {
    forall i | 0 <= i < |updates| ensures DecidesAt(updates, x, y, i) <==> ContainsOnlyAt(updates, x, y, i) {
      ContainedAlike(updates, x, y, i);
      assert EvenAt(updates, x, y, i);
      ContainsMeans(updates[i], x);
      ContainsMeans(updates[i], y);
    }
  }

  /** An uneven update decides between two items that no call separates. */
  lemma UnevenDecides<T>(updates: seq<seq<T>>, x: T, y: T, i: nat)
    requires i < |updates| && ListedAlike(updates[..i], x, y) && y in updates[i] && Times(updates[i], x) > Times(updates[i], y)
    ensures ListedAhead(updates[..i + 1], x, y) && !ContainedAhead(updates[..i + 1], x, y)
  {
    var upTo := updates[..i + 1];
    assert upTo[..i] == updates[..i];
    assert DecidesAt(upTo, x, y, i);
    forall h | 0 <= h <= i ensures !ContainsOnlyAt(upTo, x, y, h) {
      if h < i {
        assert Times(updates[..i][h], x) == Times(updates[..i][h], y);
        ContainsMeans(updates[h], x);
        ContainsMeans(updates[h], y);
      }
    }
  }

  /** The wording holds of two items after some updates. */
  ghost predicate WordingHolds<T>(updates: seq<seq<T>>, x: T, y: T) {
    Before(Appearances(updates, x), Appearances(updates, y)) <==> ContainedAhead(updates, x, y)
  }

  /** That wording holds of two items after every update exactly when each update
      that finds them tied and contains both lists them equally often. */
  lemma ContainmentDecides<T>(updates: seq<seq<T>>, x: T, y: T)
    ensures (forall n | 0 <= n <= |updates| :: WordingHolds(updates[..n], x, y) && WordingHolds(updates[..n], y, x))
            <==> EvenlyListed(updates, x, y)
  {
    forall n | 0 <= n <= |updates|
      ensures WordingHolds(updates[..n], x, y) <==> (ListedAhead(updates[..n], x, y) <==> ContainedAhead(updates[..n], x, y))
      ensures WordingHolds(updates[..n], y, x) <==> (ListedAhead(updates[..n], y, x) <==> ContainedAhead(updates[..n], y, x))
    {
      AppearancesDecide(updates[..n], x, y);
      AppearancesDecide(updates[..n], y, x);
    }
    if EvenlyListed(updates, x, y) {
      forall n | 0 <= n <= |updates| ensures WordingHolds(updates[..n], x, y) && WordingHolds(updates[..n], y, x) {
        EvenPrefix(updates, x, y, n);
        EvenSwaps(updates[..n], x, y);
        EvenDecides(updates[..n], x, y);
        EvenDecides(updates[..n], y, x);
      }
    } else {
      var i :| 0 <= i < |updates| && !EvenAt(updates, x, y, i);
      if Times(updates[i], x) > Times(updates[i], y) {
        UnevenDecides(updates, x, y, i);
        assert !WordingHolds(updates[..i + 1], x, y);
      } else {
        assert ListedAlike(updates[..i], y, x);
        UnevenDecides(updates, y, x, i);
        assert !WordingHolds(updates[..i + 1], y, x);
      }
    }
  }

  lemma EvenSwaps<T>(updates: seq<seq<T>>, x: T, y: T)
    requires EvenlyListed(updates, x, y)
    ensures EvenlyListed(updates, y, x)
  {
    forall i | 0 <= i < |updates| ensures EvenAt(updates, y, x, i) {
      assert EvenAt(updates, x, y, i);
    }
  }

  /** Listed by some update and removed by no call. */
  ghost predicate Queued<T>(calls: seq<Call<T>>, x: T) {
    (exists i | 0 <= i < |calls| :: calls[i].Update? && x in calls[i].items) && Call.Remove(x) !in calls
  }

  /** The wording orders the items that are in the queue after `calls`. */
  ghost predicate QueueFollowsWording<T(!new)>(calls: seq<Call<T>>) {
    forall x, y | x in Run(calls).stamps && y in Run(calls).stamps ::
      Before(Run(calls).stamps[x], Run(calls).stamps[y]) <==> ContainedAhead(Updates(calls), x, y)
  }

  ghost predicate QueueEvenlyListed<T(!new)>(calls: seq<Call<T>>) {
    forall x, y | Queued(calls, x) && Queued(calls, y) :: EvenlyListed(Updates(calls), x, y)
  }

  /** The calls up to the `n`-th update. */
  lemma {:induction false} UpToUpdate<T>(calls: seq<Call<T>>, n: nat) returns (k: nat)
    requires n <= |Updates(calls)|
    ensures k <= |calls| && Updates(calls[..k]) == Updates(calls)[..n]
  {
    if n == |Updates(calls)| {
      k := |calls|;
      assert calls[..k] == calls;
    } else {
      var front := calls[..|calls| - 1];
      k := UpToUpdate(front, n);
      assert front[..k] == calls[..k];
    }
  }

  lemma LastListedIsQueued<T>(calls: seq<Call<T>>, x: T)
    requires Updates(calls) != [] && x in Updates(calls)[|Updates(calls)| - 1] && Call.Remove(x) !in calls
    ensures x in Run(calls).stamps
  {
    RunMeaning(calls, x);
    ContainsMeans(Updates(calls)[|Updates(calls)| - 1], x);
  }

  /** An uneven update leaves the queue in an order that the wording does not give. */
  lemma UnevenQueue<T(!new)>(calls: seq<Call<T>>, x: T, y: T, i: nat) returns (k: nat)
    requires Queued(calls, x) && Queued(calls, y) && i < |Updates(calls)| && !EvenAt(Updates(calls), x, y, i)
    ensures k <= |calls| && !QueueFollowsWording(calls[..k])
  {
    var updates := Updates(calls);
    k := UpToUpdate(calls, i + 1);
    var upTo := calls[..k];
    assert Updates(upTo)[..i] == updates[..i] && Updates(upTo)[i] == updates[i];
    LastListedIsQueued(upTo, x);
    LastListedIsQueued(upTo, y);
    QueueOrderMeaning(upTo, x, y);
    QueueOrderMeaning(upTo, y, x);
    if Times(updates[i], x) > Times(updates[i], y) {
      UnevenDecides(updates, x, y, i);
    } else {
      UnevenDecides(updates, y, x, i);
    }
  }

  /** For every history, removals included: the queue is ordered by that wording
      after every call exactly when no update that finds two queued items tied and
      contains both lists one of them more often. */
  lemma WordingExactly<T(!new)>(calls: seq<Call<T>>)
    ensures (forall k | 0 <= k <= |calls| :: QueueFollowsWording(calls[..k]))
            <==> (forall k | 0 <= k <= |calls| :: QueueEvenlyListed(calls[..k]))
  {
    if forall k | 0 <= k <= |calls| :: QueueEvenlyListed(calls[..k]) {
      forall k | 0 <= k <= |calls| ensures QueueFollowsWording(calls[..k]) { EvenQueue(calls[..k]); }
    } else {
      var k :| 0 <= k <= |calls| && !QueueEvenlyListed(calls[..k]);
      var x, y :| Queued(calls[..k], x) && Queued(calls[..k], y) && !EvenlyListed(Updates(calls[..k]), x, y);
      var i :| 0 <= i < |Updates(calls[..k])| && !EvenAt(Updates(calls[..k]), x, y, i);
      var h := UnevenQueue(calls[..k], x, y, i);
      assert calls[..k][..h] == calls[..h];
    }
  }

  lemma EvenQueue<T(!new)>(calls: seq<Call<T>>)
    requires QueueEvenlyListed(calls)
    ensures QueueFollowsWording(calls)
  {
    forall x, y | x in Run(calls).stamps && y in Run(calls).stamps
      ensures Before(Run(calls).stamps[x], Run(calls).stamps[y]) <==> ContainedAhead(Updates(calls), x, y)
    {
      RunMeaning(calls, x);
      RunMeaning(calls, y);
      assert Queued(calls, x) && Queued(calls, y);
      QueueOrderMeaning(calls, x, y);
      EvenDecides(Updates(calls), x, y);
    }
  }

  /** So it is wrong in general: a repeat counts, though no call separates the two. */
  lemma RepeatBreaksContainment()
    ensures var updates := [["a", "a", "b"]];
            Before(Appearances(updates, "a"), Appearances(updates, "b")) && !ContainedAhead(updates, "a", "b")
  {
    var updates := [["a", "a", "b"]];
    assert Times(updates[0], "a") == 2 && Times(updates[0], "b") == 1;
    AppearancesDecide(updates, "a", "b");
    assert DecidesAt(updates, "a", "b", 0);
    assert updates[0][2] == "b";
  }
}
