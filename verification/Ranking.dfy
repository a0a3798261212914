/**
 * The ranking that both incremental priority queues promise: every item carries
 * the list of update numbers in which it appeared, and items are compared by
 * those lists.  This is the value-level specification of
 * IncrementalPriorityQueue and IncrementalPriorityQueueV2.
 */
module Ranking {
  /** `lt` is the items' operator<. */
  ghost predicate StrictTotal<T(!new)>(lt: (T, T) -> bool) {
    && (forall x :: !lt(x, x))
    && (forall x, y :: x != y ==> lt(x, y) || lt(y, x))
    && (forall x, y, z :: lt(x, y) && lt(y, z) ==> lt(x, z))
  }

  /** An appearance list `a` ranks strictly ahead of `b`: the first difference
      decides, and a proper extension ranks ahead of its prefix. */
  predicate Before(a: seq<nat>, b: seq<nat>) {
    if a == [] then false
    else if b == [] then true
    else if a[0] != b[0] then a[0] < b[0]
    else Before(a[1..], b[1..])
  }

  lemma {:induction false} BeforeIrreflexive(a: seq<nat>)
    ensures !Before(a, a)
  {
    if a != [] { BeforeIrreflexive(a[1..]); }
  }

  lemma {:induction false} BeforeTransitive(a: seq<nat>, b: seq<nat>, c: seq<nat>)
    requires Before(a, b) && Before(b, c)
    ensures Before(a, c)
  {
    if c != [] && a[0] == b[0] == c[0] { BeforeTransitive(a[1..], b[1..], c[1..]); }
  }

  lemma {:induction false} BeforeTotal(a: seq<nat>, b: seq<nat>)
    ensures a != b ==> Before(a, b) || Before(b, a)
  {
    if a != [] && b != [] && a[0] == b[0] {
      BeforeTotal(a[1..], b[1..]);
      assert a == [a[0]] + a[1..] && b == [b[0]] + b[1..];
    }
  }

  lemma BeforeAsymmetric(a: seq<nat>, b: seq<nat>)
    requires Before(a, b)
    ensures !Before(b, a) && a != b
  {
    if Before(b, a) { BeforeTransitive(a, b, a); }
    BeforeIrreflexive(a);
  }

  /** Appending an update number moves an item ahead of where it was ... */
  lemma {:induction false} ExtensionBefore(s: seq<nat>, k: nat)
    ensures Before(s + [k], s)
  {
    if s != [] {
      ExtensionBefore(s[1..], k);
      assert (s + [k])[1..] == s[1..] + [k];
    }
  }

  /** ... and, when `k` is the latest update, to the place immediately before:
      nothing fits strictly between `s + [k]` and `s`. */
  lemma {:induction false} ExtensionAdjacent(t: seq<nat>, s: seq<nat>, k: nat)
    requires Before(t, s) && t != s + [k]
    requires forall i | 0 <= i < |t| :: t[i] <= k
    ensures Before(t, s + [k])
  {
    if s == [] {
      if t[0] == k { assert t == [k] + t[1..]; }
    } else if t[0] == s[0] {
      assert t == [t[0]] + t[1..] && s == [s[0]] + s[1..];
      assert (s + [k])[1..] == s[1..] + [k];
      ExtensionAdjacent(t[1..], s[1..], k);
    }
  }

  /** The state both queues stand for. */
  datatype State<T> = State(count: nat, removed: set<T>, stamps: map<T, seq<nat>>)

  function Initial<T>(): State<T> { State(0, {}, map[]) }

  /** Effect of one item of update number `k`. */
  function Touch<T>(r: State<T>, k: nat, item: T): State<T> {
    if item in r.removed then r
    else r.(stamps := r.stamps[item := (if item in r.stamps then r.stamps[item] else []) + [k]])
  }

  function TouchAll<T>(r: State<T>, k: nat, items: seq<T>): State<T> {
    if items == [] then r
    else Touch(TouchAll(r, k, items[..|items| - 1]), k, items[|items| - 1])
  }

  function Update<T>(r: State<T>, items: seq<T>): State<T> {
    TouchAll(r.(count := r.count + 1), r.count, items)
  }

  function Remove<T>(r: State<T>, item: T): State<T> {
    r.(removed := r.removed + {item}, stamps := r.stamps - {item})
  }

  lemma TouchSize<T>(r: State<T>, k: nat, x: T)
    ensures |Touch(r, k, x).stamps| == if x in r.stamps || x in r.removed then |r.stamps| else |r.stamps| + 1
  {
    var touched := Touch(r, k, x).stamps;
    assert touched.Keys == if x in r.stamps || x in r.removed then r.stamps.Keys else r.stamps.Keys + {x};
    assert |touched| == |touched.Keys|;
  }

  lemma RemoveSize<T>(r: State<T>, x: T)
    ensures |Remove(r, x).stamps| == if x in r.stamps then |r.stamps| - 1 else |r.stamps|
    ensures x in r.removed && x !in r.stamps ==> Remove(r, x) == r
  {
    assert Remove(r, x).stamps.Keys == r.stamps.Keys - {x};
    assert |Remove(r, x).stamps| == |Remove(r, x).stamps.Keys|;
    if x !in r.stamps { assert Remove(r, x).stamps == r.stamps; }
  }

  /** `x` ranks ahead of `y`: appearance lists first, then operator<. */
  predicate Ahead<T(==)>(lt: (T, T) -> bool, stamps: map<T, seq<nat>>, x: T, y: T)
    requires x in stamps && y in stamps
  {
    if stamps[x] == stamps[y] then lt(x, y) else Before(stamps[x], stamps[y])
  }

  ghost predicate IsTop<T>(lt: (T, T) -> bool, stamps: map<T, seq<nat>>, x: T) {
    x in stamps && forall y | y in stamps && y != x :: Ahead(lt, stamps, x, y)
  }

  /** The top item's priority is strictly higher than that of any other item. */
  ghost predicate TopIsStrict<T>(stamps: map<T, seq<nat>>, x: T)
    requires x in stamps
  {
    forall y | y in stamps && y != x :: Before(stamps[x], stamps[y])
  }

  lemma TopUnique<T(!new)>(lt: (T, T) -> bool, stamps: map<T, seq<nat>>, x: T, y: T)
    requires StrictTotal(lt) && IsTop(lt, stamps, x) && IsTop(lt, stamps, y)
    ensures x == y
  {
    if x != y {
      assert Ahead(lt, stamps, x, y) && Ahead(lt, stamps, y, x);
      if stamps[x] != stamps[y] { BeforeAsymmetric(stamps[x], stamps[y]); }
    }
  }
}
