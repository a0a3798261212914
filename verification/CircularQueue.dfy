/** The order in which a resuming circular iteration reaches its elements. */
module CircularQueue {
  import opened Collections

  /** What happens to the queue: an iteration passes its first `k` elements and
      puts them at the back, an element leaves, or one joins at some place. */
  datatype Event<T> = Pass(k: nat) | Leave(element: T) | Join(element: T, place: nat)

  function Rotated<T>(q: seq<T>, k: nat): (r: seq<T>)
    requires k <= |q|
    ensures |r| == |q|
  {
    q[k..] + q[..k]
  }

  function Without<T(==)>(q: seq<T>, x: T): seq<T> {
    if q == [] then [] else (if q[0] == x then [] else [q[0]]) + Without(q[1..], x)
  }

  predicate Possible<T(==)>(q: seq<T>, e: Event<T>) {
    match e
    case Pass(k) => k <= |q|
    case Leave(_) => true
    case Join(x, place) => x !in q && place <= |q|
  }

  function Apply<T(==)>(q: seq<T>, e: Event<T>): seq<T>
    requires Possible(q, e)
  {
    match e
    case Pass(k) => Rotated(q, k)
    case Leave(x) => Without(q, x)
    case Join(x, place) => q[..place] + [x] + q[place..]
  }

  function Passed<T(==)>(q: seq<T>, e: Event<T>): seq<T>
    requires Possible(q, e)
  {
    if e.Pass? then q[..e.k] else []
  }

  predicate AllPossible<T(==)>(q: seq<T>, events: seq<Event<T>>)
    decreases |events|
  {
    events == [] || (Possible(q, events[0]) && AllPossible(Apply(q, events[0]), events[1..]))
  }

  /** Everything passed during a run, in order. */
  function Trace<T(==)>(q: seq<T>, events: seq<Event<T>>): seq<T>
    requires AllPossible(q, events)
    decreases |events|
  {
    if events == [] then [] else Passed(q, events[0]) + Trace(Apply(q, events[0]), events[1..])
  }

  /** `y` comes up before `x`. */
  ghost predicate Ahead<T>(q: seq<T>, y: T, x: T) {
    exists i, j :: 0 <= i < j < |q| && q[i] == y && q[j] == x
  }

  lemma {:induction false} WithoutKeeps<T>(q: seq<T>, x: T, i: nat)
    returns (k: nat)
    requires i < |q| && q[i] != x
    ensures k < |Without(q, x)| && Without(q, x)[k] == q[i]
    decreases |q|
  {
    if i == 0 {
      k := 0;
    } else {
      var k' := WithoutKeeps(q[1..], x, i - 1);
      k := if q[0] == x then k' else k' + 1;
    }
  }

  lemma {:induction false} WithoutKeepsOrder<T>(q: seq<T>, x: T, i: nat, j: nat)
    requires i < j < |q| && q[i] != x && q[j] != x
    ensures Ahead(Without(q, x), q[i], q[j])
    decreases |q|
  {
    var rest := Without(q[1..], x);
    if i == 0 {
      var k := WithoutKeeps(q[1..], x, j - 1);
      assert Without(q, x)[0] == q[i] && Without(q, x)[k + 1] == q[j];
    } else {
      WithoutKeepsOrder(q[1..], x, i - 1, j - 1);
      var a, b :| 0 <= a < b < |rest| && rest[a] == q[i] && rest[b] == q[j];
      if q[0] == x {
        assert Without(q, x) == rest;
      } else {
        assert Without(q, x)[a + 1] == q[i] && Without(q, x)[b + 1] == q[j];
      }
    }
  }

  lemma {:induction false} WithoutMembers<T>(q: seq<T>, x: T)
    ensures forall y :: y in Without(q, x) <==> y in q && y != x
    ensures |Without(q, x)| <= |q|
    decreases |q|
  {
    if q != [] {
      WithoutMembers(q[1..], x);
      assert q == [q[0]] + q[1..];
    }
  }

  lemma {:induction false} WithoutDistinct<T>(q: seq<T>, x: T)
    requires NoRepeats(q)
    ensures NoRepeats(Without(q, x))
    decreases |q|
  {
    if q != [] {
      WithoutDistinct(q[1..], x);
      WithoutMembers(q[1..], x);
      assert forall y | y in q[1..] :: y != q[0];
      var rest := Without(q[1..], x);
      forall i | 0 <= i < |rest| ensures rest[i] != q[0] { assert rest[i] in rest; }
    }
  }

  lemma {:induction false} WithoutAbsent<T>(q: seq<T>, x: T)
    requires x !in q
    ensures Without(q, x) == q
    decreases |q|
  {
    if q != [] {
      WithoutAbsent(q[1..], x);
      assert q == [q[0]] + q[1..];
    }
  }

  lemma ApplyDistinct<T>(q: seq<T>, e: Event<T>)
    requires Possible(q, e) && NoRepeats(q)
    ensures NoRepeats(Apply(q, e))
  {
    if e.Leave? { WithoutDistinct(q, e.element); }
  }

  /** `x` never occurs without `y` before it. */
  ghost predicate Guarded<T>(t: seq<T>, y: T, x: T) {
    forall i | 0 <= i < |t| && t[i] == x :: y in t[..i]
  }

  lemma GuardedConcat<T>(head: seq<T>, tail: seq<T>, y: T, x: T)
    requires Guarded(head, y, x) && (y in head || Guarded(tail, y, x))
    ensures Guarded(head + tail, y, x)
  {
    var all := head + tail;
    forall i | 0 <= i < |all| && all[i] == x ensures y in all[..i] {
      if i < |head| {
        assert all[..i] == head[..i];
      } else {
        assert all[..i] == head + tail[..i - |head|];
      }
    }
  }

  lemma PassKeepsAhead<T>(q: seq<T>, k: nat, i: nat, j: nat)
    requires k <= |q| && NoRepeats(q) && i < j < |q|
    ensures q[i] in q[..k] || Ahead(Rotated(q, k), q[i], q[j])
    ensures Guarded(q[..k], q[i], q[j])
  {
    if i < k {
      assert q[..k][i] == q[i];
    } else {
      var r := Rotated(q, k);
      assert r[i - k] == q[i] && r[j - k] == q[j];
    }
    forall h | 0 <= h < k && q[..k][h] == q[j] ensures q[i] in q[..k][..h] {
      assert h == j;
      assert q[..k][..h][i] == q[i];
    }
  }

  lemma JoinKeepsAhead<T>(q: seq<T>, z: T, place: nat, i: nat, j: nat)
    requires place <= |q| && i < j < |q|
    ensures Ahead(q[..place] + [z] + q[place..], q[i], q[j])
  {
    var r := q[..place] + [z] + q[place..];
    var i', j' := if i < place then i else i + 1, if j < place then j else j + 1;
    assert r[i'] == q[i] && r[j'] == q[j];
  }

  /** One event: either `y` has been passed before `x` comes up, or `y` is still ahead. */
  lemma EventKeepsAhead<T>(q: seq<T>, e: Event<T>, y: T, x: T)
    requires Possible(q, e) && NoRepeats(q) && Ahead(q, y, x) && e != Leave(y) && e != Leave(x)
    ensures y in Passed(q, e) || Ahead(Apply(q, e), y, x)
    ensures Guarded(Passed(q, e), y, x)
  {
    var i, j :| 0 <= i < j < |q| && q[i] == y && q[j] == x;
    match e
    case Pass(k) => PassKeepsAhead(q, k, i, j);
    case Leave(z) => WithoutKeepsOrder(q, z, i, j);
    case Join(z, place) => JoinKeepsAhead(q, z, place, i, j);
  }

  /** Fairness: from the moment `y` is ahead of `x`, in whatever way iterations,
      removals and additions are mixed, `x` does not come up before `y` as long as
      neither of them leaves. */
  lemma {:induction false} Fair<T>(q: seq<T>, events: seq<Event<T>>, y: T, x: T)
    requires AllPossible(q, events) && NoRepeats(q) && Ahead(q, y, x)
    requires Leave(y) !in events && Leave(x) !in events
    ensures Guarded(Trace(q, events), y, x)
    decreases |events|
  {
    if events != [] {
      var e, rest := events[0], events[1..];
      assert e in events && forall f | f in rest :: f in events;
      EventKeepsAhead(q, e, y, x);
      ApplyDistinct(q, e);
      var head, tail := Passed(q, e), Trace(Apply(q, e), rest);
      if y !in head { Fair(Apply(q, e), rest, y, x); }
      GuardedConcat(head, tail, y, x);
    }
  }

  /** An element just passed is behind every other one. */
  lemma PassedGoesLast<T>(q: seq<T>, k: nat, y: T)
    requires 0 < k <= |q| && y in q && y != q[k - 1]
    ensures Ahead(Rotated(q, k), y, q[k - 1])
  {
    var i :| 0 <= i < |q| && q[i] == y;
    var r := Rotated(q, k);
    var at := if i < k then |q| - k + i else i - k;
    assert r[at] == y && r[|q| - 1] == q[k - 1];
  }

  /** An iteration can be cut after any element: passing `a + b` elements is
      passing `a` and then `b`. So what holds of the last element of an iteration
      holds of each of its elements. */
  lemma PassSplits<T>(q: seq<T>, a: nat, b: nat)
    requires a + b <= |q|
    ensures Rotated(q, a + b) == Rotated(Rotated(q, a), b)
    ensures q[..a + b] == q[..a] + Rotated(q, a)[..b]
  {
    var r := Rotated(q, a);
    assert r == q[a..] + q[..a];
    assert r[..b] == q[a..a + b] && r[b..] == q[a + b..] + q[..a];
    assert q[..a + b] == q[..a] + q[a..a + b];
  }

  /** After an iteration stops having just passed `x`, no later iteration comes
      to `x` again before it has come to every other surviving element. */
  lemma NoRevisitBeforeAll<T>(q: seq<T>, k: nat, events: seq<Event<T>>, y: T)
    requires NoRepeats(q) && 0 < k <= |q| && y in q && y != q[k - 1]
    requires AllPossible(Rotated(q, k), events) && Leave(y) !in events && Leave(q[k - 1]) !in events
    ensures Guarded(Trace(Rotated(q, k), events), y, q[k - 1])
  {
    PassedGoesLast(q, k, y);
    ApplyDistinct(q, Event<T>.Pass(k));
    Fair(Rotated(q, k), events, y, q[k - 1]);
  }
}
