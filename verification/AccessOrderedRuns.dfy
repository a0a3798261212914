/** Whole runs of the access-ordered sets. */
module AccessOrderedRuns {
  import opened CircularQueue
  import opened AccessOrderedSets

  /** An iteration asks for up to `k` elements before it stops. */
  datatype Call<T> = Insert(element: T) | Erase(element: T) | Iterate(k: nat)

  /** One call, and the queue event it amounts to, if any. */
  method Perform<T>(s: AccessOrderedFastSet<T>, call: Call<T>) returns (visited: seq<T>, ghost events: seq<Event<T>>)
    requires s.Valid()
    modifies s, s.base
    ensures s.Valid() && |events| <= 1
    ensures events == [] ==> s.base.Queue() == old(s.base.Queue()) && visited == []
    ensures events != [] ==>
              && Possible(old(s.base.Queue()), events[0])
              && visited == Passed(old(s.base.Queue()), events[0]) && s.base.Queue() == Apply(old(s.base.Queue()), events[0])
              && (events[0].Leave? ==> call == Erase(events[0].element))
  {
    visited, events := [], [];
    match call {
      case Insert(element) =>
        var present := s.Contains(element);
        ghost var place := s.Insert(element);
        if !present { events := [Event<T>.Join(element, place)]; }
      case Erase(element) =>
        s.Erase(element);
        events := [Event<T>.Leave(element)];
      case Iterate(k) =>
        s.base.FullIteration();
        var steps := if k < |s.base.nodes| then k else |s.base.nodes|;
        visited := s.base.Iterate(steps);
        events := [Event<T>.Pass(steps)];
    }
  }

  /** Every run of calls yields the trace of its queue events. */
  method Run<T>(s: AccessOrderedFastSet<T>, calls: seq<Call<T>>) returns (visited: seq<T>, ghost events: seq<Event<T>>)
    requires s.Valid()
    modifies s, s.base
    ensures s.Valid() && AllPossible(old(s.base.Queue()), events) && visited == Trace(old(s.base.Queue()), events)
    ensures forall e | e in events && e.Leave? :: Call<T>.Erase(e.element) in calls
    decreases |calls|
  {
    visited, events := [], [];
    if calls != [] {
      ghost var before := s.base.Queue();
      var first;
      ghost var head;
      first, head := Perform(s, calls[0]);
      var rest;
      ghost var tail;
      rest, tail := Run(s, calls[1..]);
      visited, events := first + rest, head + tail;
      assert forall c | c in calls[1..] :: c in calls;
      if head == [] {
        assert events == tail && visited == rest;
      } else {
        assert events[0] == head[0] && events[1..] == tail;
      }
    }
  }

  /** Whatever else happens, elements that stay in the set come up in turn: one
      that is behind another does not come up before it. */
  method FairRun<T>(s: AccessOrderedFastSet<T>, calls: seq<Call<T>>, ghost y: T, ghost x: T) returns (visited: seq<T>)
    requires s.Valid() && Ahead(s.base.Queue(), y, x) && Call<T>.Erase(y) !in calls && Call<T>.Erase(x) !in calls
    modifies s, s.base
    ensures s.Valid() && Guarded(visited, y, x)
  {
    s.base.FullIteration();
    ghost var q := s.base.Queue();
    ghost var events;
    visited, events := Run(s, calls);
    Fair(q, events, y, x);
  }

  // The sorted set, between insertions

  /** One call other than an insertion, and the queue event it amounts to, if any. */
  method PerformSorted<T(!new)>(s: AccessOrderedSortedSet<T>, call: Call<T>) returns (visited: seq<T>, ghost events: seq<Event<T>>)
    requires s.Valid() && !call.Insert?
    modifies s.base
    ensures s.Valid() && |events| <= 1
    ensures events == [] ==> s.base.Queue() == old(s.base.Queue()) && visited == []
    ensures events != [] ==>
              && Possible(old(s.base.Queue()), events[0])
              && visited == Passed(old(s.base.Queue()), events[0]) && s.base.Queue() == Apply(old(s.base.Queue()), events[0])
              && (events[0].Leave? ==> call.Erase? && Equivalent(s.less, events[0].element, call.element))
  {
    visited, events := [], [];
    if call.Erase? {
      var i := s.Find(call.element);
      ghost var stored := Elements(s.base.nodes);
      s.Erase(call.element);
      if i < |stored| {
        assert stored[i] in stored;
        events := [Event<T>.Leave(stored[i])];
      }
    } else {
      s.base.FullIteration();
      var steps := if call.k < |s.base.nodes| then call.k else |s.base.nodes|;
      visited := s.base.Iterate(steps);
      events := [Event<T>.Pass(steps)];
    }
  }

  /** No call takes out an element equivalent to `x`. */
  ghost predicate Stays<T>(less: (T, T) -> bool, calls: seq<Call<T>>, x: T) {
    forall c | c in calls && c.Erase? :: !Equivalent(less, x, c.element)
  }

  method RunSorted<T(!new)>(s: AccessOrderedSortedSet<T>, calls: seq<Call<T>>) returns (visited: seq<T>, ghost events: seq<Event<T>>)
    requires s.Valid() && forall c | c in calls :: !c.Insert?
    modifies s.base
    ensures s.Valid() && AllPossible(old(s.base.Queue()), events) && visited == Trace(old(s.base.Queue()), events)
    ensures forall e | e in events && e.Leave? :: !Stays(s.less, calls, e.element)
    decreases |calls|
  {
    visited, events := [], [];
    if calls != [] {
      assert calls[0] in calls && forall c | c in calls[1..] :: c in calls;
      var first;
      ghost var head;
      first, head := PerformSorted(s, calls[0]);
      var rest;
      ghost var tail;
      rest, tail := RunSorted(s, calls[1..]);
      visited, events := first + rest, head + tail;
      if head == [] {
        assert events == tail && visited == rest;
      } else {
        assert events[0] == head[0] && events[1..] == tail;
      }
    }
  }

  /** Between insertions the sorted set is fair in the same way. */
  method FairSortedRun<T(!new)>(s: AccessOrderedSortedSet<T>, calls: seq<Call<T>>, ghost y: T, ghost x: T) returns (visited: seq<T>)
    requires s.Valid() && (forall c | c in calls :: !c.Insert?)
    requires Ahead(s.base.Queue(), y, x) && Stays(s.less, calls, y) && Stays(s.less, calls, x)
    modifies s.base
    ensures s.Valid() && Guarded(visited, y, x)
  {
    s.base.FullIteration();
    ghost var q := s.base.Queue();
    ghost var events;
    visited, events := RunSorted(s, calls);
    Fair(q, events, y, x);
  }
}
