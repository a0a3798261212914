/**
 * The two queues cannot be told apart, and what their ranking means in terms of
 * the calls made.
 */
module QueueAgreement {
  import opened Options
  import opened Ranking
  import V1 = PriorityQueueV1
  import V2 = PriorityQueueV2

  datatype Call<T> = Update(items: seq<T>) | Remove(item: T)

  function Step<T>(r: State<T>, c: Call<T>): State<T> {
    match c
    case Update(items) => Ranking.Update(r, items)
    case Remove(item) => Ranking.Remove(r, item)
  }

  /** The ranking after a history of calls. */
  function Run<T>(calls: seq<Call<T>>): State<T> {
    if calls == [] then Initial() else Step(Run(calls[..|calls| - 1]), calls[|calls| - 1])
  }

  /** What a caller can see of a queue. */
  datatype View<T> = View(size: nat, top: Option<T>, isTopStrict: Option<bool>)

  ghost predicate Shows<T>(lt: (T, T) -> bool, r: State<T>, v: View<T>) {
    && v.size == |r.stamps|
    && (v.top.None? <==> |r.stamps| == 0) && (v.isTopStrict.None? <==> |r.stamps| == 0)
    && (v.top.Some? ==> IsTop(lt, r.stamps, v.top.value))
    && (v.top.Some? && v.isTopStrict.Some? ==> (v.isTopStrict.value <==> TopIsStrict(r.stamps, v.top.value)))
  }

  /** A ranking shows in one way only. */
  lemma ShowsUnique<T(!new)>(lt: (T, T) -> bool, r: State<T>, v: View<T>, w: View<T>)
    requires StrictTotal(lt) && Shows(lt, r, v) && Shows(lt, r, w)
    ensures v == w
  {
    if v.top.Some? { TopUnique(lt, r.stamps, v.top.value, w.top.value); }
  }

  method View1<T(==, !new)>(q: V1.IncrementalPriorityQueue<T>) returns (v: View<T>)
    requires q.Valid()
    ensures Shows(q.lt, q.Model(), v)
  {
    var t := q.Top();
    var s := q.IsTopStrict();
    if t.Some? {
      ghost var x :| IsTop(q.lt, q.Model().stamps, x) && (s.value <==> TopIsStrict(q.Model().stamps, x));
      TopUnique(q.lt, q.Model().stamps, x, t.value);
    }
    v := View(|q.items.contents|, t, s);
  }

  method View2<T(==, !new)>(q: V2.IncrementalPriorityQueueV2<T>) returns (v: View<T>)
    requires q.Valid()
    modifies q`sortedTopGroupItems
    ensures q.Valid() && Shows(q.lt, q.model, v)
  {
    var t := q.Top();
    var s := q.IsTopStrict();
    if t.Some? {
      ghost var x :| IsTop(q.lt, q.model.stamps, x) && (s.value <==> TopIsStrict(q.model.stamps, x));
      TopUnique(q.lt, q.model.stamps, x, t.value);
    }
    v := View(q.size, t, s);
  }

  method Apply<T(==, !new)>(q1: V1.IncrementalPriorityQueue<T>, q2: V2.IncrementalPriorityQueueV2<T>, c: Call<T>)
    requires q1.Valid() && q2.Valid() && q1.Model() == q2.model
    modifies q1, q1.items, q2
    ensures q1.Valid() && q2.Valid() && q1.Model() == q2.model == Step(old(q2.model), c)
  {
    match c {
      case Update(items) =>
        q1.Update(items);
        q2.Update(items);
      case Remove(item) =>
        q1.Remove(item);
        q2.Remove(item);
    }
  }

  method Observe<T(==, !new)>(q1: V1.IncrementalPriorityQueue<T>, q2: V2.IncrementalPriorityQueueV2<T>) returns (v1: View<T>, v2: View<T>)
    requires q1.Valid() && q2.Valid() && q1.Model() == q2.model && q1.lt == q2.lt
    modifies q2`sortedTopGroupItems
    ensures q2.Valid() && v1 == v2 && Shows(q2.lt, q2.model, v2)
  {
    v1 := View1(q1);
    v2 := View2(q2);
    ShowsUnique(q2.lt, q2.model, v1, v2);
  }

  method ApplyAndObserve<T(==, !new)>(q1: V1.IncrementalPriorityQueue<T>, q2: V2.IncrementalPriorityQueueV2<T>, c: Call<T>)
    returns (v1: View<T>, v2: View<T>)
    requires InStep(q1, q2)
    modifies q1, q1.items, q2
    ensures InStep(q1, q2) && q2.model == Step(old(q2.model), c)
    ensures v1 == v2 && Shows(q2.lt, q2.model, v2)
  {
    Apply(q1, q2, c);
    v1, v2 := Observe(q1, q2);
  }

  ghost predicate InStep<T(!new)>(q1: V1.IncrementalPriorityQueue<T>, q2: V2.IncrementalPriorityQueueV2<T>)
    reads q1, q1.items, q2
  {
    q1.Valid() && q2.Valid() && q1.lt == q2.lt && q1.Model() == q2.model
  }

  /** View number `i` shows the ranking after the first `i + 1` calls. */
  ghost predicate AllShow<T>(lt: (T, T) -> bool, calls: seq<Call<T>>, views: seq<View<T>>) {
    |views| <= |calls| && forall i | 0 <= i < |views| :: Shows(lt, Run(calls[..i + 1]), views[i])
  }

  lemma AllShowExtend<T>(lt: (T, T) -> bool, calls: seq<Call<T>>, views: seq<View<T>>, v: View<T>)
    requires AllShow(lt, calls, views) && |views| < |calls| && Shows(lt, Run(calls[..|views| + 1]), v)
    ensures AllShow(lt, calls, views + [v])
  {
  }

  lemma RunExtend<T>(calls: seq<Call<T>>, i: nat)
    requires i < |calls|
    ensures Run(calls[..i + 1]) == Step(Run(calls[..i]), calls[i])
  {
    assert calls[..i + 1][..i] == calls[..i];
  }

  /** Whatever calls are made, and however items repeat within one update, both
      queues show the same size, the same top item and the same strictness after
      every call, namely those of the ranking. */
  method Lockstep<T(==, !new)>(lt: (T, T) -> bool, calls: seq<Call<T>>) returns (views1: seq<View<T>>, views2: seq<View<T>>)
    requires StrictTotal(lt)
    ensures |views1| == |calls| && views1 == views2 && AllShow(lt, calls, views1)
  {
    var q1 := new V1.IncrementalPriorityQueue<T>(lt);
    var q2 := new V2.IncrementalPriorityQueueV2<T>(lt);
    views1, views2 := [], [];
    for i := 0 to |calls|
      invariant InStep(q1, q2) && q2.lt == lt && fresh(q1) && fresh(q2) && fresh(q1.items)
      invariant q2.model == Run(calls[..i])
      invariant |views1| == i && views1 == views2 && AllShow(lt, calls, views1)
    {
      RunExtend(calls, i);
      var v1, v2 := ApplyAndObserve(q1, q2, calls[i]);
      AllShowExtend(lt, calls, views1, v1);
      views1, views2 := views1 + [v1], views2 + [v2];
    }
  }
}
