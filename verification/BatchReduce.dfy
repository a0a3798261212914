/**
 * The batching of CoroUtils: an index range is cut into one batch per thread,
 * each batch is reduced by itself, and the batch results are combined under a
 * mutex in whatever order the batches finish.
 */
module BatchReduce {
  import opened Options
  import opened Monoids

  function Min(a: nat, b: nat): nat { if a < b then a else b }

  /** First index of batch `b`: the first total % batches batches hold one extra item. */
  function Start(total: nat, batches: nat, b: nat): nat
    requires batches > 0
  {
    b * (total / batches) + Min(b, total % batches)
  }

  function Count(total: nat, batches: nat, b: nat): nat
    requires batches > 0
  {
    total / batches + if b < total % batches then 1 else 0
  }

  lemma NextBatch(total: nat, batches: nat, b: nat)
    requires batches > 0
    ensures Start(total, batches, b + 1) == Start(total, batches, b) + Count(total, batches, b)
  {
    assert (b + 1) * (total / batches) == b * (total / batches) + total / batches;
  }

  lemma LastBatch(total: nat, batches: nat)
    requires batches > 0
    ensures Start(total, batches, batches) == total
  {
    assert batches * (total / batches) + total % batches == total;
  }

  lemma {:induction false} StartMonotone(total: nat, batches: nat, b: nat, c: nat)
    requires batches > 0 && b <= c
    ensures Start(total, batches, b) <= Start(total, batches, c)
    decreases c - b
  {
    if b < c {
      NextBatch(total, batches, b);
      StartMonotone(total, batches, b + 1, c);
    }
  }

  /** Index `i` belongs to batch `b`. */
  predicate InBatch(total: nat, batches: nat, b: nat, i: nat)
    requires batches > 0
  {
    Start(total, batches, b) <= i < Start(total, batches, b) + Count(total, batches, b)
  }

  /** The batches cut the range exactly: every index is in one batch and no other,
      and batch sizes differ by at most one. */
  lemma {:induction false} BatchesPartition(total: nat, batches: nat, i: nat) returns (b: nat)
    requires batches > 0 && i < total
    ensures b < batches && InBatch(total, batches, b, i)
    ensures forall c | 0 <= c < batches && InBatch(total, batches, c, i) :: c == b
    ensures forall c: nat, d: nat :: Count(total, batches, c) <= Count(total, batches, d) + 1
  {
    LastBatch(total, batches);
    b := 0;
    NextBatch(total, batches, 0);
    assert Start(total, batches, 0) == 0;
    while Start(total, batches, b + 1) <= i
      invariant b < batches && Start(total, batches, b) <= i
      decreases batches - b
    {
      b := b + 1;
    }
    NextBatch(total, batches, b);
    forall c | 0 <= c < batches && InBatch(total, batches, c, i) ensures c == b {
      NextBatch(total, batches, c);
      if c < b { StartMonotone(total, batches, c + 1, b); }
      if b < c { StartMonotone(total, batches, b + 1, c); }
    }
  }

  /** Work results for the indices from `lo` up to but not including `hi`. */
  function Results<V>(work: nat -> V, lo: nat, hi: nat): (s: seq<V>)
    requires lo <= hi
    ensures |s| == hi - lo && forall i | lo <= i < hi :: s[i - lo] == work(i)
  {
    seq(hi - lo, i requires 0 <= i => work(lo + i))
  }

  lemma ResultsConcat<V>(work: nat -> V, lo: nat, mid: nat, hi: nat)
    requires lo <= mid <= hi
    ensures Results(work, lo, mid) + Results(work, mid, hi) == Results(work, lo, hi)
  {
  }

  /** One batch, or the serial fallback: accumulate index by index. */
  method Accumulate<V(!new)>(m: Monoid<V>, work: nat -> V, lo: nat, hi: nat) returns (r: V)
    requires lo <= hi
    ensures IsMonoid(m) ==> r == Fold(m, Results(work, lo, hi))
  {
    r := m.neutral;
    for i := lo to hi
      invariant IsMonoid(m) ==> r == Fold(m, Results(work, lo, i))
    {
      if IsMonoid(m) {
        ResultsConcat(work, lo, i, i + 1);
        assert Results(work, i, i + 1) == [work(i)];
        FoldConcat(m, Results(work, lo, i), [work(i)]);
        FoldSingle(m, work(i));
      }
      r := m.op(r, work(i));
    }
  }

  /** `order` lists every batch once: the order in which batches finish. */
  ghost predicate CompletionOrder(order: seq<nat>, batches: nat) {
    multiset(order) == multiset(Upto(batches))
  }

  /** `f(b)` is the fold of batch `b`, which reaches up to the next batch. */
  ghost predicate FoldsBatch<V>(m: Monoid<V>, work: nat -> V, total: nat, batches: nat, f: nat -> V, b: nat)
    requires batches > 0
  {
    var lo := Start(total, batches, b);
    f(b) == Fold(m, Results(work, lo, lo + Count(total, batches, b)))
  }

  lemma MappedLast<V>(f: nat -> V, n: nat)
    requires n >= 1
    ensures Mapped(f, Upto(n)) == Mapped(f, Upto(n - 1)) + [f(n - 1)]
  {
  }

  /** In index order, folding the batch folds folds everything. */
  lemma {:induction false} FoldOfFolds<V(!new)>(m: Monoid<V>, work: nat -> V, total: nat, batches: nat, f: nat -> V, n: nat)
    requires IsMonoid(m) && n <= batches && batches > 0
    requires forall b: nat | b < n :: FoldsBatch(m, work, total, batches, f, b)
    ensures Fold(m, Mapped(f, Upto(n))) == Fold(m, Results(work, 0, Start(total, batches, n)))
    decreases n
  {
    if n == 0 {
      assert Results(work, 0, Start(total, batches, 0)) == [];
    } else {
      FoldOfFolds(m, work, total, batches, f, n - 1);
      assert FoldsBatch(m, work, total, batches, f, n - 1);
      NextBatch(total, batches, n - 1);
      AppendFold(m, work, f, n, Start(total, batches, n - 1), Start(total, batches, n));
    }
  }

  lemma AppendFold<V(!new)>(m: Monoid<V>, work: nat -> V, f: nat -> V, n: nat, lo: nat, hi: nat)
    requires IsMonoid(m) && n >= 1 && lo <= hi
    requires Fold(m, Mapped(f, Upto(n - 1))) == Fold(m, Results(work, 0, lo)) && f(n - 1) == Fold(m, Results(work, lo, hi))
    ensures Fold(m, Mapped(f, Upto(n))) == Fold(m, Results(work, 0, hi))
  {
    MappedLast(f, n);
    FoldConcat(m, Mapped(f, Upto(n - 1)), [f(n - 1)]);
    FoldSingle(m, f(n - 1));
    ResultsConcat(work, 0, lo, hi);
    FoldConcat(m, Results(work, 0, lo), Results(work, lo, hi));
  }

  /** The fold of each batch. */
  ghost function BatchFold<V>(m: Monoid<V>, work: nat -> V, total: nat, batches: nat): nat -> V
    requires batches > 0
  {
    (b: nat) => var lo := Start(total, batches, b); Fold(m, Results(work, lo, lo + Count(total, batches, b)))
  }

  lemma BatchFoldAt<V>(m: Monoid<V>, work: nat -> V, total: nat, batches: nat, b: nat)
    requires batches > 0
    ensures FoldsBatch(m, work, total, batches, BatchFold(m, work, total, batches), b)
  {
  }

  function Upto(n: nat): (s: seq<nat>)
    ensures |s| == n && forall i | 0 <= i < n :: s[i] == i
  {
    seq(n, i requires 0 <= i => i as nat)
  }

  /** Whatever the finishing order, the batch folds combine to the fold of all. */
  lemma AnyOrder<V(!new)>(m: Monoid<V>, work: nat -> V, total: nat, batches: nat, f: nat -> V, order: seq<nat>)
    requires IsCommutativeMonoid(m) && batches > 0 && CompletionOrder(order, batches)
    requires forall b: nat | b < batches :: FoldsBatch(m, work, total, batches, f, b)
    ensures Fold(m, Mapped(f, order)) == Fold(m, Results(work, 0, total))
  {
    MappedPermuted(f, order, Upto(batches));
    FoldPermuted(m, Mapped(f, order), Mapped(f, Upto(batches)));
    FoldOfFolds(m, work, total, batches, f, batches);
    LastBatch(total, batches);
  }

  /** Each batch result is combined into the final one as its batch finishes. */
  method CombineBatches<V(!new)>(m: Monoid<V>, work: nat -> V, total: nat, batches: nat, order: seq<nat>, ghost f: nat -> V)
    returns (r: V)
    requires batches > 0 && forall b: nat :: FoldsBatch(m, work, total, batches, f, b)
    ensures IsMonoid(m) ==> r == Fold(m, Mapped(f, order))
  {
    ghost var folds := Mapped(f, order);
    r := m.neutral;
    for i := 0 to |order|
      invariant IsMonoid(m) ==> r == Fold(m, folds[..i])
    {
      var lo := Start(total, batches, order[i]);
      var batchResult := Accumulate(m, work, lo, lo + Count(total, batches, order[i]));
      if IsMonoid(m) {
        assert FoldsBatch(m, work, total, batches, f, order[i]);
        assert folds[..i + 1] == folds[..i] + [batchResult];
        FoldConcat(m, folds[..i], [batchResult]);
        FoldSingle(m, batchResult);
      }
      r := m.op(r, batchResult);
    }
    assert folds[..|order|] == folds;
  }

  /** runEachAndGetAccumulatedWithBatching: for every item count, thread count and
      finishing order, the result is the serial fold. */
  method AccumulateInBatches<V(!new)>(m: Monoid<V>, work: nat -> V, total: nat, threads: Option<nat>, order: seq<nat>)
    returns (r: V)
    requires threads.Some? ==> threads.value >= 1 && CompletionOrder(order, Min(threads.value, total))
    ensures IsCommutativeMonoid(m) ==> r == Fold(m, Results(work, 0, total))
  {
    if total == 0 {
      return m.neutral;
    }
    if threads.None? {
      r := Accumulate(m, work, 0, total);
      return;
    }
    var batches := Min(threads.value, total);
    ghost var f := BatchFold(m, work, total, batches);
    forall b: nat ensures FoldsBatch(m, work, total, batches, f, b) {
      BatchFoldAt(m, work, total, batches, b);
    }
    r := CombineBatches(m, work, total, batches, order, f);
    if IsCommutativeMonoid(m) { AnyOrder(m, work, total, batches, f, order); }
  }

  // ---- pairs ----

  /** The pair that pair index `k` stands for. */
  function Decode(k: nat, n2: nat): (nat, nat)
    requires n2 > 0
  {
    (k / n2, k % n2)
  }

  lemma {:induction false} TimesMonotone(a: nat, b: nat, n: nat)
    requires a <= b
    ensures a * n <= b * n
  {
    assert b * n == a * n + (b - a) * n;
  }

  lemma QuotientUnique(q: nat, r: nat, i: nat, j: nat, n: nat)
    requires r < n && j < n && q * n + r == i * n + j
    ensures q == i && r == j
  {
    assert (q + 1) * n == q * n + n;
    assert (i + 1) * n == i * n + n;
    if q < i {
      TimesMonotone(q + 1, i, n);
    } else if i < q {
      TimesMonotone(i + 1, q, n);
    }
  }

  lemma DivMod(k: nat, n: nat)
    requires n > 0
    ensures (k / n) * n + k % n == k
  {
  }

  /** Every pair is decoded from exactly one index, and the index order is the
      order of the serial double loop. */
  lemma PairDecodedOnce(n1: nat, n2: nat, i: nat, j: nat)
    requires i < n1 && j < n2
    ensures i * n2 + j < n1 * n2 && Decode(i * n2 + j, n2) == (i, j)
    ensures forall k: nat | k < n1 * n2 && Decode(k, n2) == (i, j) :: k == i * n2 + j
  {
    TimesMonotone(i + 1, n1, n2);
    assert (i + 1) * n2 == i * n2 + n2;
    var k := i * n2 + j;
    DivMod(k, n2);
    QuotientUnique(k / n2, k % n2, i, j, n2);
    forall k: nat | k < n1 * n2 && Decode(k, n2) == (i, j) ensures k == i * n2 + j {
      DivMod(k, n2);
    }
  }

  lemma DecodeInRange(n1: nat, n2: nat, k: nat)
    requires n2 > 0 && k < n1 * n2
    ensures Decode(k, n2).0 < n1 && Decode(k, n2).1 < n2
  {
    DivMod(k, n2);
    if k / n2 >= n1 { TimesMonotone(n1, k / n2, n2); }
  }

  /** Work results for all pairs, in the order of the serial double loop. */
  function AllPairs<A, B, V>(vec1: seq<A>, vec2: seq<B>, work: (A, B) -> V): seq<V> {
    if vec1 == [] then [] else Row(vec1[0], vec2, work) + AllPairs(vec1[1..], vec2, work)
  }

  function Row<A, B, V>(a: A, vec2: seq<B>, work: (A, B) -> V): (s: seq<V>)
    ensures |s| == |vec2| && forall j | 0 <= j < |vec2| :: s[j] == work(a, vec2[j])
  {
    seq(|vec2|, j requires 0 <= j < |vec2| => work(a, vec2[j]))
  }

  /** Position i * n2 + j of that list is pair (i, j). */
  lemma {:induction false} AllPairsAt<A, B, V>(vec1: seq<A>, vec2: seq<B>, work: (A, B) -> V, i: nat, j: nat)
    requires i < |vec1| && j < |vec2|
    ensures |AllPairs(vec1, vec2, work)| == |vec1| * |vec2| && i * |vec2| + j < |vec1| * |vec2|
    ensures AllPairs(vec1, vec2, work)[i * |vec2| + j] == work(vec1[i], vec2[j])
  {
    AllPairsSize(vec1, vec2, work);
    PairDecodedOnce(|vec1|, |vec2|, i, j);
    if i > 0 {
      AllPairsAt(vec1[1..], vec2, work, i - 1, j);
      assert i * |vec2| + j == |vec2| + ((i - 1) * |vec2| + j);
    }
  }

  lemma {:induction false} AllPairsSize<A, B, V>(vec1: seq<A>, vec2: seq<B>, work: (A, B) -> V)
    ensures |AllPairs(vec1, vec2, work)| == |vec1| * |vec2|
  {
    if vec1 != [] {
      AllPairsSize(vec1[1..], vec2, work);
      assert |vec1| * |vec2| == |vec2| + (|vec1| - 1) * |vec2|;
    }
  }

  /** The work of pair index `k`. */
  function PairWork<A, B, V>(vec1: seq<A>, vec2: seq<B>, work: (A, B) -> V, other: V): nat -> V {
    (k: nat) => if |vec2| > 0 && k / |vec2| < |vec1| then work(vec1[k / |vec2|], vec2[k % |vec2|]) else other
  }

  lemma PairWorkIsAllPairs<A, B, V>(vec1: seq<A>, vec2: seq<B>, work: (A, B) -> V, other: V)
    ensures Results(PairWork(vec1, vec2, work, other), 0, |vec1| * |vec2|) == AllPairs(vec1, vec2, work)
  {
    var n := |vec1| * |vec2|;
    var f := PairWork(vec1, vec2, work, other);
    var results, pairs := Results(f, 0, n), AllPairs(vec1, vec2, work);
    AllPairsSize(vec1, vec2, work);
    forall k | 0 <= k < n ensures results[k] == pairs[k] {
      DecodeInRange(|vec1|, |vec2|, k);
      DivMod(k, |vec2|);
      AllPairsAt(vec1, vec2, work, k / |vec2|, k % |vec2|);
      assert results[k - 0] == f(k);
    }
  }

  /** parallelMapReduceAllPairs: the fold over all pairs, whatever the thread
      count and finishing order. */
  method MapReduceAllPairs<A, B, V(!new)>(m: Monoid<V>, vec1: seq<A>, vec2: seq<B>, work: (A, B) -> V, threads: Option<nat>, order: seq<nat>)
    returns (r: V)
    requires threads.Some? ==> threads.value >= 1 && CompletionOrder(order, Min(threads.value, |vec1| * |vec2|))
    ensures IsCommutativeMonoid(m) ==> r == Fold(m, AllPairs(vec1, vec2, work))
  {
    var totalPairs := |vec1| * |vec2|;
    PairWorkIsAllPairs(vec1, vec2, work, m.neutral);
    if threads.None? && totalPairs != 0 {
      r := SerialPairs(m, vec1, vec2, work);
    } else {
      r := AccumulateInBatches(m, PairWork(vec1, vec2, work, m.neutral), totalPairs, threads, order);
    }
  }

  /** The serial fallback's inner loop. */
  method SerialRow<A, B, V(!new)>(m: Monoid<V>, a: A, vec2: seq<B>, work: (A, B) -> V, r0: V, ghost done: seq<V>) returns (r: V)
    requires IsMonoid(m) ==> r0 == Fold(m, done)
    ensures IsMonoid(m) ==> r == Fold(m, done + Row(a, vec2, work))
  {
    ghost var row := Row(a, vec2, work);
    r := r0;
    assert done + row[..0] == done;
    for j := 0 to |vec2|
      invariant IsMonoid(m) ==> r == Fold(m, done + row[..j])
    {
      if IsMonoid(m) {
        FoldConcat(m, done + row[..j], [row[j]]);
        FoldSingle(m, row[j]);
        assert done + row[..j + 1] == done + row[..j] + [row[j]];
      }
      r := m.op(r, work(a, vec2[j]));
    }
    assert row[..|vec2|] == row;
  }

  /** The serial fallback's outer loop. */
  lemma NextRow<A, B, V>(vec1: seq<A>, vec2: seq<B>, work: (A, B) -> V, i: nat, done: seq<V>)
    requires i < |vec1|
    ensures done + AllPairs(vec1[i..], vec2, work) == done + Row(vec1[i], vec2, work) + AllPairs(vec1[i + 1..], vec2, work)
  {
    assert vec1[i..][1..] == vec1[i + 1..];
  }

  method SerialPairs<A, B, V(!new)>(m: Monoid<V>, vec1: seq<A>, vec2: seq<B>, work: (A, B) -> V) returns (r: V)
    ensures IsMonoid(m) ==> r == Fold(m, AllPairs(vec1, vec2, work))
  {
    r := m.neutral;
    ghost var done: seq<V> := [];
    for i := 0 to |vec1|
      invariant done + AllPairs(vec1[i..], vec2, work) == AllPairs(vec1, vec2, work)
      invariant IsMonoid(m) ==> r == Fold(m, done)
    {
      r := SerialRow(m, vec1[i], vec2, work, r, done);
      NextRow(vec1, vec2, work, i, done);
      done := done + Row(vec1[i], vec2, work);
    }
    assert vec1[|vec1|..] == [] && done + [] == done;
  }

  // ---- tasks without results ----

  function Range(lo: int, hi: int): (s: seq<int>)
    requires lo <= hi
    ensures |s| == hi - lo && forall i | 0 <= i < |s| :: s[i] == lo + i
  {
    seq(hi - lo, i => lo + i)
  }

  function Flatten(batches: seq<seq<int>>): seq<int> {
    if batches == [] then [] else Flatten(batches[..|batches| - 1]) + batches[|batches| - 1]
  }

  /** runEachTaskBatched: the indices visited by each batch; one after another
      they are the whole range, so every index is visited exactly once. */
  method RunEachTaskBatched(begin: int, end: int, threads: Option<nat>) returns (visits: seq<seq<int>>)
    requires begin <= end && (threads.Some? ==> threads.value >= 1)
    ensures Flatten(visits) == Range(begin, end)
    ensures threads.Some? ==> |visits| == Min(threads.value, end - begin)
  {
    var totalItems := end - begin;
    visits := [];
    if totalItems == 0 {
      return;
    }
    var numBatches := if threads.None? then 1 else Min(threads.value, totalItems);
    for b := 0 to numBatches
      invariant |visits| == b && Flatten(visits) == Range(begin, begin + Start(totalItems, numBatches, b))
    {
      var startIdx := Start(totalItems, numBatches, b);
      var endIdx := startIdx + Count(totalItems, numBatches, b);
      NextBatch(totalItems, numBatches, b);
      var visited := [];
      for i := startIdx to endIdx
        invariant visited == Range(begin + startIdx, begin + i)
      {
        visited := visited + [begin + i];
      }
      assert (visits + [visited])[..b] == visits;
      visits := visits + [visited];
    }
    LastBatch(totalItems, numBatches);
  }
}
