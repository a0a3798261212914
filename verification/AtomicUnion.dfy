/** Concurrent atomicSet and atomicOrFrom calls on one DynamicBitSet.

    Each thread runs a list of calls. Every load and every fetch_or is one
    step, and a schedule interleaves the steps of the threads in any order. */
module AtomicUnion {
  import opened Bits
  import opened DynamicBitSet
  import opened Powers

  datatype Call = AtomicSet(i: nat) | AtomicOrFrom(source: seq<nat>)

  /** Between calls, before the load for block `b`, or between a load that
      found bits missing and the fetch_or that adds them. */
  datatype Thread =
    | Idle(todo: seq<Call>)
    | Loading(call: Call, b: nat, todo: seq<Call>)
    | Writing(call: Call, b: nat, todo: seq<Call>)

  datatype State = State(blocks: seq<nat>, threads: seq<Thread>)

  ghost predicate Fits(call: Call, numBits: nat) {
    match call
    case AtomicSet(i) => i < numBits
    case AtomicOrFrom(source) => BlocksOk(source, numBits)
  }

  ghost predicate AllFit(calls: seq<Call>, numBits: nat) {
    forall c | c in calls :: Fits(c, numBits)
  }

  ghost predicate ThreadOk(t: Thread, numBits: nat) {
    && AllFit(t.todo, numBits)
    && (!t.Idle? ==> Fits(t.call, numBits))
    && (!t.Idle? && t.call.AtomicSet? ==> t.b == t.call.i / BITS_PER_BLOCK)
    && (t.Writing? && t.call.AtomicOrFrom? ==> t.b < |t.call.source|)
  }

  /** The word OR-ed into block `b` by the call. */
  function Mask(call: Call, b: nat): nat
    requires call.AtomicOrFrom? ==> b < |call.source|
  {
    match call
    case AtomicSet(i) => Pow2(i % BITS_PER_BLOCK)
    case AtomicOrFrom(source) => source[b]
  }

  /** The thread once its call is finished with block `b`. */
  function After(call: Call, b: nat, todo: seq<Call>): Thread {
    if call.AtomicSet? then Idle(todo) else Loading(call, b + 1, todo)
  }

  /** One step of one thread; a thread with nothing left to do stays put. */
  function Advance(blocks: seq<nat>, t: Thread): (r: (seq<nat>, Thread)) {
    match t
    case Idle(todo) =>
      if todo == [] then (blocks, t)
      else (blocks, Loading(todo[0], if todo[0].AtomicSet? then todo[0].i / BITS_PER_BLOCK else 0, todo[1..]))
    case Loading(AtomicSet(i), b, todo) =>
      if b < |blocks| && And(blocks[b], Pow2(i % BITS_PER_BLOCK)) == 0 then (blocks, Writing(t.call, b, todo))
      else (blocks, Idle(todo))
    case Loading(AtomicOrFrom(source), b, todo) =>
      if b >= |blocks| || b >= |source| then (blocks, Idle(todo))
      else if source[b] == 0 || And(blocks[b], source[b]) == source[b] then (blocks, Loading(t.call, b + 1, todo))
      else (blocks, Writing(t.call, b, todo))
    case Writing(call, b, todo) =>
      if b < |blocks| && (call.AtomicOrFrom? ==> b < |call.source|)
      then (blocks[b := Or(blocks[b], Mask(call, b))], After(call, b, todo))
      else (blocks, Idle(todo))
  }

  function Step(s: State, t: nat): State {
    if t >= |s.threads| then s else
      var (blocks, thread) := Advance(s.blocks, s.threads[t]);
      State(blocks, s.threads[t := thread])
  }

  function Run(s: State, schedule: seq<nat>): State
    decreases |schedule|
  {
    if schedule == [] then s else Run(Step(s, schedule[0]), schedule[1..])
  }

  function Start(blocks: seq<nat>, programs: seq<seq<Call>>): State {
    State(blocks, seq(|programs|, t requires 0 <= t < |programs| => Idle(programs[t])))
  }

  ghost predicate Finished(s: State) {
    forall t | 0 <= t < |s.threads| :: s.threads[t] == Idle([])
  }

  // What is asked for, and what is still owed

  ghost predicate Wants(call: Call, j: nat) {
    match call
    case AtomicSet(i) => j == i
    case AtomicOrFrom(source) => Member(source, j)
  }

  ghost predicate Asks(calls: seq<Call>, j: nat) {
    exists c :: c in calls && Wants(c, j)
  }

  ghost predicate Requested(programs: seq<seq<Call>>, j: nat) {
    exists t :: 0 <= t < |programs| && Asks(programs[t], j)
  }

  ghost predicate Pending(t: Thread, j: nat) {
    || Asks(t.todo, j)
    || (!t.Idle? && Wants(t.call, j) && (t.call.AtomicOrFrom? ==> j / BITS_PER_BLOCK >= t.b))
  }

  // One step

  lemma OrBlock(blocks: seq<nat>, b: nat, mask: nat, j: nat)
    requires b < |blocks|
    ensures Member(blocks[b := Or(blocks[b], mask)], j)
            <==> Member(blocks, j) || (j / BITS_PER_BLOCK == b && Bit(mask, j % BITS_PER_BLOCK))
  {
    BitOr(blocks[b], mask, j % BITS_PER_BLOCK);
  }

  /** A load that shows the mask already present means the fetch_or would change
      nothing, so skipping it loses no bit. */
  lemma CoveredBits(word: nat, mask: nat, k: nat)
    requires And(word, mask) == mask
    ensures Bit(mask, k) ==> Bit(word, k)
  {
    BitAnd(word, mask, k);
  }

  lemma AskSplit(calls: seq<Call>, j: nat)
    requires calls != []
    ensures Asks(calls, j) <==> Wants(calls[0], j) || Asks(calls[1..], j)
  {
    if Asks(calls, j) {
      var c :| c in calls && Wants(c, j);
      assert c == calls[0] || c in calls[1..];
    }
    if Wants(calls[0], j) { assert calls[0] in calls; }
  }

  /** What one step of a thread does to one bit: nothing is lost, only owed bits
      appear, and a bit stops being owed only once it is there. */
  ghost predicate Effect(blocks: seq<nat>, t: Thread, blocks': seq<nat>, t': Thread, j: nat) {
    && (Member(blocks, j) ==> Member(blocks', j))
    && (Member(blocks', j) ==> Member(blocks, j) || Pending(t, j))
    && (Pending(t, j) ==> Member(blocks', j) || Pending(t', j))
    && (Pending(t', j) ==> Pending(t, j))
  }

  lemma WriteEffect(blocks: seq<nat>, numBits: nat, t: Thread, j: nat)
    requires BlocksOk(blocks, numBits) && ThreadOk(t, numBits) && t.Writing?
    ensures var (blocks', t') := Advance(blocks, t); Effect(blocks, t, blocks', t', j)
  {
    var mask := Mask(t.call, t.b);
    OrBlock(blocks, t.b, mask, j);
    if t.call.AtomicSet? { BitPow2(t.call.i % BITS_PER_BLOCK, j % BITS_PER_BLOCK); }
    assert Wants(t.call, j) && j / BITS_PER_BLOCK == t.b <==> j / BITS_PER_BLOCK == t.b && Bit(mask, j % BITS_PER_BLOCK);
  }

  lemma LoadEffect(blocks: seq<nat>, numBits: nat, t: Thread, j: nat)
    requires BlocksOk(blocks, numBits) && ThreadOk(t, numBits) && t.Loading?
    ensures var (blocks', t') := Advance(blocks, t); Effect(blocks, t, blocks', t', j)
  {
    if t.call.AtomicSet? {
      MaskTest(blocks[t.b], t.call.i % BITS_PER_BLOCK);
    } else if t.b < |t.call.source| {
      var word := t.call.source[t.b];
      BitZero(j % BITS_PER_BLOCK);
      if And(blocks[t.b], word) == word { CoveredBits(blocks[t.b], word, j % BITS_PER_BLOCK); }
    }
  }

  lemma AdvanceEffect(blocks: seq<nat>, numBits: nat, t: Thread, j: nat)
    requires BlocksOk(blocks, numBits) && ThreadOk(t, numBits)
    ensures var (blocks', t') := Advance(blocks, t); Effect(blocks, t, blocks', t', j)
  {
    if t.Loading? {
      LoadEffect(blocks, numBits, t, j);
    } else if t.Writing? {
      WriteEffect(blocks, numBits, t, j);
    } else if t.todo != [] {
      AskSplit(t.todo, j);
    }
  }

  /** A step keeps the thread well formed and the blocks within their width. */
  lemma AdvanceFits(blocks: seq<nat>, numBits: nat, t: Thread)
    requires BlocksOk(blocks, numBits) && ThreadOk(t, numBits)
    ensures var (blocks', t') := Advance(blocks, t); BlocksOk(blocks', numBits) && ThreadOk(t', numBits)
  {
    if t.Writing? {
      var mask := Mask(t.call, t.b);
      if t.call.AtomicSet? { Pow2Monotone(t.call.i % BITS_PER_BLOCK, BITS_PER_BLOCK); }
      Width(blocks[t.b], mask, BITS_PER_BLOCK);
      var blocks' := blocks[t.b := Or(blocks[t.b], mask)];
      forall j: nat | Member(blocks', j) ensures j < numBits {
        OrBlock(blocks, t.b, mask, j);
        if t.call.AtomicSet? { BitPow2(t.call.i % BITS_PER_BLOCK, j % BITS_PER_BLOCK); }
        else { assert Member(blocks, j) || Member(t.call.source, j); }
      }
    }
  }

  // Every run

  ghost predicate Inv(initial: seq<nat>, numBits: nat, programs: seq<seq<Call>>, s: State) {
    && BlocksOk(s.blocks, numBits)
    && |s.threads| == |programs|
    && (forall t | 0 <= t < |programs| :: ThreadOk(s.threads[t], numBits))
    && (forall j: nat | Member(initial, j) :: Member(s.blocks, j))
    && (forall j: nat | Member(s.blocks, j) :: Member(initial, j) || Requested(programs, j))
    && (forall t | 0 <= t < |programs| :: Owes(programs[t], s.blocks, s.threads[t]))
  }

  /** Each requested bit is present or still owed, and nothing else is owed. */
  ghost predicate Owes(program: seq<Call>, blocks: seq<nat>, t: Thread) {
    forall j: nat :: (Asks(program, j) ==> Member(blocks, j) || Pending(t, j)) && (Pending(t, j) ==> Asks(program, j))
  }

  lemma StepKeeps(initial: seq<nat>, numBits: nat, programs: seq<seq<Call>>, s: State, t: nat)
    requires Inv(initial, numBits, programs, s)
    ensures Inv(initial, numBits, programs, Step(s, t))
  {
    if t < |s.threads| {
      var (blocks, thread) := Advance(s.blocks, s.threads[t]);
      AdvanceFits(s.blocks, numBits, s.threads[t]);
      forall j: nat
        ensures && (Member(s.blocks, j) ==> Member(blocks, j))
                && (Member(blocks, j) ==> Member(s.blocks, j) || Pending(s.threads[t], j))
                && (Pending(s.threads[t], j) ==> Member(blocks, j) || Pending(thread, j))
                && (Pending(thread, j) ==> Pending(s.threads[t], j))
      {
        AdvanceEffect(s.blocks, numBits, s.threads[t], j);
      }
      assert Owes(programs[t], s.blocks, s.threads[t]);
      assert Owes(programs[t], blocks, thread);
      forall u | 0 <= u < |programs| && u != t ensures Owes(programs[u], blocks, s.threads[u]) {
        assert Owes(programs[u], s.blocks, s.threads[u]);
      }
      forall j: nat | Member(blocks, j) ensures Member(initial, j) || Requested(programs, j) {
        if !Member(s.blocks, j) {
          assert Pending(s.threads[t], j);
          assert Asks(programs[t], j);
        }
      }
    }
  }

  lemma {:induction false} RunKeeps(initial: seq<nat>, numBits: nat, programs: seq<seq<Call>>, s: State, schedule: seq<nat>)
    requires Inv(initial, numBits, programs, s)
    ensures Inv(initial, numBits, programs, Run(s, schedule))
    decreases |schedule|
  {
    if schedule != [] {
      StepKeeps(initial, numBits, programs, s, schedule[0]);
      RunKeeps(initial, numBits, programs, Step(s, schedule[0]), schedule[1..]);
    }
  }

  lemma StartOk(initial: seq<nat>, numBits: nat, programs: seq<seq<Call>>)
    requires BlocksOk(initial, numBits) && forall p | p in programs :: AllFit(p, numBits)
    ensures Inv(initial, numBits, programs, Start(initial, programs))
  {
    forall t | 0 <= t < |programs| ensures ThreadOk(Start(initial, programs).threads[t], numBits) {
      assert programs[t] in programs;
    }
  }

  /** For every interleaving: at any point the set lies between the initial one
      and the initial one united with everything requested, and once every call
      has returned it is exactly that union. */
  lemma EveryInterleaving(initial: seq<nat>, numBits: nat, programs: seq<seq<Call>>, schedule: seq<nat>, j: nat)
    requires BlocksOk(initial, numBits) && forall p | p in programs :: AllFit(p, numBits)
    ensures var s := Run(Start(initial, programs), schedule);
            && BlocksOk(s.blocks, numBits)
            && (Member(initial, j) ==> Member(s.blocks, j))
            && (Member(s.blocks, j) ==> Member(initial, j) || Requested(programs, j))
            && (Finished(s) ==> (Member(s.blocks, j) <==> Member(initial, j) || Requested(programs, j)))
  {
    StartOk(initial, numBits, programs);
    RunKeeps(initial, numBits, programs, Start(initial, programs), schedule);
    var s := Run(Start(initial, programs), schedule);
    if Finished(s) && Requested(programs, j) {
      var t :| 0 <= t < |programs| && Asks(programs[t], j);
      assert s.threads[t] == Idle([]);
      assert Owes(programs[t], s.blocks, s.threads[t]);
    }
  }

  // The blocks themselves, not only their bits

  /** Any two schedules that finish leave the same blocks. */
  lemma ScheduleDoesNotMatter(initial: seq<nat>, numBits: nat, programs: seq<seq<Call>>, one: seq<nat>, two: seq<nat>)
    requires BlocksOk(initial, numBits) && forall p | p in programs :: AllFit(p, numBits)
    requires Finished(Run(Start(initial, programs), one)) && Finished(Run(Start(initial, programs), two))
    ensures Run(Start(initial, programs), one).blocks == Run(Start(initial, programs), two).blocks
  {
    var a, b := Run(Start(initial, programs), one).blocks, Run(Start(initial, programs), two).blocks;
    EveryInterleaving(initial, numBits, programs, one, 0);
    EveryInterleaving(initial, numBits, programs, two, 0);
    forall j: nat ensures Member(a, j) <==> Member(b, j) {
      EveryInterleaving(initial, numBits, programs, one, j);
      EveryInterleaving(initial, numBits, programs, two, j);
    }
    SameMembers(a, b, numBits);
  }

  // Termination: every step of an unfinished thread shrinks the work left

  ghost function Cost(call: Call): nat {
    if call.AtomicSet? then 3 else 2 * |call.source| + 3
  }

  ghost function Work(calls: seq<Call>): nat {
    if calls == [] then 0 else Cost(calls[0]) + Work(calls[1..])
  }

  ghost function Left(t: Thread): nat {
    Work(t.todo) +
    match t
    case Idle(_) => 0
    case Loading(AtomicSet(_), _, _) => 2
    case Writing(AtomicSet(_), _, _) => 1
    case Loading(AtomicOrFrom(source), b, _) => if b < |source| then 2 * (|source| - b) + 2 else 1
    case Writing(AtomicOrFrom(source), b, _) => if b < |source| then 2 * (|source| - b) + 1 else 1
  }

  /** No thread can wait on another: each of its own steps brings it nearer the end. */
  lemma EachStepProgresses(blocks: seq<nat>, numBits: nat, t: Thread)
    requires BlocksOk(blocks, numBits) && ThreadOk(t, numBits) && t != Idle([])
    ensures Left(Advance(blocks, t).1) < Left(t)
  {
  }

  /** So some schedule finishes from every reachable state. */
  lemma {:induction false} CanFinish(initial: seq<nat>, numBits: nat, programs: seq<seq<Call>>, s: State, t: nat)
    returns (schedule: seq<nat>)
    requires Inv(initial, numBits, programs, s) && t <= |s.threads|
    requires forall u | t <= u < |s.threads| :: s.threads[u] == Idle([])
    ensures Finished(Run(s, schedule))
    decreases t, if t > 0 then Left(s.threads[t - 1]) else 0
  {
    if t == 0 {
      schedule := [];
    } else if s.threads[t - 1] == Idle([]) {
      schedule := CanFinish(initial, numBits, programs, s, t - 1);
    } else {
      EachStepProgresses(s.blocks, numBits, s.threads[t - 1]);
      StepKeeps(initial, numBits, programs, s, t - 1);
      var rest := CanFinish(initial, numBits, programs, Step(s, t - 1), t);
      schedule := [t - 1] + rest;
      assert schedule[0] == t - 1 && schedule[1..] == rest;
    }
  }
}
