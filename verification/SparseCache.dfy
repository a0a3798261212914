/**
 * SparseCache as a state machine: any number of threads run getSavedOrCompute and
 * atOrNullopt, one atomic access or one lock section per step, in any order.
 * `size` is the number of entries per chunk, 2^ChunkBits.
 */
module SparseCache {
  import opened Options

  /** The id a thread's cached chunk pointer starts with. */
  const NO_CHUNK: nat := 0xFFFF_FFFF_FFFF_FFFF

  datatype Entry<V> = Entry(holder: Option<nat>, saved: bool, value: V)

  /** Where a thread is.  `p` is the chunk found for the key. */
  datatype Place =
    | Idle
    | Start(key: nat)                 // getSavedOrCompute called
    | Look(key: nat)                  // about to read the chunk map
    | Install(key: nat)               // about to write the chunk map
    | Remember(key: nat, p: nat)      // about to set the cached pointer
    | Wait(key: nat, p: nat)          // about to take the entry's lock
    | Check(key: nat, p: nat)         // lock held, about to test `saved`
    | Compute(key: nat, p: nat)       // lock held, onMiss running
    | Publish(key: nat, p: nat)       // lock held, value stored, about to set `saved`
    | Leave(key: nat, p: nat)         // lock held, `saved` set, about to return the value
    | PeekStart(key: nat)             // atOrNullopt called
    | PeekEntry(key: nat, p: nat)     // about to test `saved`
    | PeekValue(key: nat, p: nat)     // `saved` seen, about to read the value

  datatype Thread = Thread(place: Place, id: nat, chunk: Option<nat>)

  /** `completions` and `answers` record onMiss results and values handed out. */
  datatype State<V> = State(
    chunks: map<nat, nat>,            // chunk id to chunk
    memory: map<nat, seq<Entry<V>>>,  // chunk to entries
    threads: map<nat, Thread>,
    completions: seq<(nat, V)>,
    answers: seq<(nat, V)>,
    crashed: bool)

  datatype Action<V> = Join(t: nat) | Get(t: nat, key: nat) | Peek(t: nat, key: nat)
                     | Go(t: nat) | MissReturns(t: nat, value: V) | MissThrows(t: nat)

  function Initial<V>(): State<V> { State(map[], map[], map[], [], [], false) }

  function Chunk(key: nat, size: nat): nat
    requires size > 0
  {
    key / size
  }

  function Slot(key: nat, size: nat): (i: nat)
    requires size > 0
    ensures i < size
  {
    key % size
  }

  // ---- steps ----

  function Move<V>(s: State<V>, t: nat, place: Place): State<V>
    requires t in s.threads
  {
    s.(threads := s.threads[t := s.threads[t].(place := place)])
  }

  predicate HasEntry<V>(s: State<V>, p: nat, size: nat) {
    p in s.memory && |s.memory[p]| == size
  }

  function EntryAt<V>(s: State<V>, key: nat, p: nat, size: nat): Entry<V>
    requires size > 0 && HasEntry(s, p, size)
  {
    s.memory[p][Slot(key, size)]
  }

  function SetEntry<V>(s: State<V>, key: nat, p: nat, size: nat, e: Entry<V>): State<V>
    requires size > 0 && HasEntry(s, p, size)
  {
    s.(memory := s.memory[p := s.memory[p][Slot(key, size) := e]])
  }

  function Answer<V>(s: State<V>, key: nat, value: V): State<V> {
    s.(answers := s.answers + [(key, value)])
  }

  /** A chunk number not in use. */
  function Fresh<V>(s: State<V>): nat { |s.memory| }

  /** A read through a null or dangling chunk pointer. */
  function Crash<V>(s: State<V>): Option<State<V>> { Some(s.(crashed := true)) }

  /** One step of a thread that needs no outside input; None when it cannot move. */
  function Advance<V>(s: State<V>, t: nat, size: nat, zero: V): Option<State<V>>
    requires t in s.threads && size > 0
  {
    var th := s.threads[t];
    match th.place
    case Idle => None
    case Start(key) =>
      if Chunk(key, size) == th.id then
        if th.chunk.None? then Crash(s) else Some(Move(s, t, Wait(key, th.chunk.value)))
      else Some(Move(s, t, Look(key)))
    case Look(key) =>
      if Chunk(key, size) in s.chunks then Some(Move(s, t, Remember(key, s.chunks[Chunk(key, size)])))
      else Some(Move(s, t, Install(key)))
    case Install(key) =>
      if Chunk(key, size) in s.chunks then Some(Move(s, t, Remember(key, s.chunks[Chunk(key, size)])))
      else
        var p := Fresh(s);
        var s' := s.(chunks := s.chunks[Chunk(key, size) := p],
                     memory := s.memory[p := seq(size, _ => Entry(None, false, zero))]);
        Some(Move(s', t, Remember(key, p)))
    case Remember(key, p) =>
      Some(s.(threads := s.threads[t := Thread(Wait(key, p), Chunk(key, size), Some(p))]))
    case Wait(key, p) =>
      if !HasEntry(s, p, size) then Crash(s)
      else if EntryAt(s, key, p, size).holder.Some? then None
      else Some(Move(SetEntry(s, key, p, size, EntryAt(s, key, p, size).(holder := Some(t))), t, Check(key, p)))
    case Check(key, p) =>
      if !HasEntry(s, p, size) then Crash(s)
      else Some(Move(s, t, if EntryAt(s, key, p, size).saved then Leave(key, p) else Compute(key, p)))
    case Compute(_, _) => None
    case Publish(key, p) =>
      if !HasEntry(s, p, size) then Crash(s)
      else Some(Move(SetEntry(s, key, p, size, EntryAt(s, key, p, size).(saved := true)), t, Leave(key, p)))
    case Leave(key, p) =>
      if !HasEntry(s, p, size) then Crash(s)
      else
        var e := EntryAt(s, key, p, size);
        Some(Answer(Move(SetEntry(s, key, p, size, e.(holder := None)), t, Idle), key, e.value))
    case PeekStart(key) =>
      if Chunk(key, size) == th.id then
        if th.chunk.None? then Crash(s) else Some(Move(s, t, PeekEntry(key, th.chunk.value)))
      else if Chunk(key, size) !in s.chunks then Some(Move(s, t, Idle))
      else
        var p := s.chunks[Chunk(key, size)];
        Some(s.(threads := s.threads[t := Thread(PeekEntry(key, p), Chunk(key, size), Some(p))]))
    case PeekEntry(key, p) =>
      if !HasEntry(s, p, size) then Crash(s)
      else Some(Move(s, t, if EntryAt(s, key, p, size).saved then PeekValue(key, p) else Idle))
    case PeekValue(key, p) =>
      if !HasEntry(s, p, size) then Crash(s)
      else Some(Answer(Move(s, t, Idle), key, EntryAt(s, key, p, size).value))
  }

  /** Any step at all. */
  function Step<V>(s: State<V>, a: Action<V>, size: nat, zero: V): Option<State<V>>
    requires size > 0
  {
    if s.crashed then None
    else
      match a
      case Join(t) => if t in s.threads then None else Some(s.(threads := s.threads[t := Thread(Idle, NO_CHUNK, None)]))
      case Get(t, key) => if t in s.threads && s.threads[t].place.Idle? && key <= NO_CHUNK then Some(Move(s, t, Start(key))) else None
      case Peek(t, key) => if t in s.threads && s.threads[t].place.Idle? && key <= NO_CHUNK then Some(Move(s, t, PeekStart(key))) else None
      case Go(t) => if t in s.threads then Advance(s, t, size, zero) else None
      case MissReturns(t, value) =>
        if t in s.threads && s.threads[t].place.Compute? then
          var key, p := s.threads[t].place.key, s.threads[t].place.p;
          if !HasEntry(s, p, size) then Crash(s)
          else
            var s' := SetEntry(s, key, p, size, EntryAt(s, key, p, size).(value := value));
            Some(Move(s'.(completions := s'.completions + [(key, value)]), t, Publish(key, p)))
        else None
      case MissThrows(t) =>
        if t in s.threads && s.threads[t].place.Compute? then
          var key, p := s.threads[t].place.key, s.threads[t].place.p;
          if !HasEntry(s, p, size) then Crash(s)
          else Some(Move(SetEntry(s, key, p, size, EntryAt(s, key, p, size).(holder := None)), t, Idle))
        else None
  }

  // ---- invariant ----

  /** `p` is the chunk map's chunk for `key`. */
  ghost predicate Found<V>(s: State<V>, key: nat, p: nat, size: nat)
    requires size > 0
  {
    Chunk(key, size) in s.chunks && s.chunks[Chunk(key, size)] == p && HasEntry(s, p, size)
  }

  /** Chunks are distinct blocks of the right size. */
  ghost predicate MemoryOk<V>(s: State<V>, size: nat) {
    && (forall c | c in s.chunks :: HasEntry(s, s.chunks[c], size))
    && (forall c, d | c in s.chunks && d in s.chunks && c != d :: s.chunks[c] != s.chunks[d])
    && (forall p | p in s.memory :: p < |s.memory|)
  }

  predicate Holding(place: Place) {
    place.Check? || place.Compute? || place.Publish? || place.Leave?
  }

  predicate HasPointer(place: Place) {
    Holding(place) || place.Remember? || place.Wait? || place.PeekEntry? || place.PeekValue?
  }

  /** A thread's cached pointer is the chunk map's entry, its pointers lead to the
      chunk of its key, it holds the locks it should, and it has seen what its
      place says. */
  ghost predicate ThreadOk<V>(s: State<V>, t: nat, size: nat)
    requires t in s.threads && size > 0
  {
    var th := s.threads[t];
    && (if th.chunk.None? then th.id == NO_CHUNK else th.id in s.chunks && s.chunks[th.id] == th.chunk.value)
    && (!th.place.Idle? ==> th.place.key <= NO_CHUNK)
    && (HasPointer(th.place) ==> Found(s, th.place.key, th.place.p, size))
    && (Holding(th.place) ==> EntryAt(s, th.place.key, th.place.p, size).holder == Some(t))
    && (th.place.Compute? ==> !Completed(s, th.place.key) && !EntryAt(s, th.place.key, th.place.p, size).saved)
    && (th.place.Publish? ==> (th.place.key, EntryAt(s, th.place.key, th.place.p, size).value) in s.completions)
    && (th.place.Leave? || th.place.PeekValue? ==> EntryAt(s, th.place.key, th.place.p, size).saved)
  }

  ghost predicate Completed<V>(s: State<V>, key: nat) {
    exists i | 0 <= i < |s.completions| :: s.completions[i].0 == key
  }

  /** A saved value is the completed one; a completed key is saved or about to be. */
  ghost predicate KeyOk<V>(s: State<V>, key: nat, size: nat)
    requires size > 0
  {
    && (Completed(s, key) ==> Chunk(key, size) in s.chunks)
    && (Chunk(key, size) in s.chunks && HasEntry(s, s.chunks[Chunk(key, size)], size) ==>
          var p := s.chunks[Chunk(key, size)];
          var e := EntryAt(s, key, p, size);
          && (e.saved ==> (key, e.value) in s.completions)
          && (Completed(s, key) && !e.saved ==>
                e.holder.Some? && e.holder.value in s.threads && s.threads[e.holder.value].place == Publish(key, p)))
  }

  ghost predicate LogsOk<V>(s: State<V>) {
    && (forall i, j | 0 <= i < j < |s.completions| :: s.completions[i].0 != s.completions[j].0)
    && (forall a | a in s.answers :: a in s.completions)
  }

  ghost predicate Inv<V>(s: State<V>, size: nat) {
    && size > 0
    && MemoryOk(s, size)
    && (forall t | t in s.threads :: ThreadOk(s, t, size))
    && (forall key: nat :: KeyOk(s, key, size))
    && LogsOk(s)
  }

  lemma KeyUnique(k: nat, j: nat, size: nat)
    requires size > 0 && Chunk(k, size) == Chunk(j, size) && Slot(k, size) == Slot(j, size)
    ensures k == j
  {
  }

  /** Two keys share an entry only when they are the same key. */
  lemma EntryUnique<V>(s: State<V>, k: nat, p: nat, j: nat, q: nat, size: nat)
    requires size > 0 && MemoryOk(s, size) && Found(s, k, p, size) && Found(s, j, q, size)
    ensures k != j ==> p != q || Slot(k, size) != Slot(j, size)
  {
    if p == q && Slot(k, size) == Slot(j, size) {
      KeyUnique(k, j, size);
    }
  }

  lemma InitialOk<V>(size: nat)
    requires size > 0
    ensures Inv(Initial<V>(), size)
  {
  }

  /** Moving a thread without touching shared state. */
  lemma MoveKeeps<V>(s: State<V>, t: nat, th: Thread, size: nat)
    requires Inv(s, size) && t in s.threads && !s.threads[t].place.Publish?
    requires ThreadOk(s.(threads := s.threads[t := th]), t, size)
    ensures Inv(s.(threads := s.threads[t := th]), size)
  {
    var s' := s.(threads := s.threads[t := th]);
    forall u | u in s'.threads ensures ThreadOk(s', u, size) {
      if u != t { assert ThreadOk(s, u, size); }
    }
    forall key: nat ensures KeyOk(s', key, size) {
      assert KeyOk(s, key, size);
    }
  }

  /** No thread but `t` is inside the lock of `key`'s entry. */
  lemma LockExcludes<V>(s: State<V>, t: nat, u: nat, key: nat, p: nat, size: nat)
    requires Inv(s, size) && Found(s, key, p, size) && u in s.threads && u != t
    requires var h := EntryAt(s, key, p, size).holder; h.None? || h == Some(t)
    ensures Holding(s.threads[u].place) ==> s.threads[u].place.key != key
  {
    assert ThreadOk(s, u, size);
  }

  /** The state after thread `t` edits the entry of `key`, reports `done` as a
      completion if any, and moves. */
  function Edited<V>(s: State<V>, t: nat, key: nat, p: nat, size: nat, e: Entry<V>, place: Place, done: Option<V>): State<V>
    requires size > 0 && HasEntry(s, p, size) && t in s.threads
  {
    var s' := SetEntry(s, key, p, size, e);
    Move(if done.Some? then s'.(completions := s'.completions + [(key, done.value)]) else s', t, place)
  }

  lemma OtherEntries<V>(s: State<V>, t: nat, key: nat, p: nat, size: nat, e: Entry<V>, place: Place, done: Option<V>, j: nat, q: nat)
    requires size > 0 && MemoryOk(s, size) && t in s.threads && Found(s, key, p, size) && Found(s, j, q, size)
    ensures var s' := Edited(s, t, key, p, size, e, place, done);
            Found(s', j, q, size) && EntryAt(s', j, q, size) == if j == key then e else EntryAt(s, j, q, size)
  {
    EntryUnique(s, key, p, j, q, size);
  }

  lemma CompletedGrows<V>(s: State<V>, t: nat, key: nat, p: nat, size: nat, e: Entry<V>, place: Place, done: Option<V>, j: nat)
    requires size > 0 && HasEntry(s, p, size) && t in s.threads
    ensures var s' := Edited(s, t, key, p, size, e, place, done);
            && (Completed(s', j) <==> Completed(s, j) || (j == key && done.Some?))
            && (forall c | c in s.completions :: c in s'.completions)
  {
    var s' := Edited(s, t, key, p, size, e, place, done);
    if Completed(s, j) {
      var i :| 0 <= i < |s.completions| && s.completions[i].0 == j;
      assert s'.completions[i].0 == j;
    }
    if j == key && done.Some? { assert s'.completions[|s.completions|].0 == key; }
  }

  /** Edits by the lock's holder, or by a thread taking a free lock; saved values
      stay and a key completes once. */
  ghost predicate MayEdit<V>(s: State<V>, t: nat, key: nat, p: nat, size: nat, e: Entry<V>, place: Place, done: Option<V>) {
    && size > 0 && t in s.threads && Found(s, key, p, size)
    && var now := EntryAt(s, key, p, size);
    && var s' := Edited(s, t, key, p, size, e, place, done);
    && (now.holder.None? || now.holder == Some(t))
    && (now.saved ==> e.saved && e.value == now.value)
    && (done.Some? ==> !Completed(s, key))
    && ThreadOk(s', t, size) && KeyOk(s', key, size)
    && (s.threads[t].place.Publish? ==> s.threads[t].place.key == key)
  }

  /** Such edits keep the invariant. */
  lemma EditKeepsThreads<V>(s: State<V>, t: nat, key: nat, p: nat, size: nat, e: Entry<V>, place: Place, done: Option<V>)
    requires Inv(s, size) && MayEdit(s, t, key, p, size, e, place, done)
    ensures var s' := Edited(s, t, key, p, size, e, place, done); forall u | u in s'.threads :: ThreadOk(s', u, size)
  {
    var s' := Edited(s, t, key, p, size, e, place, done);
    forall u | u in s'.threads ensures ThreadOk(s', u, size) {
      if u != t {
        assert ThreadOk(s, u, size);
        LockExcludes(s, t, u, key, p, size);
        var pl := s.threads[u].place;
        if HasPointer(pl) {
          OtherEntries(s, t, key, p, size, e, place, done, pl.key, pl.p);
          CompletedGrows(s, t, key, p, size, e, place, done, pl.key);
        }
      }
    }
  }

  lemma EditKeepsKeys<V>(s: State<V>, t: nat, key: nat, p: nat, size: nat, e: Entry<V>, place: Place, done: Option<V>)
    requires Inv(s, size) && MayEdit(s, t, key, p, size, e, place, done)
    ensures var s' := Edited(s, t, key, p, size, e, place, done); forall j: nat :: KeyOk(s', j, size)
  {
    var s' := Edited(s, t, key, p, size, e, place, done);
    forall j: nat ensures KeyOk(s', j, size) {
      assert KeyOk(s, j, size);
      CompletedGrows(s, t, key, p, size, e, place, done, j);
      if j != key && Chunk(j, size) in s.chunks {
        OtherEntries(s, t, key, p, size, e, place, done, j, s.chunks[Chunk(j, size)]);
      }
    }
  }

  lemma EditKeeps<V>(s: State<V>, t: nat, key: nat, p: nat, size: nat, e: Entry<V>, place: Place, done: Option<V>)
    requires Inv(s, size) && MayEdit(s, t, key, p, size, e, place, done)
    ensures Inv(Edited(s, t, key, p, size, e, place, done), size)
  {
    EditKeepsThreads(s, t, key, p, size, e, place, done);
    EditKeepsKeys(s, t, key, p, size, e, place, done);
    EditKeepsRest(s, t, key, p, size, e, place, done);
  }

  lemma EditKeepsRest<V>(s: State<V>, t: nat, key: nat, p: nat, size: nat, e: Entry<V>, place: Place, done: Option<V>)
    requires size > 0 && MemoryOk(s, size) && LogsOk(s) && t in s.threads && Found(s, key, p, size)
    requires done.Some? ==> !Completed(s, key)
    ensures var s' := Edited(s, t, key, p, size, e, place, done); MemoryOk(s', size) && LogsOk(s')
  {
  }

  lemma AnswerKeeps<V>(s: State<V>, key: nat, value: V, size: nat)
    requires Inv(s, size) && (key, value) in s.completions
    ensures Inv(Answer(s, key, value), size)
  {
    var s' := Answer(s, key, value);
    forall t | t in s'.threads ensures ThreadOk(s', t, size) {
      assert ThreadOk(s, t, size);
    }
    forall j: nat ensures KeyOk(s', j, size) {
      assert KeyOk(s, j, size);
    }
  }

  /** A thread inside a lock, or just taking it, edits its entry. */
  lemma LockedStepKeeps<V>(s: State<V>, t: nat, size: nat)
    requires Inv(s, size) && t in s.threads
    ensures var pl := s.threads[t].place;
            HasPointer(pl) ==>
              && HasEntry(s, pl.p, size)
              && var e := EntryAt(s, pl.key, pl.p, size);
              && (pl.Wait? && e.holder.None? ==> Inv(Edited(s, t, pl.key, pl.p, size, e.(holder := Some(t)), Check(pl.key, pl.p), None), size))
              && (pl.Publish? ==> Inv(Edited(s, t, pl.key, pl.p, size, e.(saved := true), Leave(pl.key, pl.p), None), size))
  {
    var pl := s.threads[t].place;
    if HasPointer(pl) {
      assert ThreadOk(s, t, size) && KeyOk(s, pl.key, size);
      var e := EntryAt(s, pl.key, pl.p, size);
      if pl.Wait? && e.holder.None? {
        EditKeeps(s, t, pl.key, pl.p, size, e.(holder := Some(t)), Check(pl.key, pl.p), None);
      } else if pl.Publish? {
        EditKeeps(s, t, pl.key, pl.p, size, e.(saved := true), Leave(pl.key, pl.p), None);
      }
    }
  }

  lemma LeaveKeeps<V>(s: State<V>, t: nat, size: nat)
    requires Inv(s, size) && t in s.threads && s.threads[t].place.Leave?
    ensures var pl := s.threads[t].place;
            && HasEntry(s, pl.p, size)
            && var e := EntryAt(s, pl.key, pl.p, size);
            Inv(Answer(Edited(s, t, pl.key, pl.p, size, e.(holder := None), Idle, None), pl.key, e.value), size)
  {
    var pl := s.threads[t].place;
    assert ThreadOk(s, t, size) && KeyOk(s, pl.key, size);
    var e := EntryAt(s, pl.key, pl.p, size);
    EditKeeps(s, t, pl.key, pl.p, size, e.(holder := None), Idle, None);
    AnswerKeeps(Edited(s, t, pl.key, pl.p, size, e.(holder := None), Idle, None), pl.key, e.value, size);
  }

  lemma MissReturnsKeeps<V>(s: State<V>, t: nat, size: nat, value: V)
    requires Inv(s, size) && t in s.threads && s.threads[t].place.Compute?
    ensures var pl := s.threads[t].place;
            && HasEntry(s, pl.p, size)
            && var e := EntryAt(s, pl.key, pl.p, size);
            Inv(Edited(s, t, pl.key, pl.p, size, e.(value := value), Publish(pl.key, pl.p), Some(value)), size)
  {
    var pl := s.threads[t].place;
    assert ThreadOk(s, t, size) && KeyOk(s, pl.key, size);
    var e := EntryAt(s, pl.key, pl.p, size);
    var s' := Edited(s, t, pl.key, pl.p, size, e.(value := value), Publish(pl.key, pl.p), Some(value));
    assert s'.completions[|s.completions|] == (pl.key, value);
    EditKeeps(s, t, pl.key, pl.p, size, e.(value := value), Publish(pl.key, pl.p), Some(value));
  }

  lemma MissThrowsKeeps<V>(s: State<V>, t: nat, size: nat)
    requires Inv(s, size) && t in s.threads && s.threads[t].place.Compute?
    ensures var pl := s.threads[t].place;
            && HasEntry(s, pl.p, size)
            && var e := EntryAt(s, pl.key, pl.p, size);
            Inv(Edited(s, t, pl.key, pl.p, size, e.(holder := None), Idle, None), size)
  {
    var pl := s.threads[t].place;
    assert ThreadOk(s, t, size) && KeyOk(s, pl.key, size);
    EditKeeps(s, t, pl.key, pl.p, size, EntryAt(s, pl.key, pl.p, size).(holder := None), Idle, None);
  }

  /** The state after thread `t` installed the chunk of its key. */
  function Installed<V>(s: State<V>, t: nat, key: nat, size: nat, zero: V): State<V>
    requires size > 0 && t in s.threads
  {
    var p := Fresh(s);
    var s' := s.(chunks := s.chunks[Chunk(key, size) := p],
                 memory := s.memory[p := seq(size, _ => Entry(None, false, zero))]);
    Move(s', t, Remember(key, p))
  }

  lemma InstallMemory<V>(s: State<V>, t: nat, key: nat, size: nat, zero: V)
    requires size > 0 && MemoryOk(s, size) && t in s.threads && Chunk(key, size) !in s.chunks
    ensures MemoryOk(Installed(s, t, key, size, zero), size)
  {
    var s' := Installed(s, t, key, size, zero);
    assert Fresh(s) !in s.memory;
    assert s'.memory.Keys == s.memory.Keys + {Fresh(s)};
    assert |s'.memory| == |s'.memory.Keys| == |s.memory.Keys| + 1;
  }

  lemma InstallKey<V>(s: State<V>, t: nat, key: nat, size: nat, zero: V, j: nat)
    requires size > 0 && MemoryOk(s, size) && t in s.threads && Chunk(key, size) !in s.chunks && KeyOk(s, j, size)
    requires !s.threads[t].place.Publish?
    ensures KeyOk(Installed(s, t, key, size, zero), j, size)
  {
  }

  lemma InstallThread<V>(s: State<V>, t: nat, key: nat, size: nat, zero: V, u: nat)
    requires size > 0 && MemoryOk(s, size) && t in s.threads && Chunk(key, size) !in s.chunks && key <= NO_CHUNK
    requires u in s.threads && ThreadOk(s, u, size)
    ensures ThreadOk(Installed(s, t, key, size, zero), u, size)
  {
  }

  /** Installing a chunk leaves every other chunk, pointer and entry alone. */
  lemma InstallKeeps<V>(s: State<V>, t: nat, size: nat, zero: V)
    requires Inv(s, size) && t in s.threads && s.threads[t].place.Install? && Chunk(s.threads[t].place.key, size) !in s.chunks
    ensures Inv(Installed(s, t, s.threads[t].place.key, size, zero), size)
  {
    var key := s.threads[t].place.key;
    var s' := Installed(s, t, key, size, zero);
    assert ThreadOk(s, t, size);
    InstallMemory(s, t, key, size, zero);
    forall u | u in s'.threads ensures ThreadOk(s', u, size) {
      assert ThreadOk(s, u, size);
      InstallThread(s, t, key, size, zero, u);
    }
    forall j: nat ensures KeyOk(s', j, size) {
      assert KeyOk(s, j, size);
      InstallKey(s, t, key, size, zero, j);
    }
  }

  lemma Divides(key: nat, size: nat)
    requires size > 0
    ensures size * (key / size) <= key
  {
  }

  lemma {:induction false} AtLeastDouble(size: nat, q: nat)
    requires size >= 2
    ensures 2 * q <= size * q
  {
    if q > 0 {
      AtLeastDouble(size, q - 1);
      assert size * q == size * (q - 1) + size;
    }
  }

  lemma Halves(key: nat, size: nat)
    requires size > 1
    ensures 2 * (key / size) <= key
  {
    Divides(key, size);
    AtLeastDouble(size, key / size);
  }

  /** A chunk id never equals the initial cached id, unless chunks have one entry. */
  lemma ChunkIdInRange(key: nat, size: nat)
    requires size > 1 && key <= NO_CHUNK
    ensures Chunk(key, size) != NO_CHUNK
  {
    Halves(key, size);
  }

  /** A crash leaves everything as it is. */
  lemma CrashKeeps<V>(s: State<V>, size: nat)
    requires Inv(s, size)
    ensures Inv(s.(crashed := true), size)
  {
    var s' := s.(crashed := true);
    forall t | t in s'.threads ensures ThreadOk(s', t, size) { assert ThreadOk(s, t, size); }
    forall key: nat ensures KeyOk(s', key, size) { assert KeyOk(s, key, size); }
  }

  /** A step that keeps the invariant, and crashes at most with one-entry chunks. */
  ghost predicate Kept<V>(s: State<V>, r: Option<State<V>>, size: nat) {
    r.Some? && Inv(r.value, size) && (size > 1 ==> r.value.crashed == s.crashed)
  }

  /** The fast path, through the cached pointer. */
  lemma StartKeeps<V>(s: State<V>, t: nat, size: nat, zero: V)
    requires Inv(s, size) && t in s.threads && s.threads[t].place.Start?
    ensures Kept(s, Advance(s, t, size, zero), size)
  {
    var th := s.threads[t];
    var key := th.place.key;
    assert ThreadOk(s, t, size);
    if size > 1 { ChunkIdInRange(key, size); }
    if Chunk(key, size) != th.id {
      MoveKeeps(s, t, th.(place := Look(key)), size);
    } else if th.chunk.None? {
      CrashKeeps(s, size);
    } else {
      MoveKeeps(s, t, th.(place := Wait(key, th.chunk.value)), size);
    }
  }

  /** Finding the chunk in the map. */
  lemma LookKeeps<V>(s: State<V>, t: nat, size: nat, zero: V)
    requires Inv(s, size) && t in s.threads
    requires var pl := s.threads[t].place; pl.Look? || (pl.Install? && Chunk(pl.key, size) in s.chunks)
    ensures Kept(s, Advance(s, t, size, zero), size)
  {
    var th := s.threads[t];
    var key := th.place.key;
    assert ThreadOk(s, t, size);
    if Chunk(key, size) in s.chunks {
      MoveKeeps(s, t, th.(place := Remember(key, s.chunks[Chunk(key, size)])), size);
    } else {
      MoveKeeps(s, t, th.(place := Install(key)), size);
    }
  }

  lemma RememberKeeps<V>(s: State<V>, t: nat, size: nat, zero: V)
    requires Inv(s, size) && t in s.threads && s.threads[t].place.Remember?
    ensures Kept(s, Advance(s, t, size, zero), size)
  {
    var pl := s.threads[t].place;
    assert ThreadOk(s, t, size);
    MoveKeeps(s, t, Thread(Wait(pl.key, pl.p), Chunk(pl.key, size), Some(pl.p)), size);
  }

  /** Looking at `saved` changes nothing shared. */
  lemma LookStepKeeps<V>(s: State<V>, t: nat, size: nat, zero: V)
    requires Inv(s, size) && t in s.threads
    requires var pl := s.threads[t].place; pl.Check? || pl.PeekEntry?
    ensures Kept(s, Advance(s, t, size, zero), size)
  {
    assert ThreadOk(s, t, size) && KeyOk(s, s.threads[t].place.key, size);
    MoveKeeps(s, t, Advance(s, t, size, zero).value.threads[t], size);
  }

  lemma PeekStartKeeps<V>(s: State<V>, t: nat, size: nat, zero: V)
    requires Inv(s, size) && t in s.threads && s.threads[t].place.PeekStart?
    ensures Kept(s, Advance(s, t, size, zero), size)
  {
    var th := s.threads[t];
    var key := th.place.key;
    assert ThreadOk(s, t, size);
    if size > 1 { ChunkIdInRange(key, size); }
    if Chunk(key, size) == th.id && th.chunk.None? {
      CrashKeeps(s, size);
    } else {
      MoveKeeps(s, t, Advance(s, t, size, zero).value.threads[t], size);
    }
  }

  lemma PeekValueKeeps<V>(s: State<V>, t: nat, size: nat, zero: V)
    requires Inv(s, size) && t in s.threads && s.threads[t].place.PeekValue?
    ensures Kept(s, Advance(s, t, size, zero), size)
  {
    var pl := s.threads[t].place;
    assert ThreadOk(s, t, size) && KeyOk(s, pl.key, size);
    MoveKeeps(s, t, s.threads[t].(place := Idle), size);
    AnswerKeeps(Move(s, t, Idle), pl.key, EntryAt(s, pl.key, pl.p, size).value, size);
  }

  lemma AdvanceKeeps<V>(s: State<V>, t: nat, size: nat, zero: V)
    requires Inv(s, size) && t in s.threads && Advance(s, t, size, zero).Some?
    ensures Kept(s, Advance(s, t, size, zero), size)
  {
    match s.threads[t].place
    case Start(_) => StartKeeps(s, t, size, zero);
    case Look(_) => LookKeeps(s, t, size, zero);
    case Install(key) =>
      if Chunk(key, size) in s.chunks { LookKeeps(s, t, size, zero); } else { InstallKeeps(s, t, size, zero); }
    case Remember(_, _) => RememberKeeps(s, t, size, zero);
    case Wait(_, _) => LockedStepKeeps(s, t, size);
    case Check(_, _) => LookStepKeeps(s, t, size, zero);
    case Publish(_, _) => LockedStepKeeps(s, t, size);
    case Leave(_, _) => LeaveKeeps(s, t, size);
    case PeekStart(_) => PeekStartKeeps(s, t, size, zero);
    case PeekEntry(_, _) => LookStepKeeps(s, t, size, zero);
    case PeekValue(_, _) => PeekValueKeeps(s, t, size, zero);
    case _ =>
  }

  /** Every step keeps the invariant; unless chunks have one entry, it does not read
      through a bad pointer. */
  lemma StepKeeps<V>(s: State<V>, a: Action<V>, size: nat, zero: V)
    requires Inv(s, size) && Step(s, a, size, zero).Some?
    ensures Kept(s, Step(s, a, size, zero), size)
  {
    match a
    case Join(t) => JoinKeeps(s, t, size);
    case Get(t, key) => assert ThreadOk(s, t, size); MoveKeeps(s, t, s.threads[t].(place := Start(key)), size);
    case Peek(t, key) => assert ThreadOk(s, t, size); MoveKeeps(s, t, s.threads[t].(place := PeekStart(key)), size);
    case MissReturns(t, value) => MissReturnsKeeps(s, t, size, value);
    case MissThrows(t) => MissThrowsKeeps(s, t, size);
    case Go(t) => AdvanceKeeps(s, t, size, zero);
  }

  lemma JoinKeeps<V>(s: State<V>, t: nat, size: nat)
    requires Inv(s, size) && t !in s.threads
    ensures Inv(s.(threads := s.threads[t := Thread(Idle, NO_CHUNK, None)]), size)
  {
    var s' := s.(threads := s.threads[t := Thread(Idle, NO_CHUNK, None)]);
    forall u | u in s'.threads ensures ThreadOk(s', u, size) {
      if u != t { assert ThreadOk(s, u, size); }
    }
    forall j: nat ensures KeyOk(s', j, size) {
      assert KeyOk(s, j, size);
    }
  }

  // ---- all runs ----

  /** The state after a sequence of steps, if each was possible. */
  function Run<V>(actions: seq<Action<V>>, size: nat, zero: V): Option<State<V>>
    requires size > 0
  {
    if actions == [] then Some(Initial())
    else
      var before := Run(actions[..|actions| - 1], size, zero);
      if before.None? then None else Step(before.value, actions[|actions| - 1], size, zero)
  }

  lemma {:induction false} RunKeeps<V>(actions: seq<Action<V>>, size: nat, zero: V)
    requires size > 0 && Run(actions, size, zero).Some?
    ensures Inv(Run(actions, size, zero).value, size) && (size > 1 ==> !Run(actions, size, zero).value.crashed)
  {
    if actions == [] {
      InitialOk<V>(size);
    } else {
      RunKeeps(actions[..|actions| - 1], size, zero);
      StepKeeps(Run(actions[..|actions| - 1], size, zero).value, actions[|actions| - 1], size, zero);
    }
  }

  /** In every interleaving, for every chunk size, up to a crash if there is one:
      onMiss completes at most once per key, every value handed out for a key is
      that completion, and each thread's cached pointer is the chunk map's entry. */
  lemma ComputeOnce<V>(actions: seq<Action<V>>, size: nat, zero: V)
    requires size > 0 && Run(actions, size, zero).Some?
    ensures var s := Run(actions, size, zero).value;
            && (forall i, j | 0 <= i < j < |s.completions| :: s.completions[i].0 != s.completions[j].0)
            && (forall i | 0 <= i < |s.answers| :: s.answers[i] in s.completions)
            && (forall i, j | 0 <= i < j < |s.answers| && s.answers[i].0 == s.answers[j].0 :: s.answers[i] == s.answers[j])
            && (forall t | t in s.threads && s.threads[t].chunk.Some? ::
                  s.threads[t].id in s.chunks && s.chunks[s.threads[t].id] == s.threads[t].chunk.value)
  {
    RunKeeps(actions, size, zero);
    var s := Run(actions, size, zero).value;
    forall i, j | 0 <= i < j < |s.answers| && s.answers[i].0 == s.answers[j].0 ensures s.answers[i] == s.answers[j] {
      assert s.answers[i] in s.completions && s.answers[j] in s.completions;
    }
    forall t | t in s.threads && s.threads[t].chunk.Some?
      ensures s.threads[t].id in s.chunks && s.chunks[s.threads[t].id] == s.threads[t].chunk.value
    {
      assert ThreadOk(s, t, size);
    }
  }

  // ---- what stays ----

  ghost predicate EntriesStay<V>(a: seq<Entry<V>>, b: seq<Entry<V>>) {
    |a| == |b| && forall i | 0 <= i < |a| && a[i].saved :: b[i].saved && b[i].value == a[i].value
  }

  /** Installed chunks stay in place, saved values stay as they are, and completions
      and answers are only added to. */
  ghost predicate Extends<V>(s: State<V>, s': State<V>) {
    && (forall c | c in s.chunks :: c in s'.chunks && s'.chunks[c] == s.chunks[c])
    && (forall p | p in s.memory :: p in s'.memory && EntriesStay(s.memory[p], s'.memory[p]))
    && s.completions <= s'.completions && s.answers <= s'.answers
  }

  lemma ExtendsTransitive<V>(a: State<V>, b: State<V>, c: State<V>)
    requires Extends(a, b) && Extends(b, c)
    ensures Extends(a, c)
  {
    forall p | p in a.memory ensures p in c.memory && EntriesStay(a.memory[p], c.memory[p]) {
      assert EntriesStay(a.memory[p], b.memory[p]) && EntriesStay(b.memory[p], c.memory[p]);
    }
  }

  /** Shared state alike, logs only added to. */
  lemma UntouchedExtends<V>(s: State<V>, s': State<V>)
    requires s'.chunks == s.chunks && s'.memory == s.memory && s.completions <= s'.completions && s.answers <= s'.answers
    ensures Extends(s, s')
  {
  }

  lemma EditExtends<V>(s: State<V>, s': State<V>, key: nat, p: nat, size: nat, e: Entry<V>)
    requires size > 0 && HasEntry(s, p, size)
    requires EntryAt(s, key, p, size).saved ==> e.saved && e.value == EntryAt(s, key, p, size).value
    requires s'.chunks == s.chunks && s'.memory == SetEntry(s, key, p, size, e).memory
    requires s.completions <= s'.completions && s.answers <= s'.answers
    ensures Extends(s, s')
  {
    assert EntriesStay(s.memory[p], s'.memory[p]);
  }

  lemma InstallExtends<V>(s: State<V>, t: nat, key: nat, size: nat, zero: V)
    requires size > 0 && MemoryOk(s, size) && t in s.threads && Chunk(key, size) !in s.chunks
    ensures Extends(s, Installed(s, t, key, size, zero))
  {
    assert Fresh(s) !in s.memory;
  }

  lemma LockedMonotone<V>(s: State<V>, t: nat, size: nat, zero: V)
    requires Inv(s, size) && t in s.threads && Advance(s, t, size, zero).Some?
    requires var pl := s.threads[t].place; pl.Wait? || pl.Publish? || pl.Leave?
    ensures Extends(s, Advance(s, t, size, zero).value)
  {
    var s', pl := Advance(s, t, size, zero).value, s.threads[t].place;
    assert ThreadOk(s, t, size);
    EditExtends(s, s', pl.key, pl.p, size, EntryAt(s', pl.key, pl.p, size));
  }

  /** Steps that change nothing shared. */
  lemma QuietMonotone<V>(s: State<V>, t: nat, size: nat, zero: V)
    requires size > 0 && t in s.threads && Advance(s, t, size, zero).Some?
    requires var pl := s.threads[t].place;
             !pl.Wait? && !pl.Publish? && !pl.Leave? && (pl.Install? ==> Chunk(pl.key, size) in s.chunks)
    ensures Extends(s, Advance(s, t, size, zero).value)
  {
    UntouchedExtends(s, Advance(s, t, size, zero).value);
  }

  lemma AdvanceMonotone<V>(s: State<V>, t: nat, size: nat, zero: V)
    requires Inv(s, size) && t in s.threads && Advance(s, t, size, zero).Some?
    ensures Extends(s, Advance(s, t, size, zero).value)
  {
    var pl := s.threads[t].place;
    if pl.Wait? || pl.Publish? || pl.Leave? {
      LockedMonotone(s, t, size, zero);
    } else if pl.Install? && Chunk(pl.key, size) !in s.chunks {
      InstallExtends(s, t, pl.key, size, zero);
    } else {
      QuietMonotone(s, t, size, zero);
    }
  }

  /** Only a thread that computes changes a value, and its entry is not saved. */
  lemma StepMonotone<V>(s: State<V>, a: Action<V>, size: nat, zero: V)
    requires Inv(s, size) && Step(s, a, size, zero).Some?
    ensures Extends(s, Step(s, a, size, zero).value)
  {
    var s' := Step(s, a, size, zero).value;
    if a.Go? {
      AdvanceMonotone(s, a.t, size, zero);
    } else if a.MissReturns? || a.MissThrows? {
      var pl := s.threads[a.t].place;
      assert ThreadOk(s, a.t, size);
      EditExtends(s, s', pl.key, pl.p, size, EntryAt(s', pl.key, pl.p, size));
    } else {
      UntouchedExtends(s, s');
    }
  }

  /** Whatever holds at some point of a run stays for the rest of it: a saved value
      in particular is never changed or lost. */
  lemma {:induction false} RunMonotone<V>(actions: seq<Action<V>>, n: nat, size: nat, zero: V)
    requires size > 0 && n <= |actions| && Run(actions, size, zero).Some?
    ensures Run(actions[..n], size, zero).Some? && Extends(Run(actions[..n], size, zero).value, Run(actions, size, zero).value)
  {
    if n == |actions| {
      assert actions[..n] == actions;
    } else {
      var front := actions[..|actions| - 1];
      RunMonotone(front, n, size, zero);
      assert front[..n] == actions[..n];
      RunKeeps(front, size, zero);
      StepMonotone(Run(front, size, zero).value, actions[|actions| - 1], size, zero);
      ExtendsTransitive(Run(actions[..n], size, zero).value, Run(front, size, zero).value, Run(actions, size, zero).value);
    }
  }

  ghost predicate Safe<V>(actions: seq<Action<V>>, size: nat, zero: V)
    requires size > 0
  {
    Run(actions, size, zero).Some? ==> !Run(actions, size, zero).value.crashed
  }

  /** The fast path never reads through a null pointer exactly when chunks hold
      more than one entry: with one entry per chunk, the largest key's chunk id is
      the initial cached id. */
  lemma NoCrashExactly<V>(size: nat, zero: V)
    requires size > 0
    ensures size > 1 <==> forall actions: seq<Action<V>> :: Safe(actions, size, zero)
  {
    if size > 1 {
      forall actions: seq<Action<V>> ensures Safe(actions, size, zero) {
        if Run(actions, size, zero).Some? { RunKeeps(actions, size, zero); }
      }
    } else {
      var a1: seq<Action<V>> := [Join(0)];
      var a2 := a1 + [Get(0, NO_CHUNK)];
      var a3 := a2 + [Go(0)];
      assert a1[..0] == [] && a2[..1] == a1 && a3[..2] == a2;
      var t0, t1 := Thread(Idle, NO_CHUNK, None), Thread(Start(NO_CHUNK), NO_CHUNK, None);
      assert Run(a1, size, zero) == Some(Initial<V>().(threads := map[0 := t0]));
      assert map[0 := t0][0 := t1] == map[0 := t1];
      assert Run(a2, size, zero) == Step(Run(a1, size, zero).value, Get(0, NO_CHUNK), size, zero);
      assert Run(a2, size, zero) == Some(Initial<V>().(threads := map[0 := t1]));
      assert Chunk(NO_CHUNK, 1) == NO_CHUNK;
      assert Run(a3, size, zero) == Step(Run(a2, size, zero).value, Go(0), size, zero);
      assert !Safe(a3, size, zero);
    }
  }
}
