/**
 The object pool: slots in chunks of 64, a linked free list under a mutex, and an allocation that
 takes the lock up to three times.  Threads inside `allocate` and `deallocate` interleave between
 the locked sections and the atomic counters.
 */
module ObjectPools {

  const CHUNK_SIZE: nat := 64

  datatype Slot = Slot(chunk: nat, index: nat)

  /** Where a thread is inside an operation, with the slot it carries. */
  datatype Thread =
    | Idle
    | Missed                // the first pop found the list empty
    | Grown                 // it has added a chunk; the second pop is next
    | Popped(slot: Slot)    // has a slot, not yet counted
    | Counted(slot: Slot)   // counted; the constructor is next
    | Failing(slot: Slot)   // the constructor threw; the slot goes back
    | FailedBack            // the slot is back; the counter is next
    | Returning(slot: Slot) // inside deallocate, before the push
    | Returned              // after the push; the counter is next

  datatype Pool = Pool(
    free: seq<Slot>,        // the free list, from its head
    freeSize: int,          // free_list_size_
    counted: int,           // allocated_
    chunks: nat,
    held: seq<Slot>,        // slots owned by clients, in the order they were handed out
    threads: seq<Thread>)

  datatype Step =
    | Pop(t: nat)
    | Grow(t: nat)
    | PopAgain(t: nat)
    | Count(t: nat)
    | Construct(t: nat, ok: bool)
    | PushBack(t: nat)
    | Uncount(t: nat)
    | Deallocate(t: nat, i: nat)
    | Push(t: nat)

  /** The first `n` slots of a chunk, in list order. */
  function ChunkSlots(c: nat, n: nat): (s: seq<Slot>)
    ensures |s| == n
  {
    seq(n, i requires i >= 0 => Slot(c, i))
  }

  function AllSlots(chunks: nat): (s: seq<Slot>)
    ensures |s| == CHUNK_SIZE * chunks
  {
    if chunks == 0 then [] else AllSlots(chunks - 1) + ChunkSlots(chunks - 1, CHUNK_SIZE)
  }

  function Initial(n: nat): Pool {
    Pool([], 0, 0, 0, [], seq(n, _ => Idle))
  }

  predicate Enabled(p: Pool, s: Step) {
    match s
    case Pop(t) => t < |p.threads| && p.threads[t].Idle?
    case Grow(t) => t < |p.threads| && p.threads[t].Missed?
    case PopAgain(t) => t < |p.threads| && p.threads[t].Grown?
    case Count(t) => t < |p.threads| && p.threads[t].Popped?
    case Construct(t, _) => t < |p.threads| && p.threads[t].Counted?
    case PushBack(t) => t < |p.threads| && p.threads[t].Failing?
    case Uncount(t) => t < |p.threads| && (p.threads[t].FailedBack? || p.threads[t].Returned?)
    case Deallocate(t, i) => t < |p.threads| && p.threads[t].Idle? && i < |p.held|
    case Push(t) => t < |p.threads| && p.threads[t].Returning?
  }

  function Next(p: Pool, s: Step): Pool
    requires Enabled(p, s)
  {
    match s
    case Pop(t) =>
      if p.free == [] then p.(threads := p.threads[t := Missed])
      else p.(free := p.free[1..], freeSize := p.freeSize - 1, threads := p.threads[t := Popped(p.free[0])])
    case Grow(t) =>
      p.(free := ChunkSlots(p.chunks, CHUNK_SIZE) + p.free, freeSize := p.freeSize + CHUNK_SIZE, chunks := p.chunks + 1,
         threads := p.threads[t := Grown])
    case PopAgain(t) =>
      // an empty list makes allocate return null
      if p.free == [] then p.(threads := p.threads[t := Idle])
      else p.(free := p.free[1..], freeSize := p.freeSize - 1, threads := p.threads[t := Popped(p.free[0])])
    case Count(t) => p.(counted := p.counted + 1, threads := p.threads[t := Counted(p.threads[t].slot)])
    case Construct(t, ok) =>
      if ok then p.(held := p.held + [p.threads[t].slot], threads := p.threads[t := Idle])
      else p.(threads := p.threads[t := Failing(p.threads[t].slot)])
    case PushBack(t) =>
      p.(free := [p.threads[t].slot] + p.free, freeSize := p.freeSize + 1, threads := p.threads[t := FailedBack])
    case Uncount(t) => p.(counted := p.counted - 1, threads := p.threads[t := Idle])
    case Deallocate(t, i) =>
      p.(held := p.held[..i] + p.held[i + 1..], threads := p.threads[t := Returning(p.held[i])])
    case Push(t) =>
      p.(free := [p.threads[t].slot] + p.free, freeSize := p.freeSize + 1, threads := p.threads[t := Returned])
  }

  ghost predicate Reaches(p: Pool, steps: seq<Step>, q: Pool)
    decreases |steps|
  {
    if steps == [] then p == q
    else Enabled(p, steps[0]) && Reaches(Next(p, steps[0]), steps[1..], q)
  }

  /* ---- what the threads carry ---- */

  function SlotOf(t: Thread): multiset<Slot> {
    if t.Popped? || t.Counted? || t.Failing? || t.Returning? then multiset{t.slot} else multiset{}
  }

  /** Threads whose slot, or just returned slot, is still counted. */
  function CountOf(t: Thread): int {
    if t.Counted? || t.Failing? || t.FailedBack? || t.Returning? || t.Returned? then 1 else 0
  }

  function Carried(ts: seq<Thread>): multiset<Slot> {
    if ts == [] then multiset{} else SlotOf(ts[0]) + Carried(ts[1..])
  }

  function Pending(ts: seq<Thread>): (n: nat) {
    if ts == [] then 0 else CountOf(ts[0]) + Pending(ts[1..])
  }

  lemma Regroup(a: multiset<Slot>, b: multiset<Slot>, c: multiset<Slot>, d: multiset<Slot>, e: multiset<Slot>)
    requires b + c == d + e
    ensures (a + b) + c == (a + d) + e
  {
    assert (a + b) + c == a + (b + c);
  }

  lemma {:induction false} Update(ts: seq<Thread>, i: nat, t: Thread)
    requires i < |ts|
    ensures Carried(ts[i := t]) + SlotOf(ts[i]) == Carried(ts) + SlotOf(t)
    ensures Pending(ts[i := t]) + CountOf(ts[i]) == Pending(ts) + CountOf(t)
    decreases |ts|
  {
    hide SlotOf, CountOf;
    var us := ts[i := t];
    if i > 0 {
      Update(ts[1..], i - 1, t);
      assert us[1..] == ts[1..][i - 1 := t];
      assert Carried(us) == SlotOf(ts[0]) + Carried(us[1..]);
      assert Carried(ts) == SlotOf(ts[0]) + Carried(ts[1..]);
      Regroup(SlotOf(ts[0]), Carried(us[1..]), SlotOf(ts[i]), Carried(ts[1..]), SlotOf(t));
    } else {
      assert us[1..] == ts[1..];
    }
  }

  /** Free, held and carried slots together are exactly the slots of all chunks, each once; both
      counters are exact. */
  ghost predicate Inv(p: Pool) {
    && multiset(p.free) + multiset(p.held) + Carried(p.threads) == multiset(AllSlots(p.chunks))
    && p.freeSize == |p.free|
    && p.counted == |p.held| + Pending(p.threads)
  }

  lemma {:induction false} ChunkDistinct(c: nat, n: nat, x: Slot)
    ensures multiset(ChunkSlots(c, n))[x] == if x.chunk == c && x.index < n then 1 else 0
    decreases n
  {
    if n > 0 {
      ChunkDistinct(c, n - 1, x);
      assert ChunkSlots(c, n) == ChunkSlots(c, n - 1) + [Slot(c, n - 1)];
    }
  }

  /** The slots of the chunks are 64 per chunk and all different. */
  lemma {:induction false} SlotsDistinct(chunks: nat, x: Slot)
    ensures multiset(AllSlots(chunks))[x] == if x.chunk < chunks && x.index < CHUNK_SIZE then 1 else 0
  {
    hide ChunkSlots;
    if chunks > 0 {
      SlotsDistinct(chunks - 1, x);
      ChunkDistinct(chunks - 1, CHUNK_SIZE, x);
    }
  }

  lemma HeadOf(s: seq<Slot>)
    requires s != []
    ensures multiset(s) == multiset{s[0]} + multiset(s[1..])
  {
    assert s == [s[0]] + s[1..];
  }

  /** Slots wander between the list, the clients and the threads, one at a time. */
  lemma Transfer(free: multiset<Slot>, held: multiset<Slot>, carried: multiset<Slot>, x: multiset<Slot>,
                 free': multiset<Slot>, held': multiset<Slot>, carried': multiset<Slot>)
    requires (free == free' + x && held == held' && carried + x == carried')
          || (free + x == free' && held == held' && carried == carried' + x)
          || (free == free' && held == held' + x && carried + x == carried')
          || (free == free' && held + x == held' && carried == carried' + x)
    ensures free + held + carried == free' + held' + carried'
  {
  }

  lemma PopKeeps(p: Pool, t: nat)
    requires Inv(p) && t < |p.threads| && (p.threads[t].Idle? || p.threads[t].Grown?) && p.free != []
    ensures Inv(p.(free := p.free[1..], freeSize := p.freeSize - 1, threads := p.threads[t := Popped(p.free[0])]))
  {
    hide Carried, Pending, AllSlots;
    var x, us := p.free[0], p.threads[t := Popped(p.free[0])];
    Update(p.threads, t, Popped(x));
    HeadOf(p.free);
    assert Carried(us) == Carried(p.threads) + multiset{x};
    Transfer(multiset(p.free), multiset(p.held), Carried(p.threads), multiset{x},
             multiset(p.free[1..]), multiset(p.held), Carried(us));
  }

  lemma PushKeeps(p: Pool, t: nat, after: Thread)
    requires Inv(p) && t < |p.threads| && (p.threads[t].Failing? || p.threads[t].Returning?)
    requires after.FailedBack? || after.Returned?
    ensures Inv(p.(free := [p.threads[t].slot] + p.free, freeSize := p.freeSize + 1, threads := p.threads[t := after]))
  {
    hide Carried, Pending, AllSlots;
    var x, us := p.threads[t].slot, p.threads[t := after];
    Update(p.threads, t, after);
    assert Carried(us) + multiset{x} == Carried(p.threads);
    assert multiset([x] + p.free) == multiset(p.free) + multiset{x};
    Transfer(multiset(p.free), multiset(p.held), Carried(p.threads), multiset{x},
             multiset([x] + p.free), multiset(p.held), Carried(us));
  }

  lemma AddChunk(a: multiset<Slot>, b: multiset<Slot>, c: multiset<Slot>, all: multiset<Slot>, added: multiset<Slot>)
    requires a + b + c == all
    ensures (added + a) + b + c == all + added
  {
  }

  lemma GrowKeeps(p: Pool, t: nat)
    requires Inv(p) && Enabled(p, Grow(t))
    ensures Inv(Next(p, Grow(t)))
  {
    hide Carried, Pending, ChunkSlots;
    var us, added := p.threads[t := Grown], ChunkSlots(p.chunks, CHUNK_SIZE);
    Update(p.threads, t, Grown);
    Cancel(Carried(us), Carried(p.threads), multiset{});
    AddChunk(multiset(p.free), multiset(p.held), Carried(us), multiset(AllSlots(p.chunks)), multiset(added));
    assert multiset(added + p.free) == multiset(added) + multiset(p.free);
    assert AllSlots(p.chunks + 1) == AllSlots(p.chunks) + added;
  }

  lemma HandOver(p: Pool, t: nat)
    requires Inv(p) && t < |p.threads| && p.threads[t].Counted?
    ensures Inv(Next(p, Construct(t, true)))
  {
    hide Carried, Pending, AllSlots;
    var x, us := p.threads[t].slot, p.threads[t := Idle];
    Update(p.threads, t, Idle);
    assert Carried(us) + multiset{x} == Carried(p.threads);
    assert multiset(p.held + [x]) == multiset(p.held) + multiset{x};
    Transfer(multiset(p.free), multiset(p.held), Carried(p.threads), multiset{x},
             multiset(p.free), multiset(p.held + [x]), Carried(us));
  }

  lemma HandBack(p: Pool, t: nat, i: nat)
    requires Inv(p) && Enabled(p, Deallocate(t, i))
    ensures Inv(Next(p, Deallocate(t, i)))
  {
    hide Carried, Pending, AllSlots;
    var x := p.held[i];
    var us, rest := p.threads[t := Returning(x)], p.held[..i] + p.held[i + 1..];
    Update(p.threads, t, Returning(x));
    assert Carried(us) == Carried(p.threads) + multiset{x};
    assert p.held == p.held[..i] + [x] + p.held[i + 1..];
    assert multiset(p.held) == multiset(rest) + multiset{x};
    Transfer(multiset(p.free), multiset(p.held), Carried(p.threads), multiset{x},
             multiset(p.free), multiset(rest), Carried(us));
  }

  /** A step that moves no slot. */
  lemma StayKeeps(p: Pool, t: nat, after: Thread)
    requires Inv(p) && t < |p.threads| && SlotOf(p.threads[t]) == SlotOf(after)
    ensures Inv(p.(counted := p.counted + CountOf(after) - CountOf(p.threads[t]), threads := p.threads[t := after]))
  {
    hide Carried, Pending, AllSlots, SlotOf, CountOf;
    Update(p.threads, t, after);
    Cancel(Carried(p.threads[t := after]), Carried(p.threads), SlotOf(after));
  }

  lemma Cancel(a: multiset<Slot>, b: multiset<Slot>, c: multiset<Slot>)
    requires a + c == b + c
    ensures a == b
  {
    forall x: Slot ensures a[x] == b[x] { assert (a + c)[x] == (b + c)[x]; }
  }

  lemma CounterSteps(p: Pool, s: Step)
    requires Inv(p) && Enabled(p, s) && (s.Count? || s.Uncount? || (s.Construct? && !s.ok))
    ensures Inv(Next(p, s))
  {
    hide Inv, ChunkSlots;
    match s
    case Count(t) => StayKeeps(p, t, Counted(p.threads[t].slot));
    case Uncount(t) => StayKeeps(p, t, Idle);
    case Construct(t, _) => StayKeeps(p, t, Failing(p.threads[t].slot));
  }

  lemma MissKeeps(p: Pool, t: nat, after: Thread)
    requires Inv(p) && t < |p.threads| && (p.threads[t].Idle? || p.threads[t].Grown?) && (after.Missed? || after.Idle?)
    ensures Inv(p.(threads := p.threads[t := after]))
  {
    hide Inv;
    StayKeeps(p, t, after);
    assert p.(counted := p.counted + CountOf(after) - CountOf(p.threads[t]), threads := p.threads[t := after])
        == p.(threads := p.threads[t := after]);
  }

  lemma StepKeeps(p: Pool, s: Step)
    requires Inv(p) && Enabled(p, s)
    ensures Inv(Next(p, s))
  {
    hide Inv, ChunkSlots;
    match s
    case Pop(t) => if p.free == [] { MissKeeps(p, t, Missed); } else { PopKeeps(p, t); }
    case Grow(t) => GrowKeeps(p, t);
    case PopAgain(t) => if p.free == [] { MissKeeps(p, t, Idle); } else { PopKeeps(p, t); }
    case Count(t) => CounterSteps(p, s);
    case Construct(t, ok) => if ok { HandOver(p, t); } else { CounterSteps(p, s); }
    case PushBack(t) => PushKeeps(p, t, FailedBack);
    case Uncount(t) => CounterSteps(p, s);
    case Deallocate(t, i) => HandBack(p, t, i);
    case Push(t) => PushKeeps(p, t, Returned);
  }

  lemma {:induction false} RunKeeps(p: Pool, steps: seq<Step>, q: Pool)
    requires Inv(p) && Reaches(p, steps, q)
    ensures Inv(q)
    decreases |steps|
  {
    hide Inv;
    if steps != [] {
      StepKeeps(p, steps[0]);
      RunKeeps(Next(p, steps[0]), steps[1..], q);
    }
  }

  ghost predicate Quiescent(p: Pool) {
    forall i :: 0 <= i < |p.threads| ==> p.threads[i].Idle? || p.threads[i].Missed? || p.threads[i].Grown?
  }

  lemma {:induction false} QuietThreads(ts: seq<Thread>)
    requires forall i :: 0 <= i < |ts| ==> ts[i].Idle? || ts[i].Missed? || ts[i].Grown?
    ensures Carried(ts) == multiset{} && Pending(ts) == 0
    decreases |ts|
  {
    if ts != [] { QuietThreads(ts[1..]); }
  }

  lemma InitialHolds(n: nat)
    ensures Inv(Initial(n))
  {
    QuietThreads(Initial(n).threads);
  }

  /** Under every interleaving each slot of each chunk is in exactly one place, the size counter is
      the length of the list, and the allocation counter is exact up to the threads in between. */
  lemma Conservation(n: nat, steps: seq<Step>, p: Pool)
    requires Reaches(Initial(n), steps, p)
    ensures forall x: Slot :: multiset(p.free)[x] + multiset(p.held)[x] + Carried(p.threads)[x] ==
                              if x.chunk < p.chunks && x.index < 64 then 1 else 0
    ensures p.freeSize == |p.free| && p.counted == |p.held| + Pending(p.threads)
    ensures |p.free| + |p.held| + |Carried(p.threads)| == 64 * p.chunks
    ensures Quiescent(p) ==> p.counted == |p.held| && |p.free| + |p.held| == 64 * p.chunks
  {
    hide Carried, Pending, AllSlots, Reaches;
    InitialHolds(n);
    RunKeeps(Initial(n), steps, p);
    var all := multiset(p.free) + multiset(p.held) + Carried(p.threads);
    forall x: Slot
      ensures multiset(p.free)[x] + multiset(p.held)[x] + Carried(p.threads)[x] ==
              if x.chunk < p.chunks && x.index < CHUNK_SIZE then 1 else 0
    {
      SlotsDistinct(p.chunks, x);
      assert all[x] == multiset(AllSlots(p.chunks))[x];
    }
    assert |all| == |AllSlots(p.chunks)|;
    if Quiescent(p) { QuietThreads(p.threads); }
  }

  /** The list is last in, first out: a slot pushed back is popped next, and after a growth the slots of
      the new chunk are popped first, in order. */
  lemma LastInFirstOut(p: Pool, t: nat, u: nat)
    requires t < |p.threads| && u < |p.threads| && t != u && p.threads[u].Idle?
    ensures p.threads[t].Returning? ==> Next(Next(p, Push(t)), Pop(u)).threads[u] == Popped(p.threads[t].slot)
    ensures p.threads[t].Failing? ==> Next(Next(p, PushBack(t)), Pop(u)).threads[u] == Popped(p.threads[t].slot)
    ensures p.threads[t].Missed? ==>
              var q := Next(p, Grow(t));
              Next(q, Pop(u)).threads[u] == Popped(Slot(p.chunks, 0))
              && Next(q, PopAgain(t)).threads[t] == Popped(Slot(p.chunks, 0))
              && |q.free| == |p.free| + 64 && forall i :: 0 <= i < 64 ==> q.free[i] == Slot(p.chunks, i)
  {
  }

  /** Returning an object takes exactly that one from the clients, and pushing puts its slot in front
      of the list. */
  lemma ReturnedIsFreed(p: Pool, t: nat, i: nat)
    requires Inv(p) && Enabled(p, Deallocate(t, i))
    ensures var q := Next(p, Deallocate(t, i));
            && p.held[i] !in q.held && multiset(p.held) == multiset(q.held) + multiset{p.held[i]}
            && Next(q, Push(t)).free == [p.held[i]] + p.free
  {
    hide Carried, Pending, AllSlots;
    var q, x := Next(p, Deallocate(t, i)), p.held[i];
    assert p.held == p.held[..i] + [x] + p.held[i + 1..];
    SlotsDistinct(p.chunks, x);
    assert (multiset(p.free) + multiset(p.held) + Carried(p.threads))[x] <= 1;
    assert multiset(p.held)[x] <= 1;
    assert multiset(q.held)[x] == 0;
  }

  /* ---- can allocate return null? ---- */

  lemma {:induction false} ReachesJoin(p: Pool, a: seq<Step>, q: Pool, b: seq<Step>, r: Pool)
    requires Reaches(p, a, q) && Reaches(q, b, r)
    ensures Reaches(p, a + b, r)
    decreases |a|
  {
    hide Next, Enabled;
    if a == [] {
      assert a + b == b;
    } else {
      assert (a + b)[0] == a[0] && (a + b)[1..] == a[1..] + b;
      ReachesJoin(Next(p, a[0]), a[1..], q, b, r);
    }
  }

  /** No constructor throws. */
  predicate NoThrow(steps: seq<Step>) {
    forall i :: 0 <= i < |steps| ==> !(steps[i].Construct? && !steps[i].ok)
  }

  /** Thread 1 allocates until the list is empty; thread 0 does not move. */
  lemma {:induction false} DrainBy(p: Pool) returns (steps: seq<Step>, q: Pool)
    requires |p.threads| >= 2 && p.threads[1].Idle?
    ensures Reaches(p, steps, q) && NoThrow(steps) && q.free == [] && q.threads == p.threads
    decreases |p.free|
  {
    if p.free == [] {
      steps, q := [], p;
    } else {
      var round := [Pop(1), Count(1), Construct(1, true)];
      var a := Next(p, Pop(1));
      var b := Next(a, Count(1));
      var c := Next(b, Construct(1, true));
      assert round[1..] == [Count(1), Construct(1, true)] && round[1..][1..] == [Construct(1, true)];
      assert round[1..][1..][1..] == [];
      assert Reaches(c, [], c);
      assert Reaches(b, [Construct(1, true)], c);
      assert Reaches(a, [Count(1), Construct(1, true)], c);
      assert Reaches(p, round, c);
      assert c.threads == p.threads;
      var more;
      more, q := DrainBy(c);
      ReachesJoin(p, round, c, more, q);
      steps := round + more;
    }
  }

  /** The second pop of some thread finds the list empty, so its allocate returns null. */
  ghost predicate NullAhead(p: Pool) {
    p.free == [] && exists t :: 0 <= t < |p.threads| && p.threads[t].Grown?
  }

  lemma TwoThreadsCanMiss(n: nat) returns (steps: seq<Step>, p: Pool)
    requires n >= 2
    ensures Reaches(Initial(n), steps, p) && NoThrow(steps) && NullAhead(p)
  {
    hide ChunkSlots;
    var start := [Pop(0), Grow(0)];
    var a := Next(Initial(n), Pop(0));
    var b := Next(a, Grow(0));
    assert start[1..] == [Grow(0)] && start[1..][1..] == [];
    assert Reaches(b, [], b);
    assert Reaches(a, [Grow(0)], b);
    assert Reaches(Initial(n), start, b);
    var more;
    more, p := DrainBy(b);
    ReachesJoin(Initial(n), start, b, more, p);
    steps := start + more;
    assert p.threads[0].Grown?;
  }

  lemma {:induction false} AloneNeverMisses(p: Pool, steps: seq<Step>, q: Pool)
    requires Reaches(p, steps, q) && |p.threads| <= 1
    requires forall t :: 0 <= t < |p.threads| && p.threads[t].Grown? ==> p.free != []
    ensures !NullAhead(q)
    decreases |steps|
  {
    hide ChunkSlots;
    if steps != [] {
      AloneNeverMisses(Next(p, steps[0]), steps[1..], q);
    }
  }

  ghost predicate Failed(p: Pool) {
    exists t :: 0 <= t < |p.threads| && p.threads[t].FailedBack?
  }

  /** The `allocate` of some thread is about to return null: its second pop finds the list empty, or
      its constructor threw and the slot is back on the list. */
  ghost predicate ReturnsNull(p: Pool) {
    NullAhead(p) || Failed(p)
  }

  /** Both ways out hand over nothing: the thread is done with its call, no slot has moved to the
      clients, and none is in its hands. */
  lemma NullGivesNothing(p: Pool, t: nat)
    requires t < |p.threads|
    ensures p.free == [] && p.threads[t].Grown? ==>
              var q := Next(p, PopAgain(t));
              q.threads[t] == Idle && q.held == p.held && q.free == [] && q.chunks == p.chunks
    ensures p.threads[t].FailedBack? ==>
              var q := Next(p, Uncount(t));
              q.threads[t] == Idle && q.held == p.held && q.free == p.free && q.counted == p.counted - 1
  {
  }

  predicate Unhurt(ts: seq<Thread>) {
    forall t :: 0 <= t < |ts| ==> !ts[t].Failing? && !ts[t].FailedBack?
  }

  lemma {:induction false} NobodyFails(p: Pool, steps: seq<Step>, q: Pool)
    requires Reaches(p, steps, q) && NoThrow(steps) && Unhurt(p.threads)
    ensures Unhurt(q.threads)
    decreases |steps|
  {
    hide ChunkSlots;
    if steps != [] {
      assert !(steps[0].Construct? && !steps[0].ok);
      NobodyFails(Next(p, steps[0]), steps[1..], q);
    }
  }

  lemma OneThreadCanFail(n: nat) returns (steps: seq<Step>, p: Pool)
    requires n >= 1
    ensures Reaches(Initial(n), steps, p) && Failed(p)
  {
    hide ChunkSlots;
    steps := [Pop(0), Grow(0), PopAgain(0), Count(0), Construct(0, false), PushBack(0)];
    var a := Next(Initial(n), Pop(0));
    var b := Next(a, Grow(0));
    var c := Next(b, PopAgain(0));
    var d := Next(c, Count(0));
    var e := Next(d, Construct(0, false));
    p := Next(e, PushBack(0));
    assert p.threads[0].FailedBack?;
    assert steps[1..] == [Grow(0), PopAgain(0), Count(0), Construct(0, false), PushBack(0)];
    assert steps[1..][1..] == [PopAgain(0), Count(0), Construct(0, false), PushBack(0)];
    assert steps[1..][1..][1..] == [Count(0), Construct(0, false), PushBack(0)];
    assert steps[1..][1..][1..][1..] == [Construct(0, false), PushBack(0)];
    assert Reaches(e, [PushBack(0)], p) by { OneStep(e, PushBack(0)); }
    assert Reaches(d, [Construct(0, false), PushBack(0)], p) by {
      assert [Construct(0, false), PushBack(0)][1..] == [PushBack(0)];
    }
    assert Reaches(c, steps[1..][1..][1..], p);
    assert Reaches(b, steps[1..][1..], p);
    assert Reaches(a, steps[1..], p);
  }

  lemma OneStep(p: Pool, s: Step)
    requires Enabled(p, s)
    ensures Reaches(p, [s], Next(p, s))
  {
    assert [s][1..] == [];
    assert Reaches(Next(p, s), [], Next(p, s));
  }

  /** As long as no constructor throws, `allocate` can return null iff at least two threads use the
      pool; if constructors may throw, iff any thread does. */
  lemma NullPossibleIff(n: nat)
    ensures (exists steps, p :: NoThrow(steps) && Reaches(Initial(n), steps, p) && ReturnsNull(p)) <==> n >= 2
    ensures (exists steps, p :: Reaches(Initial(n), steps, p) && ReturnsNull(p)) <==> n >= 1
  {
    hide NullAhead, Failed, Reaches, NoThrow;
    if n >= 2 {
      var steps, p := TwoThreadsCanMiss(n);
    } else {
      forall steps, p | Reaches(Initial(n), steps, p)
        ensures !NullAhead(p) && (NoThrow(steps) ==> !Failed(p))
      {
        AloneNeverMisses(Initial(n), steps, p);
        if NoThrow(steps) {
          NobodyFails(Initial(n), steps, p);
          UnhurtNeverFailed(p);
        }
      }
    }
    if n >= 1 {
      var steps, p := OneThreadCanFail(n);
    } else {
      forall steps, p | Reaches(Initial(n), steps, p)
        ensures !NullAhead(p) && !Failed(p)
      {
        AloneNeverMisses(Initial(n), steps, p);
        SameThreads(Initial(n), steps, p);
        UnhurtNeverFailed(p);
      }
    }
  }

  lemma UnhurtNeverFailed(p: Pool)
    requires Unhurt(p.threads)
    ensures !Failed(p)
  {
  }

  lemma {:induction false} SameThreads(p: Pool, steps: seq<Step>, q: Pool)
    requires Reaches(p, steps, q)
    ensures |q.threads| == |p.threads|
    decreases |steps|
  {
    hide ChunkSlots;
    if steps != [] { SameThreads(Next(p, steps[0]), steps[1..], q); }
  }

  /* ---- the locked sections on the linked list ---- */

  datatype Link = Null | To(slot: Slot)

  /** Following `next` from `head` visits exactly `list`. */
  ghost predicate Chain(next: map<Slot, Link>, head: Link, list: seq<Slot>)
    decreases |list|
  {
    if list == [] then head.Null?
    else head == To(list[0]) && list[0] in next && Chain(next, next[list[0]], list[1..])
  }

  lemma {:induction false} ChainDepends(m: map<Slot, Link>, n: map<Slot, Link>, head: Link, list: seq<Slot>)
    requires Chain(m, head, list) && forall s :: s in list && s in m ==> s in n && n[s] == m[s]
    ensures Chain(n, head, list)
    decreases |list|
  {
    if list != [] {
      assert list[0] in list && forall s :: s in list[1..] ==> s in list;
      ChainDepends(m, n, m[list[0]], list[1..]);
    }
  }

  /** The slots of a chunk linked one to the next, the last one to the old head. */
  lemma {:induction false} ChunkChain(next: map<Slot, Link>, c: nat, k: nat, head: Link, list: seq<Slot>)
    requires k < CHUNK_SIZE && Chain(next, head, list)
    requires forall i :: 0 <= i < CHUNK_SIZE ==> Slot(c, i) in next
    requires forall i :: 0 <= i < CHUNK_SIZE - 1 ==> next[Slot(c, i)] == To(Slot(c, i + 1))
    requires next[Slot(c, CHUNK_SIZE - 1)] == head
    ensures Chain(next, To(Slot(c, k)), ChunkSlots(c, CHUNK_SIZE)[k..] + list)
    decreases CHUNK_SIZE - k
  {
    var all := ChunkSlots(c, CHUNK_SIZE)[k..] + list;
    assert all[0] == Slot(c, k);
    if k == CHUNK_SIZE - 1 {
      assert all[1..] == list;
    } else {
      ChunkChain(next, c, k + 1, head, list);
      assert all[1..] == ChunkSlots(c, CHUNK_SIZE)[k + 1..] + list;
    }
  }

  /** The loop that links the slots of chunk `c`. */
  method LinkChunk(m: map<Slot, Link>, c: nat, head: Link) returns (n: map<Slot, Link>)
    ensures forall i :: 0 <= i < CHUNK_SIZE ==> Slot(c, i) in n
    ensures forall i :: 0 <= i < CHUNK_SIZE - 1 ==> n[Slot(c, i)] == To(Slot(c, i + 1))
    ensures n[Slot(c, CHUNK_SIZE - 1)] == head
    ensures forall s :: s in m && s.chunk != c ==> s in n && n[s] == m[s]
  {
    n := m;
    for i := 1 to CHUNK_SIZE
      invariant forall k :: 0 <= k < i - 1 ==> Slot(c, k) in n && n[Slot(c, k)] == To(Slot(c, k + 1))
      invariant forall s :: s in m && s.chunk != c ==> s in n && n[s] == m[s]
    {
      n := n[Slot(c, i - 1) := To(Slot(c, i))];
    }
    n := n[Slot(c, CHUNK_SIZE - 1) := head];
  }

  class ObjectPool {
    var head: Link
    var next: map<Slot, Link>
    var freeListSize: nat
    var chunks: nat
    ghost var list: seq<Slot>

    ghost predicate Valid()
      reads this
    {
      && Chain(next, head, list) && freeListSize == |list|
      && (forall i, j :: 0 <= i < j < |list| ==> list[i] != list[j])
      && (forall s :: s in list ==> s.chunk < chunks)
    }

    constructor ()
      ensures Valid() && list == [] && chunks == 0
    {
      head, next, freeListSize, chunks, list := Null, map[], 0, 0, [];
    }

    method PopFree() returns (r: Link)
      requires Valid()
      modifies this
      ensures Valid() && chunks == old(chunks)
      ensures if old(list) == [] then r == Null && list == [] else r == To(old(list)[0]) && list == old(list)[1..]
    {
      if head.Null? { return Null; }
      r := head;
      head := next[r.slot];
      freeListSize := freeListSize - 1;
      list := list[1..];
    }

    method PushFree(s: Slot)
      requires Valid() && s !in list && s.chunk < chunks
      modifies this
      ensures Valid() && chunks == old(chunks) && list == [s] + old(list)
    {
      ChainDepends(next, next[s := head], head, list);
      next := next[s := head];
      head := To(s);
      freeListSize := freeListSize + 1;
      list := [s] + list;
      assert list[1..] == old(list);
    }

    /** The second locked section of allocate: link a fresh chunk in front of the list. */
    method AddChunk()
      requires Valid()
      modifies this
      ensures Valid() && chunks == old(chunks) + 1 && list == ChunkSlots(old(chunks), CHUNK_SIZE) + old(list)
    {
      hide Chain, ChunkSlots;
      ghost var before, added := next, ChunkSlots(chunks, CHUNK_SIZE);
      next := LinkChunk(next, chunks, head);
      ChainDepends(before, next, head, list);
      ChunkChain(next, chunks, 0, head, list);
      assert added[0..] == added;
      head := To(Slot(chunks, 0));
      freeListSize := freeListSize + CHUNK_SIZE;
      chunks := chunks + 1;
      OneMoreChunk(added, list, chunks - 1);
      list := added + list;
    }
  }

  lemma OneMoreChunk(added: seq<Slot>, list: seq<Slot>, c: nat)
    requires added == ChunkSlots(c, CHUNK_SIZE)
    requires forall i, j :: 0 <= i < j < |list| ==> list[i] != list[j]
    requires forall s :: s in list ==> s.chunk < c
    ensures forall i, j :: 0 <= i < j < |added + list| ==> (added + list)[i] != (added + list)[j]
    ensures forall s :: s in added + list ==> s.chunk < c + 1
  {
    var all := added + list;
    forall i, j | 0 <= i < j < |all|
      ensures all[i] != all[j]
    {
      if i < |added| <= j { assert all[j] in list; }
    }
  }
}
