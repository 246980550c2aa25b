/**
 How long the timers of the event loop live and when they fire, in every run in which draws of ids do
 not overlap, with any interleaving of a pass, its callbacks and other threads.
 */
module EventTimerRuns {
  import opened TimerHeap
  import opened Timers
  import opened TimerRuns
  import opened EventTimers

  /* ---- a pass that nobody interrupts is a poll ---- */

  /** The steps of the loop's thread after it has collected `fired`. */
  function Finishes(fired: seq<Item>): seq<Step> {
    if fired == [] then []
    else (if fired[0].interval > 0 then [LoadRenewal, Store(0), Put(0)] else [Skip]) + Finishes(fired[1..])
  }

  lemma FinishOne(l: Loop) returns (m: Loop)
    requires LoopIdle(l) && l.inFlight != []
    ensures Reaches(l, if l.inFlight[0].interval > 0 then [LoadRenewal, Store(0), Put(0)] else [Skip], m)
    ensures m.threads == l.threads && m.inFlight == l.inFlight[1..] && m.now == l.now
    ensures var x, s := l.inFlight[0], l.timers;
            m.timers == if x.interval > 0
                        then TimerState(Push(s.items, Renewed(x, s.nextId + 1, l.now)), s.nextId + 1)
                        else s
  {
    hide Push, Reaches;
    if l.inFlight[0].interval > 0 {
      var a := Next(l, LoadRenewal);
      var b := Next(a, Store(0));
      m := Next(b, Put(0));
      Stays(m);
      StepThen(b, Put(0), [], m);
      StepThen(a, Store(0), [Put(0)] + [], m);
      StepThen(l, LoadRenewal, [Store(0)] + ([Put(0)] + []), m);
      assert [LoadRenewal] + ([Store(0)] + ([Put(0)] + [])) == [LoadRenewal, Store(0), Put(0)];
    } else {
      m := Next(l, Skip);
      Stays(m);
      StepThen(l, Skip, [], m);
      assert [Skip] + [] == [Skip];
    }
  }

  lemma {:induction false} FinishAll(l: Loop) returns (m: Loop)
    requires LoopIdle(l)
    ensures Reaches(l, Finishes(l.inFlight), m)
    ensures m.threads == l.threads && m.inFlight == [] && m.now == l.now
    ensures var r := Renewals(l.inFlight, l.timers.nextId, l.now);
            m.timers == TimerState(PushAll(l.timers.items, r), l.timers.nextId + |r|)
    decreases |l.inFlight|
  {
    hide Push, Reaches;
    m := l;
    if l.inFlight == [] {
      Stays(l);
    } else {
      var a := FinishOne(l);
      m := FinishAll(a);
      ReachesJoin(l, if l.inFlight[0].interval > 0 then [LoadRenewal, Store(0), Put(0)] else [Skip], a,
                  Finishes(a.inFlight), m);
      var r, later := Renewals(l.inFlight, l.timers.nextId, l.now), Renewals(a.inFlight, a.timers.nextId, l.now);
      if l.inFlight[0].interval > 0 { assert r[1..] == later; }
    }
  }

  /** Collecting and finishing without anything in between fires what `poll` fires, in that order,
      and leaves its state. */
  lemma UninterruptedPassIsPoll(l: Loop, now: int) returns (m: Loop)
    requires LoopIdle(l) && l.inFlight == []
    ensures var p := Poll(l.timers, now);
            && Next(l, Collect(now)).inFlight == p.fired
            && Reaches(l, [Collect(now)] + Finishes(p.fired), m)
            && m.timers == p.state && m.inFlight == [] && m.threads == l.threads
  {
    hide Push, PushAll, Renewals, Drain, Reaches;
    var a := Next(l, Collect(now));
    m := FinishAll(a);
    StepThen(l, Collect(now), Finishes(a.inFlight), m);
  }

  /* ---- how long a repeating timer lives ---- */

  /** A repeating timer of lineage `o` that is not cancelled. */
  predicate Repeats(x: Item, o: int) {
    x.origin == o && x.interval > 0 && !x.cancelled
  }

  /** It is in the heap, in flight, or about to be inserted. */
  ghost predicate Alive(l: Loop, o: int) {
    exists x :: x in Total(l) && Repeats(x, o)
  }

  /** The step cancels or clears an item of the lineage that is in the heap. */
  ghost predicate Hits(l: Loop, s: Step, o: int) {
    match s
    case Cancel(id) => exists x :: x in l.timers.items && x.id == id && x.origin == o
    case Clear => exists x :: x in l.timers.items && x.origin == o
    case _ => false
  }

  ghost predicate Spared(l: Loop, steps: seq<Step>, o: int)
    decreases |steps|
  {
    steps == []
    || (!Hits(l, steps[0], o) && (Enabled(l, steps[0]) ==> Spared(Next(l, steps[0]), steps[1..], o)))
  }

  /** Nothing of the lineage is left that could fire. */
  ghost predicate Gone(l: Loop, o: int) {
    && Sound(l) && o <= l.timers.nextId
    && (forall x :: x in l.timers.items && x.origin == o ==> x.cancelled)
    && (forall x :: x in Flying(l) ==> x.origin != o)
  }

  lemma InTotal(l: Loop, x: Item)
    ensures x in Total(l) <==> x in l.timers.items || x in Flying(l)
  {
    hide Flying;
    assert x in l.timers.items <==> x in multiset(l.timers.items);
  }

  lemma SameInLoop(l: Loop, x: Item, y: Item)
    requires Sound(l) && (x.origin == y.origin || x.id == y.id) && x in Total(l) && y in Total(l)
    ensures x == y && multiset(l.timers.items)[x] + Flying(l)[x] == 1 && x.origin <= l.timers.nextId
  {
    hide HeapOrdered, Orderly, OneDraws, Flying;
    assert Total(l)[x] == multiset(l.timers.items)[x] + Flying(l)[x];
  }

  lemma PushMembers(items: seq<Item>, y: Item, x: Item)
    ensures x in Push(items, y) <==> x in items || x == y
  {
    hide Push, HeapOrdered;
    PushKeeps(items, y);
    assert x in Push(items, y) <==> x in multiset(Push(items, y));
    assert x in items <==> x in multiset(items);
  }

  lemma CollectMembers(s: TimerState, now: int, x: Item)
    requires HeapOrdered(s.items)
    ensures var d := Drain(s.items, now);
            && (x in s.items && !x.cancelled ==> x in d.rest || x in d.fired)
            && (x in d.rest || x in d.fired ==> x in s.items)
            && (x in d.fired ==> !x.cancelled)
  {
    hide HeapOrdered, Drain;
    if x in s.items && !x.cancelled && x.expireAt > now { RestHolds(s, now, x); }
    DrainMembers(s, now, x);
  }

  lemma RestHolds(s: TimerState, now: int, x: Item)
    requires HeapOrdered(s.items) && x in s.items && !x.cancelled && x.expireAt > now
    ensures x in Drain(s.items, now).rest
  {
    hide HeapOrdered, Sorted, Drain;
    DrainSplits(s.items, now);
    assert multiset(s.items)[x] > 0;
    assert multiset(Drain(s.items, now).rest)[x] > 0;
  }

  lemma CancelSpares(s: TimerState, id: int, x: Item)
    requires x in s.items && x.id != id
    ensures x in CancelItem(s, id).items
  {
    IndexOfFinds(s.items, id);
    var k :| 0 <= k < |s.items| && s.items[k] == x;
    assert CancelItem(s, id).items[k] == x;
  }

  /** Where a live repeating timer is after a step that does not hit it. */
  lemma Survivor(l: Loop, s: Step, x: Item) returns (y: Item)
    requires HeapOrdered(l.timers.items) && Enabled(l, s) && x in Total(l) && Repeats(x, x.origin)
    requires !Hits(l, s, x.origin)
    ensures y in Total(Next(l, s)) && Repeats(y, x.origin)
  {
    hide HeapOrdered, Flying, Push, Drain, CancelItem;
    var m := Next(l, s);
    StepFlies(l, s);
    InTotal(l, x);
    y := x;
    match s
    case Load(_, _, _) => InTotal(m, x);
    case LoadRenewal => InTotal(m, x);
    case Skip =>
      InTotal(m, x);
      assert x in Flying(l) ==> x in Flying(m) + multiset{l.inFlight[0]};
    case Store(t) => y := StoreSurvivor(l, t, x);
    case Put(t) =>
      PushMembers(l.timers.items, l.threads[t].item, x);
      assert x in Flying(l) ==> x in Flying(m) + multiset{l.threads[t].item};
      InTotal(m, x);
    case Cancel(id) =>
      if x in l.timers.items { CancelSpares(l.timers, id, x); }
      InTotal(m, x);
    case Clear => InTotal(m, x);
    case Collect(now) =>
      if x in l.timers.items { CollectMembers(l.timers, now, x); }
      assert x in m.inFlight ==> x in multiset(m.inFlight);
      InTotal(m, x);
  }

  lemma StoreSurvivor(l: Loop, t: nat, x: Item) returns (y: Item)
    requires Enabled(l, Store(t)) && x in Total(l) && Repeats(x, x.origin)
    ensures y in Total(Next(l, Store(t))) && Repeats(y, x.origin)
  {
    hide Flying, Total;
    var m, th := Next(l, Store(t)), l.threads[t];
    InTotal(l, x);
    if th.req == Renewal(x) {
      y := m.threads[t].item;
      assert y in Flying(m) by { HandIsFlying(m, t); }
    } else {
      y := x;
      if x in Flying(l) { KeptFlying(l, t, x); }
    }
    InTotal(m, y);
  }

  lemma KeptFlying(l: Loop, t: nat, x: Item)
    requires Enabled(l, Store(t)) && x in Flying(l) && l.threads[t].req != Renewal(x)
    ensures x in Flying(Next(l, Store(t)))
  {
    hide Flying;
    var m, th := Next(l, Store(t)), l.threads[t];
    StoreFlies(l, t);
    assert (Flying(m) + HandOf(th))[x] == (Flying(l) + multiset{Made(th.req, th.value + 1, l.now)})[x];
  }

  /** A step that does not hit the lineage leaves it alive. */
  lemma StaysAlive(l: Loop, s: Step, o: int)
    requires Sound(l) && Enabled(l, s) && Alive(l, o) && !Hits(l, s, o)
    ensures Alive(Next(l, s), o)
  {
    hide Total, Next, Hits, Enabled, HeapOrdered, Orderly, OneDraws;
    var x :| x in Total(l) && Repeats(x, o);
    var y := Survivor(l, s, x);
  }

  lemma CancelFlags(s: TimerState, id: int, x: Item)
    requires x in s.items && x.id == id && multiset(s.items)[x] == 1
    requires forall y :: y in s.items && (y.origin == x.origin || y.id == id) ==> y == x
    ensures forall y :: y in CancelItem(s, id).items && y.origin == x.origin ==> y.cancelled
  {
    hide IndexOf;
    IndexOfFinds(s.items, id);
    var i, t := IndexOf(s.items, id), CancelItem(s, id);
    var z := x.(cancelled := true);
    assert s.items[i] in s.items;
    var m := ReplaceAt(s.items, i, z);
    assert multiset(s.items)[x] == m[x] + 1;
    assert forall y :: y in m ==> y in multiset(s.items);
    forall y | y in t.items && y.origin == x.origin
      ensures y == z
    {
      assert y in multiset(t.items);
    }
  }

  /** A step that hits it ends it. */
  lemma HitEnds(l: Loop, s: Step, o: int)
    requires Sound(l) && Enabled(l, s) && Hits(l, s, o)
    ensures Gone(Next(l, s), o)
  {
    hide Sound, Total, Flying, CancelItem;
    assert !Overlaps(l, s);
    StepKeeps(l, s);
    StepFlies(l, s);
    var x :| x in l.timers.items && x.origin == o && (s.Cancel? ==> x.id == s.id);
    InTotal(l, x);
    SameInLoop(l, x, x);
    assert multiset(l.timers.items)[x] >= 1;
    forall y | (y in l.timers.items || y in Flying(l)) && (y.origin == o || y.id == x.id)
      ensures y == x
    {
      InTotal(l, y);
      SameInLoop(l, x, y);
    }
    if s.Cancel? { CancelFlags(l.timers, s.id, x); }
  }

  lemma CancelFrom(s: TimerState, id: int, y: Item)
    requires y in CancelItem(s, id).items
    ensures y in s.items || y.cancelled
  {
    var t := CancelItem(s, id);
    var k :| 0 <= k < |t.items| && t.items[k] == y;
    if !y.cancelled { assert s.items[k] == y; }
  }

  lemma GoneInHeap(l: Loop, s: Step, o: int, y: Item)
    requires Gone(l, o) && Enabled(l, s) && y in Next(l, s).timers.items && y.origin == o
    ensures y.cancelled
  {
    hide Sound, Flying, Push, Drain, CancelItem;
    match s
    case Put(t) =>
      PushMembers(l.timers.items, l.threads[t].item, y);
      assert l.threads[t].item in Flying(l) by { HandIsFlying(l, t); }
    case Cancel(id) => CancelFrom(l.timers, id, y);
    case Collect(now) => CollectMembers(l.timers, now, y) by { HeapOf(l); }
    case _ =>
  }

  lemma HeapOf(l: Loop)
    requires Sound(l)
    ensures HeapOrdered(l.timers.items)
  {
  }

  lemma GoneInFlight(l: Loop, s: Step, o: int, y: Item)
    requires Gone(l, o) && Enabled(l, s) && y in Flying(Next(l, s))
    ensures y.origin != o
  {
    hide Sound, Flying, Push, Drain, CancelItem;
    StepFlies(l, s);
    var m := Next(l, s);
    match s
    case Skip => assert y in Flying(m) + multiset{l.inFlight[0]};
    case Put(t) => assert y in Flying(m) + multiset{l.threads[t].item};
    case Store(t) =>
      var th := l.threads[t];
      assert y in Flying(l) + multiset{Made(th.req, th.value + 1, l.now)};
      assert th.value == l.timers.nextId by { ReadIsCounter(l, t); }
      if th.req.Renewal? { assert th.req.fired in Flying(l) by { HandIsFlying(l, t); } }
    case Collect(now) => CollectMembers(l.timers, now, y) by { HeapOf(l); }
    case _ =>
  }

  lemma ReadIsCounter(l: Loop, t: nat)
    requires Sound(l) && t < |l.threads| && l.threads[t].Loaded?
    ensures l.threads[t].value == l.timers.nextId
  {
  }

  lemma GoneStays(l: Loop, s: Step, o: int)
    requires Gone(l, o) && Enabled(l, s) && !Overlaps(l, s)
    ensures Gone(Next(l, s), o)
  {
    hide Sound, Flying, Next, Enabled, Overlaps;
    StepKeeps(l, s);
    var m := Next(l, s);
    forall y | y in m.timers.items && y.origin == o ensures y.cancelled { GoneInHeap(l, s, o, y); }
    forall y | y in Flying(m) ensures y.origin != o { GoneInFlight(l, s, o, y); }
  }

  lemma GoneIsNotAlive(l: Loop, o: int)
    requires Gone(l, o)
    ensures !Alive(l, o)
  {
    hide Sound, Total, Flying;
    forall x | x in Total(l) ensures !Repeats(x, o) { InTotal(l, x); }
  }

  lemma {:induction false} GoneForever(l: Loop, steps: seq<Step>, m: Loop, o: int)
    requires Gone(l, o) && Reaches(l, steps, m) && Serial(l, steps)
    ensures Gone(m, o)
    decreases |steps|
  {
    hide Gone, Next, Overlaps;
    if steps != [] {
      GoneStays(l, steps[0], o);
      GoneForever(Next(l, steps[0]), steps[1..], m, o);
    }
  }

  lemma {:induction false} AliveFrom(l: Loop, steps: seq<Step>, m: Loop, o: int)
    requires Sound(l) && Alive(l, o) && Reaches(l, steps, m) && Serial(l, steps)
    ensures Alive(m, o) <==> Spared(l, steps, o)
    decreases |steps|
  {
    hide Sound, Alive, Next, Hits, Gone, Overlaps;
    if steps != [] {
      StepKeeps(l, steps[0]);
      if Hits(l, steps[0], o) {
        HitEnds(l, steps[0], o);
        GoneForever(Next(l, steps[0]), steps[1..], m, o);
        GoneIsNotAlive(m, o);
      } else {
        StaysAlive(l, steps[0], o);
        AliveFrom(Next(l, steps[0]), steps[1..], m, o);
      }
    }
  }

  /** A state reached by a run in which no two draws overlap. */
  ghost predicate ReachedSerially(n: nat, before: seq<Step>, l: Loop) {
    Reaches(Start(n), before, l) && Serial(Start(n), before)
  }

  lemma ReachedHolds(n: nat, before: seq<Step>, l: Loop)
    requires ReachedSerially(n, before, l)
    ensures Sound(l)
  {
    hide Sound;
    StartHolds(n);
    RunKeepsAll(Start(n), before, l);
  }

  lemma {:induction false} HeapFrom(l: Loop, steps: seq<Step>, m: Loop)
    requires HeapOrdered(l.timers.items) && Reaches(l, steps, m)
    ensures HeapOrdered(m.timers.items)
    decreases |steps|
  {
    hide HeapOrdered, Next, Enabled;
    if steps != [] {
      HeapStays(l, steps[0]);
      HeapFrom(Next(l, steps[0]), steps[1..], m);
    }
  }

  /** Heap order holds in every run, also when draws overlap. */
  lemma HeapInEveryRun(n: nat, steps: seq<Step>, m: Loop)
    requires Reaches(Start(n), steps, m)
    ensures HeapOrdered(m.timers.items)
  {
    hide HeapOrdered, Reaches;
    assert HeapOrdered([]) by { NothingIsHeap(); }
    HeapFrom(Start(n), steps, m);
  }

  /** As long as draws do not overlap, the timers are a heap with unique ids in every reachable state,
      and none in the heap has the id or the lineage of one outside. */
  lemma UniqueInEveryRun(n: nat, before: seq<Step>, l: Loop)
    requires ReachedSerially(n, before, l)
    ensures HeapOrdered(l.timers.items) && !Duplicate(l.timers.items)
    ensures forall x, y :: x in l.timers.items && y in Flying(l) ==> x.id != y.id && x.origin != y.origin
  {
    hide Duplicate, Flying, Total, Orderly, OneDraws, HeapOrdered, ReachedSerially, Distinct;
    ReachedHolds(n, before, l);
    SoundHasNoDuplicate(l);
    forall x, y | x in l.timers.items && y in Flying(l)
      ensures x.id != y.id && x.origin != y.origin
    {
      InTotal(l, x);
      InTotal(l, y);
      assert multiset(l.timers.items)[x] >= 1;
      if x.id == y.id || x.origin == y.origin { SameInLoop(l, x, y); }
    }
  }

  /** In every run whose draws do not overlap, with any interleaving, a repeating timer goes on for
      exactly as long as no cancellation finds it in the heap: one that comes while the timer is in
      flight does not stop it. */
  lemma AliveIffSpared(n: nat, before: seq<Step>, l: Loop, steps: seq<Step>, m: Loop, o: int)
    requires ReachedSerially(n, before, l) && Alive(l, o) && Reaches(l, steps, m) && Serial(l, steps)
    ensures Alive(m, o) <==> Spared(l, steps, o)
  {
    hide Sound, Alive, ReachedSerially, Spared, Reaches;
    ReachedHolds(n, before, l);
    AliveFrom(l, steps, m, o);
  }

  /** Cancelling a timer that is in flight finds nothing and changes nothing. */
  lemma CancelInFlight(n: nat, before: seq<Step>, l: Loop, x: Item)
    requires ReachedSerially(n, before, l) && x in Flying(l)
    ensures Next(l, Step.Cancel(x.id)) == l && !Hits(l, Step.Cancel(x.id), x.origin)
  {
    hide ReachedSerially, IndexOf, Flying, Duplicate, HeapOrdered;
    UniqueInEveryRun(n, before, l);
    IndexOfFinds(l.timers.items, x.id);
  }

  /** After a cancellation that found its timer, no pass ever collects the lineage again. */
  lemma CancelledIsNeverCollected(n: nat, before: seq<Step>, l: Loop, x: Item, steps: seq<Step>, m: Loop)
    requires ReachedSerially(n, before, l) && x in l.timers.items
    requires Reaches(Next(l, Step.Cancel(x.id)), steps, m) && Serial(Next(l, Step.Cancel(x.id)), steps)
    ensures forall y :: y in m.inFlight ==> y.origin != x.origin
  {
    hide Sound, Next, Held, Serial, Reaches, ReachedSerially;
    ReachedHolds(n, before, l);
    HitEnds(l, Step.Cancel(x.id), x.origin);
    GoneForever(Next(l, Step.Cancel(x.id)), steps, m, x.origin);
    assert forall y :: y in m.inFlight ==> y in multiset(m.inFlight);
  }

  /** A repeating timer cancelled by its own callback, or by another thread during the pass: id 1 is
      cancelled while it is in flight, and the timer is back in the heap when the pass ends. */
  lemma CancelIsLost() returns (before: seq<Step>, m: Loop)
    ensures Reaches(Start(2), before + [Collect(1), Step.Cancel(1), LoadRenewal, Store(0), Put(0)], m)
    ensures m.timers.items == [Item(2, 2, 1, false, 1)] && m.inFlight == []
  {
    hide Push, Reaches;
    var x, y := Item(1, 1, 1, false, 1), Item(2, 2, 1, false, 1);
    var start := Loop(TimerState([x], 1), [], 0, [Idle, Idle], [1]);
    before := OneAdded();
    PushTwo(y, y);
    assert Drain([x], 1) == Drained([x], []) by { assert PopRest([x]) == [] && Drain([], 1) == Drained([], []); }
    var a := Next(start, Collect(1));
    assert Next(a, Step.Cancel(1)) == a;
    m := FinishOne(a);
    var rest := [LoadRenewal, Store(0), Put(0)];
    StepThen(a, Step.Cancel(1), rest, m);
    StepThen(start, Collect(1), [Step.Cancel(1)] + rest, m);
    var pass := [Collect(1), Step.Cancel(1), LoadRenewal, Store(0), Put(0)];
    assert [Collect(1)] + ([Step.Cancel(1)] + rest) == pass;
    ReachesJoin(Start(2), before, start, pass, m);
  }

  /* ---- the rate of a timer ---- */

  /** The times at which a step collects the lineage `o`. */
  function TimesIn(l: Loop, s: Step, o: int): seq<int> {
    if s.Collect? then TimesOf(Firings(Drain(l.timers.items, s.now).fired, s.now), o) else []
  }

  function Times(l: Loop, steps: seq<Step>, o: int): seq<int>
    decreases |steps|
  {
    if steps == [] || !Enabled(l, steps[0]) then []
    else TimesIn(l, steps[0], o) + Times(Next(l, steps[0]), steps[1..], o)
  }

  /** A timer of the lineage that is in the heap or about to be inserted is not due before `bound`. */
  predicate Later(x: Item, o: int, d: int, bound: int) {
    x.origin == o ==> x.interval == d && x.expireAt >= bound
  }

  /** One that has been collected at `now` is not due again before `bound`. */
  predicate LaterAgain(x: Item, o: int, d: int, now: int, bound: int) {
    x.origin == o ==> x.interval == d && now + d >= bound
  }

  ghost predicate HandLater(th: Thread, o: int, d: int, now: int, bound: int) {
    match th
    case Idle => true
    case Loaded(req, _) => req.Renewal? ==> LaterAgain(req.fired, o, d, now, bound)
    case Stored(x) => Later(x, o, d, bound)
  }

  ghost predicate InPace(l: Loop, o: int, d: int, bound: int) {
    && Sound(l) && o <= l.timers.nextId
    && (forall x :: x in l.timers.items ==> Later(x, o, d, bound))
    && (forall x :: x in l.inFlight ==> LaterAgain(x, o, d, l.now, bound))
    && (forall t :: 0 <= t < |l.threads| ==> HandLater(l.threads[t], o, d, l.now, bound))
  }

  lemma PaceStep(l: Loop, s: Step, o: int, d: int, bound: int)
    requires InPace(l, o, d, bound) && Enabled(l, s) && !Overlaps(l, s) && !s.Collect?
    ensures InPace(Next(l, s), o, d, bound)
  {
    hide Sound, Push, Drain, CancelItem;
    StepKeeps(l, s);
    var m := Next(l, s);
    match s
    case Load(_, _, _) =>
    case LoadRenewal => assert forall x :: x in m.inFlight ==> x in l.inFlight;
    case Skip => assert forall x :: x in m.inFlight ==> x in l.inFlight;
    case Store(t) =>
      ReadIsCounter(l, t);
      assert HandLater(l.threads[t], o, d, l.now, bound);
    case Put(t) =>
      assert HandLater(l.threads[t], o, d, l.now, bound);
      forall x | x in m.timers.items
        ensures Later(x, o, d, bound)
      {
        PushMembers(l.timers.items, l.threads[t].item, x);
      }
    case Cancel(id) =>
      CancelFollows(l.timers, id);
      forall x | x in m.timers.items ensures Later(x, o, d, bound) { assert Kept(l.timers, x); }
    case Clear =>
  }

  /** Collecting finds the lineage at most once, and not before `bound`; then it is due again no
      earlier than an interval later. */
  lemma PaceCollect(l: Loop, now: int, o: int, d: int, bound: int)
    requires InPace(l, o, d, bound) && Enabled(l, Collect(now))
    ensures var times, m := TimesIn(l, Collect(now), o), Next(l, Collect(now));
            || (times == [] && InPace(m, o, d, bound))
            || (times == [now] && now >= bound && InPace(m, o, d, bound + d))
  {
    hide Sound, Drain, TimesOf, Held;
    var m, fired := Next(l, Collect(now)), Drain(l.timers.items, now).fired;
    assert !Overlaps(l, Collect(now));
    StepKeeps(l, Collect(now));
    HeapOf(l);
    DistinctFired(l, now);
    FiredOnce(fired, l.timers.nextId, now, o);
    forall x
      ensures (x in m.timers.items || x in fired ==> x in l.timers.items) && (x in fired ==> x.expireAt <= now)
    {
      CollectMembers(l.timers, now, x);
      DrainMembers(l.timers, now, x);
    }
    NoRenewalWaits(l);
    if FiresLineage(fired, o) {
      var x :| x in fired && x.origin == o;
      assert Later(x, o, d, bound);
      forall y | (y in m.timers.items || y in Flying(m)) && y.origin == o
        ensures y == x && y in fired && y !in m.timers.items
      {
        OneAfterCollect(l, now, x, y);
      }
      forall t | 0 <= t < |m.threads|
        ensures HandLater(m.threads[t], o, d, now, bound + d)
      {
        HandHasNone(l, now, x, t);
      }
    }
  }

  lemma DistinctFired(l: Loop, now: int)
    requires Sound(l)
    ensures Distinct(multiset(Drain(l.timers.items, now).fired), l.timers.nextId)
  {
    hide Distinct, HeapOrdered, Orderly, OneDraws, Drain, Splits, Sorted, Flying;
    var items, d := l.timers.items, Drain(l.timers.items, now);
    DrainSplits(items, now);
    PartsOfHeap(items, now, d);
    DistinctPart(Total(l), multiset(d.fired), l.timers.nextId);
  }

  /** While the loop's thread is idle, no thread is about to renew. */
  lemma NoRenewalWaits(l: Loop)
    requires Sound(l) && LoopIdle(l)
    ensures forall t :: 0 <= t < |l.threads| && l.threads[t].Loaded? ==> l.threads[t].req.Fresh?
  {
  }

  lemma OneAfterCollect(l: Loop, now: int, x: Item, y: Item)
    requires Sound(l) && Enabled(l, Collect(now)) && x in Next(l, Collect(now)).inFlight && y.origin == x.origin
    requires y in Next(l, Collect(now)).timers.items || y in Flying(Next(l, Collect(now)))
    ensures y == x && y !in Next(l, Collect(now)).timers.items && y !in Held(l.threads)
  {
    hide Sound, Drain, Held;
    var m := Next(l, Collect(now));
    assert !Overlaps(l, Collect(now));
    StepKeeps(l, Collect(now));
    assert multiset(m.inFlight)[x] >= 1;
    InTotal(m, x);
    InTotal(m, y);
    SameInLoop(m, x, y);
    assert y in m.timers.items ==> multiset(m.timers.items)[y] >= 1;
    assert Flying(m)[x] == multiset(m.inFlight)[x] + Held(l.threads)[x];
  }

  lemma HandHasNone(l: Loop, now: int, x: Item, t: nat)
    requires Sound(l) && Enabled(l, Collect(now)) && x in Next(l, Collect(now)).inFlight && t < |l.threads|
    ensures l.threads[t].Stored? ==> l.threads[t].item.origin != x.origin
  {
    hide Sound, Drain, Held;
    if l.threads[t].Stored? {
      var y, m := l.threads[t].item, Next(l, Collect(now));
      HandIsHeld(l.threads, t);
      HandIsFlying(m, t);
      assert y in HandOf(l.threads[t]);
      if y.origin == x.origin { OneAfterCollect(l, now, x, y); }
    }
  }

  lemma {:induction false} PaceFrom(l: Loop, steps: seq<Step>, o: int, d: int, bound: int)
    requires InPace(l, o, d, bound) && Serial(l, steps)
    ensures Paced(Times(l, steps, o), bound, d)
    decreases |steps|
  {
    hide InPace, Next, Enabled, Overlaps, TimesIn, Paced;
    if steps == [] || !Enabled(l, steps[0]) {
      NothingPaced(bound, d);
    } else {
      var m, now := Next(l, steps[0]), TimesIn(l, steps[0], o);
      var later := Times(m, steps[1..], o);
      if steps[0].Collect? {
        PaceCollect(l, steps[0].now, o, d, bound);
      } else {
        PaceStep(l, steps[0], o, d, bound);
        assert now == [] by { NoTimes(l, steps[0], o); }
      }
      if now == [] && InPace(m, o, d, bound) {
        PaceFrom(m, steps[1..], o, d, bound);
        assert now + later == later;
      } else {
        PaceFrom(m, steps[1..], o, d, bound + d);
        LaterTimes(steps[0].now, later, bound, d);
      }
    }
  }

  lemma NoTimes(l: Loop, s: Step, o: int)
    requires !s.Collect?
    ensures TimesIn(l, s, o) == []
  {
  }

  lemma OriginInTotal(l: Loop, x: Item)
    requires Sound(l) && x in Total(l)
    ensures x.origin <= l.timers.nextId
  {
  }

  /** A timer whose id has just been drawn is in pace from its first expiry. */
  lemma NewInPace(l: Loop, t: nat)
    requires Sound(l) && Enabled(l, Store(t)) && l.threads[t].req.Fresh?
    ensures var req := l.threads[t].req;
            InPace(Next(l, Store(t)), l.threads[t].value + 1, req.interval, req.expireAt)
  {
    hide Sound, Total, Held;
    var m, req := Next(l, Store(t)), l.threads[t].req;
    var o := l.threads[t].value + 1;
    assert !Overlaps(l, Store(t));
    StepKeeps(l, Store(t));
    ReadIsCounter(l, t);
    forall x | x in l.timers.items || x in Flying(l)
      ensures x.origin < o
    {
      InTotal(l, x);
      OriginInTotal(l, x);
    }
    assert forall x :: x in l.inFlight ==> x in multiset(l.inFlight);
    forall u | 0 <= u < |m.threads|
      ensures HandLater(m.threads[u], o, req.interval, m.now, req.expireAt)
    {
      HandIsFlying(l, u);
      if u != t && !l.threads[u].Idle? {
        assert forall x :: x in HandOf(l.threads[u]) ==> x.origin < o;
      }
    }
  }

  /** In every run whose draws do not overlap, a timer added with first expiry `e` and interval `d` is
      collected for the k-th time no earlier than `e + (k - 1) * d`, whatever happens in between. */
  lemma RateInEveryRun(n: nat, before: seq<Step>, l: Loop, t: nat, steps: seq<Step>)
    requires ReachedSerially(n, before, l) && Enabled(l, Store(t)) && l.threads[t].req.Fresh?
    requires Serial(Next(l, Store(t)), steps)
    ensures var req := l.threads[t].req;
            var times := Times(Next(l, Store(t)), steps, l.threads[t].value + 1);
            forall k :: 0 <= k < |times| ==> times[k] >= req.expireAt + k * req.interval
  {
    hide Sound, InPace, Next, ReachedSerially, Serial, Times;
    ReachedHolds(n, before, l);
    NewInPace(l, t);
    PaceFrom(Next(l, Store(t)), steps, l.threads[t].value + 1, l.threads[t].req.interval, l.threads[t].req.expireAt);
  }

  /** One pass never collects a lineage twice. */
  lemma OncePerPass(n: nat, before: seq<Step>, l: Loop, now: int, o: int)
    requires ReachedSerially(n, before, l)
    ensures |TimesIn(l, Collect(now), o)| <= 1
  {
    hide Sound, Drain, TimesOf, ReachedSerially;
    ReachedHolds(n, before, l);
    DistinctFired(l, now);
    FiredOnce(Drain(l.timers.items, now).fired, l.timers.nextId, now, o);
  }
}
