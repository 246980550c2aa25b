/**
 The timers of the event loop under every interleaving.  A pass takes all due timers off the heap and
 then, one by one, runs a callback and re-inserts a repeating timer; meanwhile callbacks and other
 threads add and cancel timers.  The heap is guarded by a lock, but an id is drawn by incrementing a
 plain integer outside it, so reading the counter, writing it and inserting the timer are three steps.
 */
module EventTimers {
  import opened TimerHeap
  import opened Timers
  import opened TimerRuns

  /** What an id is drawn for: a timer being added, or the successor of one that fired. */
  datatype Request = Fresh(expireAt: int, interval: int) | Renewal(fired: Item)

  datatype Thread =
    | Idle
    | Loaded(req: Request, value: int)    // has read the counter
    | Stored(item: Item)                  // has written it; the insertion is next

  datatype Loop = Loop(
    timers: TimerState,     // the heap and the id counter
    inFlight: seq<Item>,    // collected by the current pass, callback still to come
    now: int,               // the time of the current pass
    threads: seq<Thread>,   // those that draw ids; the first one runs the loop
    drawn: seq<int>)        // every id drawn, from the moment the counter was read

  datatype Step =
    | Load(t: nat, expireAt: int, interval: int)
    | LoadRenewal           // the first timer in flight has had its callback and repeats
    | Skip                  // it does not repeat
    | Store(t: nat)
    | Put(t: nat)
    | Cancel(id: int)
    | Clear
    | Collect(now: int)

  function Start(n: nat): Loop {
    Loop(Initial(), [], 0, seq(n, _ => Idle), [])
  }

  /** The loop's own thread is between two callbacks. */
  predicate LoopIdle(l: Loop) {
    |l.threads| > 0 && l.threads[0].Idle?
  }

  predicate Enabled(l: Loop, s: Step) {
    match s
    case Load(t, _, _) => t < |l.threads| && l.threads[t].Idle?
    case LoadRenewal => LoopIdle(l) && l.inFlight != [] && l.inFlight[0].interval > 0
    case Skip => LoopIdle(l) && l.inFlight != [] && l.inFlight[0].interval <= 0
    case Store(t) => t < |l.threads| && l.threads[t].Loaded?
    case Put(t) => t < |l.threads| && l.threads[t].Stored?
    case Cancel(_) => true
    case Clear => true
    case Collect(_) => LoopIdle(l) && l.inFlight == []
  }

  function Made(req: Request, id: int, now: int): Item {
    match req
    case Fresh(e, d) => Item(id, e, d, false, id)
    case Renewal(x) => Renewed(x, id, now)
  }

  function Next(l: Loop, s: Step): Loop
    requires Enabled(l, s)
  {
    var read := l.timers.nextId;
    match s
    case Load(t, e, d) => l.(threads := l.threads[t := Loaded(Fresh(e, d), read)], drawn := l.drawn + [read + 1])
    case LoadRenewal =>
      l.(threads := l.threads[0 := Loaded(Renewal(l.inFlight[0]), read)], inFlight := l.inFlight[1..],
         drawn := l.drawn + [read + 1])
    case Skip => l.(inFlight := l.inFlight[1..])
    case Store(t) =>
      var id := l.threads[t].value + 1;
      l.(timers := l.timers.(nextId := id), threads := l.threads[t := Stored(Made(l.threads[t].req, id, l.now))])
    case Put(t) =>
      l.(timers := l.timers.(items := Push(l.timers.items, l.threads[t].item)), threads := l.threads[t := Idle])
    case Cancel(id) => l.(timers := CancelItem(l.timers, id))
    case Clear => l.(timers := l.timers.(items := []))
    case Collect(now) =>
      var d := Drain(l.timers.items, now);
      l.(timers := l.timers.(items := d.rest), inFlight := d.fired, now := now)
  }

  ghost predicate Reaches(l: Loop, steps: seq<Step>, m: Loop)
    decreases |steps|
  {
    if steps == [] then l == m
    else Enabled(l, steps[0]) && Reaches(Next(l, steps[0]), steps[1..], m)
  }

  lemma StepThen(l: Loop, s: Step, rest: seq<Step>, m: Loop)
    requires Enabled(l, s) && Reaches(Next(l, s), rest, m)
    ensures Reaches(l, [s] + rest, m)
  {
    hide Enabled, Next;
    assert ([s] + rest)[1..] == rest;
  }

  lemma Stays(l: Loop)
    ensures Reaches(l, [], l)
  {
  }

  lemma {:induction false} ReachesJoin(l: Loop, a: seq<Step>, m: Loop, b: seq<Step>, k: Loop)
    requires Reaches(l, a, m) && Reaches(m, b, k)
    ensures Reaches(l, a + b, k)
    decreases |a|
  {
    hide Enabled, Next;
    if a == [] {
      assert a + b == b;
    } else {
      assert (a + b)[0] == a[0] && (a + b)[1..] == a[1..] + b;
      ReachesJoin(Next(l, a[0]), a[1..], m, b, k);
    }
  }

  /* ---- when ids are unique ---- */

  /** Some thread has read the counter and not yet written it. */
  ghost predicate Drawing(l: Loop) {
    exists t :: 0 <= t < |l.threads| && l.threads[t].Loaded?
  }

  /** The step reads the counter while another thread is about to write it. */
  ghost predicate Overlaps(l: Loop, s: Step) {
    (s.Load? || s.LoadRenewal?) && Drawing(l)
  }

  /** No two draws of the run overlap. */
  ghost predicate Serial(l: Loop, steps: seq<Step>)
    decreases |steps|
  {
    steps == []
    || (Enabled(l, steps[0]) ==> !Overlaps(l, steps[0]) && Serial(Next(l, steps[0]), steps[1..]))
  }

  predicate NoRepeats(ids: seq<int>) {
    forall i, j :: 0 <= i < j < |ids| ==> ids[i] != ids[j]
  }

  /** At most one thread is drawing, and what it read is still the counter. */
  ghost predicate OneDraws(l: Loop) {
    && (forall t :: 0 <= t < |l.threads| && l.threads[t].Loaded? ==> l.threads[t].value == l.timers.nextId)
    && (forall s, t :: 0 <= s < |l.threads| && 0 <= t < |l.threads| && l.threads[s].Loaded? && l.threads[t].Loaded?
                       ==> s == t)
  }

  /** The ids drawn are 1, 2, 3, ... up to the counter, or one past it during a draw. */
  ghost predicate Counted(l: Loop) {
    && OneDraws(l) && l.timers.nextId >= 0
    && |l.drawn| == l.timers.nextId + (if Drawing(l) then 1 else 0)
    && (forall i :: 0 <= i < |l.drawn| ==> l.drawn[i] == i + 1)
  }

  lemma StoreEndsDraw(l: Loop, t: nat)
    requires OneDraws(l) && Enabled(l, Store(t))
    ensures var m := Next(l, Store(t));
            !Drawing(m) && OneDraws(m) && m.timers.nextId == l.timers.nextId + 1
  {
  }

  lemma OneDrawsStays(l: Loop, s: Step)
    requires OneDraws(l) && Enabled(l, s) && !Overlaps(l, s)
    ensures OneDraws(Next(l, s))
    ensures !s.Store? ==> Next(l, s).timers.nextId == l.timers.nextId
    ensures s.Load? || s.LoadRenewal? ==> Drawing(Next(l, s))
    ensures !s.Store? && !s.Load? && !s.LoadRenewal? ==> (Drawing(Next(l, s)) <==> Drawing(l))
  {
    hide Push, Drain, IndexOf;
    var m := Next(l, s);
    match s
    case Load(t, _, _) => assert m.threads[t].Loaded?;
    case LoadRenewal => assert m.threads[0].Loaded?;
    case Store(t) => StoreEndsDraw(l, t);
    case Put(t) =>
      assert forall u :: 0 <= u < |l.threads| && l.threads[u].Loaded? ==> m.threads[u] == l.threads[u];
      assert forall u :: 0 <= u < |m.threads| && m.threads[u].Loaded? ==> m.threads[u] == l.threads[u];
    case Skip =>
    case Cancel(_) =>
    case Clear =>
    case Collect(_) =>
  }

  lemma CountedStays(l: Loop, s: Step)
    requires Counted(l) && Enabled(l, s) && !Overlaps(l, s)
    ensures Counted(Next(l, s))
  {
    hide OneDraws, Push, Drain, CancelItem;
    OneDrawsStays(l, s);
    if s.Store? {
      assert l.threads[s.t].Loaded?;
      StoreEndsDraw(l, s.t);
    }
  }

  lemma {:induction false} DrawnGrows(l: Loop, steps: seq<Step>, m: Loop)
    requires Reaches(l, steps, m)
    ensures l.drawn <= m.drawn
    decreases |steps|
  {
    hide Push, Drain, CancelItem;
    if steps != [] { DrawnGrows(Next(l, steps[0]), steps[1..], m); }
  }

  lemma RepeatStays(a: seq<int>, b: seq<int>, i: nat, j: nat)
    requires a <= b && i < j < |a| && a[i] == a[j]
    ensures !NoRepeats(b)
  {
    assert b[i] == b[j];
  }

  lemma {:induction false} DrawsFrom(l: Loop, steps: seq<Step>, m: Loop)
    requires Counted(l) && Reaches(l, steps, m)
    ensures NoRepeats(m.drawn) <==> Serial(l, steps)
    ensures Serial(l, steps) ==> Counted(m)
    decreases |steps|
  {
    hide Enabled, Next, OneDraws, Drawing;
    if steps != [] {
      var n := Next(l, steps[0]);
      if Overlaps(l, steps[0]) {
        assert n.drawn == l.drawn + [l.timers.nextId + 1] by { DrawAppends(l, steps[0]); }
        DrawnGrows(n, steps[1..], m);
        RepeatStays(n.drawn, m.drawn, |l.drawn| - 1, |l.drawn|);
      } else {
        CountedStays(l, steps[0]);
        DrawsFrom(n, steps[1..], m);
      }
    }
  }

  lemma DrawAppends(l: Loop, s: Step)
    requires Enabled(l, s) && (s.Load? || s.LoadRenewal?)
    ensures Next(l, s).drawn == l.drawn + [l.timers.nextId + 1]
  {
  }

  lemma StartIsCounted(n: nat)
    ensures Counted(Start(n))
  {
  }

  /** In every run the ids drawn are all different iff no two draws overlapped, and then they are
      1, 2, 3, ... */
  lemma IdsDifferIff(n: nat, steps: seq<Step>, m: Loop)
    requires Reaches(Start(n), steps, m)
    ensures NoRepeats(m.drawn) <==> Serial(Start(n), steps)
    ensures Serial(Start(n), steps) ==> forall i :: 0 <= i < |m.drawn| ==> m.drawn[i] == i + 1
  {
    hide Enabled, Next, NoRepeats, Serial, Reaches;
    StartIsCounted(n);
    DrawsFrom(Start(n), steps, m);
  }

  /* ---- what every step keeps while draws do not overlap ---- */

  function HandOf(t: Thread): multiset<Item> {
    match t
    case Idle => multiset{}
    case Loaded(req, _) => if req.Renewal? then multiset{req.fired} else multiset{}
    case Stored(x) => multiset{x}
  }

  /** The timers that threads have in their hands. */
  function Held(ts: seq<Thread>): multiset<Item> {
    if ts == [] then multiset{} else HandOf(ts[0]) + Held(ts[1..])
  }

  lemma RegroupItems(a: multiset<Item>, b: multiset<Item>, c: multiset<Item>, d: multiset<Item>, e: multiset<Item>)
    requires b + c == d + e
    ensures (a + b) + c == (a + d) + e
  {
    assert (a + b) + c == a + (b + c);
  }

  lemma {:induction false} HeldUpdate(ts: seq<Thread>, i: nat, t: Thread)
    requires i < |ts|
    ensures Held(ts[i := t]) + HandOf(ts[i]) == Held(ts) + HandOf(t)
    decreases |ts|
  {
    hide HandOf;
    var us := ts[i := t];
    if i > 0 {
      HeldUpdate(ts[1..], i - 1, t);
      assert us[1..] == ts[1..][i - 1 := t];
      assert Held(us) == HandOf(ts[0]) + Held(us[1..]);
      assert Held(ts) == HandOf(ts[0]) + Held(ts[1..]);
      RegroupItems(HandOf(ts[0]), Held(us[1..]), HandOf(ts[i]), Held(ts[1..]), HandOf(t));
    } else {
      assert us[1..] == ts[1..];
    }
  }

  lemma {:induction false} HeldIdle(ts: seq<Thread>)
    requires forall t :: 0 <= t < |ts| ==> ts[t].Idle?
    ensures Held(ts) == multiset{}
    decreases |ts|
  {
    if ts != [] { HeldIdle(ts[1..]); }
  }

  /** The timers outside the heap: in flight, or in a thread's hands. */
  function Flying(l: Loop): multiset<Item> {
    multiset(l.inFlight) + Held(l.threads)
  }

  function Total(l: Loop): multiset<Item> {
    multiset(l.timers.items) + Flying(l)
  }

  /** What a step does to the timers outside the heap. */
  ghost predicate FlyingStep(l: Loop, s: Step, m: Loop)
    requires Enabled(l, s)
  {
    match s
    case Load(_, _, _) => Flying(m) == Flying(l)
    case LoadRenewal => Flying(m) == Flying(l)
    case Skip => Flying(l) == Flying(m) + multiset{l.inFlight[0]}
    case Store(t) =>
      var th := l.threads[t];
      Flying(m) + HandOf(th) == Flying(l) + multiset{Made(th.req, th.value + 1, l.now)}
    case Put(t) => Flying(l) == Flying(m) + multiset{l.threads[t].item}
    case Cancel(_) => Flying(m) == Flying(l)
    case Clear => Flying(m) == Flying(l)
    case Collect(_) => Flying(m) == Flying(l) + multiset(m.inFlight)
  }

  lemma AddNone(m: multiset<Item>)
    ensures m + multiset{} == m
  {
  }

  lemma MoveHeld(f: multiset<Item>, h: multiset<Item>, g: multiset<Item>, k: multiset<Item>, x: multiset<Item>)
    requires (f == x + g && k == h + x) || (f == g && h == k + x)
    ensures (f == x + g && k == h + x) ==> g + k == f + h
    ensures (f == g && h == k + x) ==> f + h == (g + k) + x
  {
  }

  lemma StoreFlies(l: Loop, t: nat)
    requires Enabled(l, Store(t))
    ensures FlyingStep(l, Store(t), Next(l, Store(t)))
  {
    hide Held;
    var m := Next(l, Store(t));
    HeldUpdate(l.threads, t, m.threads[t]);
    RegroupItems(multiset(l.inFlight), Held(m.threads), HandOf(l.threads[t]), Held(l.threads), HandOf(m.threads[t]));
  }

  lemma PutFlies(l: Loop, t: nat)
    requires Enabled(l, Put(t))
    ensures FlyingStep(l, Put(t), Next(l, Put(t)))
  {
    hide Held, Push;
    var f, ts, us := multiset(l.inFlight), l.threads, l.threads[t := Idle];
    HeldUpdate(ts, t, Idle);
    AddNone(Held(ts));
    MoveHeld(f, Held(ts), f, Held(us), multiset{ts[t].item});
  }

  lemma LoadFlies(l: Loop, t: nat, e: int, d: int)
    requires Enabled(l, Load(t, e, d))
    ensures FlyingStep(l, Load(t, e, d), Next(l, Load(t, e, d)))
  {
    hide Held;
    var m := Next(l, Load(t, e, d));
    HeldUpdate(l.threads, t, m.threads[t]);
    AddNone(Held(l.threads));
    AddNone(Held(m.threads));
  }

  lemma LoadRenewalFlies(l: Loop)
    requires Enabled(l, LoadRenewal)
    ensures FlyingStep(l, LoadRenewal, Next(l, LoadRenewal))
  {
    hide Held;
    var m := Next(l, LoadRenewal);
    HeldUpdate(l.threads, 0, m.threads[0]);
    AddNone(Held(m.threads));
    HeadOf(l.inFlight);
    MoveHeld(multiset(l.inFlight), Held(l.threads), multiset(m.inFlight), Held(m.threads), multiset{l.inFlight[0]});
  }

  lemma SkipFlies(l: Loop)
    requires Enabled(l, Skip)
    ensures FlyingStep(l, Skip, Next(l, Skip))
  {
    hide Held;
    HeadOf(l.inFlight);
  }

  lemma StepFlies(l: Loop, s: Step)
    requires Enabled(l, s)
    ensures FlyingStep(l, s, Next(l, s))
  {
    match s
    case Load(t, e, d) => LoadFlies(l, t, e, d);
    case LoadRenewal => LoadRenewalFlies(l);
    case Skip => SkipFlies(l);
    case Store(t) => StoreFlies(l, t);
    case Put(t) => PutFlies(l, t);
    case Cancel(_) =>
    case Clear =>
    case Collect(_) =>
  }

  /** Renewals are made by the loop's own thread only, and nothing outside the heap is cancelled. */
  ghost predicate Orderly(l: Loop) {
    && (forall t :: 0 < t < |l.threads| && l.threads[t].Loaded? ==> l.threads[t].req.Fresh?)
    && (forall x :: x in Flying(l) ==> !x.cancelled)
  }

  lemma OrderlyStays(l: Loop, s: Step)
    requires Orderly(l) && HeapOrdered(l.timers.items) && Enabled(l, s)
    ensures Orderly(Next(l, s))
  {
    hide Flying, HeapOrdered, Push, Drain;
    var m := Next(l, s);
    StepFlies(l, s);
    forall x | x in Flying(m)
      ensures !x.cancelled
    {
      if s.Store? {
        assert x in Flying(l) + multiset{m.threads[s.t].item};
      } else if s.Collect? {
        DrainMembers(l.timers, s.now, x);
      } else if s.Skip? {
        assert x in Flying(m) + multiset{l.inFlight[0]};
      } else if s.Put? {
        assert x in Flying(m) + multiset{l.threads[s.t].item};
      }
    }
  }

  /** Heap order does not depend on the ids: every step keeps it, also when draws overlap. */
  lemma HeapStays(l: Loop, s: Step)
    requires HeapOrdered(l.timers.items) && Enabled(l, s)
    ensures HeapOrdered(Next(l, s).timers.items)
  {
    hide HeapOrdered, Push, Drain, IndexOf;
    match s
    case Put(t) => PushKeeps(l.timers.items, l.threads[t].item);
    case Cancel(id) =>
      var i := IndexOf(l.timers.items, id);
      if i < |l.timers.items| { FlagKeepsHeap(l.timers.items, i); }
    case Clear => assert HeapOrdered([]) by { NothingIsHeap(); }
    case Collect(now) => DrainSplits(l.timers.items, now);
    case _ =>
  }

  lemma NothingIsHeap()
    ensures HeapOrdered([])
  {
  }

  /** A heap; ids and lineages are unique over all timers, in the heap or outside. */
  ghost predicate Sound(l: Loop) {
    && HeapOrdered(l.timers.items) && Orderly(l) && OneDraws(l)
    && l.timers.nextId >= 0 && Distinct(Total(l), l.timers.nextId)
  }

  /** Parts of the total change places, one of them by `x` becoming `y`. */
  lemma Swapped(items: multiset<Item>, f: multiset<Item>, g: multiset<Item>, x: Item, y: Item)
    returns (m: multiset<Item>)
    requires g + multiset{x} == f + multiset{y} && x in f
    ensures items + f == m + multiset{x} && items + g == m + multiset{y}
  {
    var h := f - multiset{x};
    assert f == h + multiset{x};
    forall z: Item ensures g[z] == (h + multiset{y})[z] { assert (g + multiset{x})[z] == (f + multiset{y})[z]; }
    assert g == h + multiset{y};
    m := items + h;
  }

  lemma Shifted(items: multiset<Item>, f: multiset<Item>, g: multiset<Item>, x: multiset<Item>)
    requires f == g + x
    ensures (items + x) + g == items + f && items + g <= items + f
  {
  }

  lemma StoreDistinct(l: Loop, t: nat)
    requires Sound(l) && Enabled(l, Store(t))
    ensures Distinct(Total(Next(l, Store(t))), l.timers.nextId + 1)
  {
    hide Distinct, HeapOrdered, Flying, Orderly;
    var m, th := Next(l, Store(t)), l.threads[t];
    var items, y := multiset(l.timers.items), m.threads[t].item;
    StoreFlies(l, t);
    if th.req.Fresh? {
      AddNone(Flying(m));
      DistinctInsert(Total(l), l.timers.nextId, y);
      assert Total(m) == Total(l) + multiset{y};
    } else {
      var x := th.req.fired;
      assert x in Flying(l) by { HandIsFlying(l, t); }
      var rest := Swapped(items, Flying(l), Flying(m), x, y);
      IdBelow(Total(l), l.timers.nextId, x);
      DistinctReplace(rest, l.timers.nextId, x, y);
    }
  }

  lemma {:induction false} HandIsHeld(ts: seq<Thread>, t: nat)
    requires t < |ts|
    ensures HandOf(ts[t]) <= Held(ts)
    decreases |ts|
  {
    hide HandOf;
    if t > 0 { HandIsHeld(ts[1..], t - 1); }
  }

  lemma HandIsFlying(l: Loop, t: nat)
    requires t < |l.threads|
    ensures HandOf(l.threads[t]) <= Flying(l)
  {
    hide HandOf, Held;
    HandIsHeld(l.threads, t);
  }

  lemma CancelDistinct(l: Loop, id: int)
    requires Sound(l)
    ensures Distinct(Total(Next(l, Step.Cancel(id))), l.timers.nextId)
  {
    hide Distinct, HeapOrdered, Flying, Orderly, IndexOf;
    var items, i := l.timers.items, IndexOf(l.timers.items, id);
    StepFlies(l, Step.Cancel(id));
    if i < |items| {
      var x, y := items[i], items[i].(cancelled := true);
      var m := ReplaceAt(items, i, y);
      MoveOne(m, Flying(l), x);
      DistinctReplace(m + Flying(l), l.timers.nextId, x, y);
      MoveOne(m, Flying(l), y);
    }
  }

  lemma CollectDistinct(l: Loop, now: int)
    requires Sound(l) && Enabled(l, Collect(now))
    ensures Distinct(Total(Next(l, Collect(now))), l.timers.nextId)
  {
    hide Distinct, HeapOrdered, Orderly, Drain, Splits, Sorted, Held;
    var d, m := Drain(l.timers.items, now), Next(l, Collect(now));
    DrainSplits(l.timers.items, now);
    PartsOfHeap(l.timers.items, now, d);
    assert Total(m) == (multiset(d.rest) + multiset(d.fired)) + Held(l.threads);
    assert Total(l) == multiset(l.timers.items) + Held(l.threads);
    DistinctPart(Total(l), Total(m), l.timers.nextId);
  }

  lemma PutDistinct(l: Loop, t: nat)
    requires Sound(l) && Enabled(l, Put(t))
    ensures Distinct(Total(Next(l, Put(t))), l.timers.nextId)
  {
    hide Distinct, HeapOrdered, Orderly, Flying, Push;
    var m, x := Next(l, Put(t)), l.threads[t].item;
    PutFlies(l, t);
    PushKeeps(l.timers.items, x);
    Shifted(multiset(l.timers.items), Flying(l), Flying(m), multiset{x});
  }

  lemma TotalDistinct(l: Loop, s: Step)
    requires Sound(l) && Enabled(l, s)
    ensures Distinct(Total(Next(l, s)), if s.Store? then l.timers.nextId + 1 else l.timers.nextId)
  {
    hide Distinct, HeapOrdered, Orderly, Flying, OneDraws, Push, Drain, CancelItem;
    match s
    case Load(t, e, d) => LoadFlies(l, t, e, d);
    case LoadRenewal => LoadRenewalFlies(l);
    case Skip =>
      var m := Next(l, Skip);
      SkipFlies(l);
      Shifted(multiset(l.timers.items), Flying(l), Flying(m), multiset{l.inFlight[0]});
      DistinctPart(Total(l), Total(m), l.timers.nextId);
    case Store(t) => StoreDistinct(l, t);
    case Put(t) => PutDistinct(l, t);
    case Cancel(id) => CancelDistinct(l, id);
    case Clear =>
      StepFlies(l, Step.Clear);
      DistinctPart(Total(l), multiset([]) + Flying(l), l.timers.nextId);
    case Collect(now) => CollectDistinct(l, now);
  }

  lemma StepKeeps(l: Loop, s: Step)
    requires Sound(l) && Enabled(l, s) && !Overlaps(l, s)
    ensures Sound(Next(l, s)) && l.timers.nextId <= Next(l, s).timers.nextId
  {
    hide Distinct, HeapOrdered, Orderly, OneDraws, Total, Next, Enabled;
    HeapStays(l, s);
    OrderlyStays(l, s);
    OneDrawsStays(l, s);
    TotalDistinct(l, s);
    if s.Store? { StoreEndsDraw(l, s.t); }
  }

  lemma {:induction false} RunKeepsAll(l: Loop, steps: seq<Step>, m: Loop)
    requires Sound(l) && Reaches(l, steps, m) && Serial(l, steps)
    ensures Sound(m) && l.timers.nextId <= m.timers.nextId
    decreases |steps|
  {
    hide Sound, Next, Enabled, Overlaps;
    if steps != [] {
      StepKeeps(l, steps[0]);
      RunKeepsAll(Next(l, steps[0]), steps[1..], m);
    }
  }

  lemma StartHolds(n: nat)
    ensures Sound(Start(n))
  {
    HeldIdle(Start(n).threads);
  }

  /* ---- duplicate ids ---- */

  /** Two timers in the heap have the same id. */
  ghost predicate Duplicate(items: seq<Item>) {
    exists i, j :: 0 <= i < j < |items| && items[i].id == items[j].id
  }

  lemma OnceInMultiset(items: seq<Item>, i: nat, j: nat)
    requires i < j < |items| && multiset(items)[items[i]] <= 1
    ensures items[i] != items[j]
  {
    assert items == items[..i] + [items[i]] + items[i + 1..j] + [items[j]] + items[j + 1..];
  }

  lemma SoundHasNoDuplicate(l: Loop)
    requires Sound(l)
    ensures !Duplicate(l.timers.items)
  {
    hide HeapOrdered, Orderly, OneDraws, Flying;
    var items := l.timers.items;
    forall i, j | 0 <= i < j < |items|
      ensures items[i].id != items[j].id
    {
      assert items[i] in Total(l) && items[j] in Total(l);
      OnceInMultiset(items, i, j);
    }
  }

  lemma {:induction false} AloneIsSerial(l: Loop, steps: seq<Step>)
    requires |l.threads| <= 1
    ensures Serial(l, steps)
    decreases |steps|
  {
    hide Push, Drain, CancelItem;
    if steps != [] && Enabled(l, steps[0]) {
      assert !Overlaps(l, steps[0]);
      AloneIsSerial(Next(l, steps[0]), steps[1..]);
    }
  }

  lemma PushTwo(x: Item, y: Item)
    requires x.expireAt <= y.expireAt
    ensures Push([], x) == [x] && Push([x], y) == [x, y]
  {
    assert [] + [x] == [x] && [x] + [y] == [x, y];
    assert Fits([x, y], 1);
  }

  /** Two threads read the counter before either writes it: both timers get id 1, and a cancellation
      of that id flags only the first of them. */
  lemma TwoThreadsCollide(n: nat) returns (steps: seq<Step>, m: Loop)
    requires n >= 2
    ensures Reaches(Start(n), steps, m) && Duplicate(m.timers.items)
    ensures m.timers.items == [Item(1, 5, 5, false, 1), Item(1, 7, 7, false, 1)]
    ensures CancelItem(m.timers, 1).items == [Item(1, 5, 5, true, 1), Item(1, 7, 7, false, 1)]
  {
    hide Push, Reaches;
    var x, y := Item(1, 5, 5, false, 1), Item(1, 7, 7, false, 1);
    PushTwo(x, y);
    var a := Next(Start(n), Load(0, 5, 5));
    var b := Next(a, Load(1, 7, 7));
    var c := Next(b, Store(0));
    var d := Next(c, Store(1));
    var e := Next(d, Put(0));
    m := Next(e, Put(1));
    var s1 := [Put(1)] + [];
    var s2 := [Put(0)] + s1;
    var s3 := [Store(1)] + s2;
    var s4 := [Store(0)] + s3;
    var s5 := [Load(1, 7, 7)] + s4;
    steps := [Load(0, 5, 5)] + s5;
    Stays(m);
    StepThen(e, Put(1), [], m);
    StepThen(d, Put(0), s1, m);
    StepThen(c, Store(1), s2, m);
    StepThen(b, Store(0), s3, m);
    StepThen(a, Load(1, 7, 7), s4, m);
    StepThen(Start(n), Load(0, 5, 5), s5, m);
    assert m.timers.items[0].id == m.timers.items[1].id;
  }

  /** Two timers with the same id can be in the heap iff at least two threads draw ids; the thread of
      the loop, which renews, counts as one. */
  lemma DuplicatePossibleIff(n: nat)
    ensures (exists steps, m :: Reaches(Start(n), steps, m) && Duplicate(m.timers.items)) <==> n >= 2
  {
    hide Reaches, Duplicate, Sound;
    if n >= 2 {
      var steps, m := TwoThreadsCollide(n);
    } else {
      forall steps, m | Reaches(Start(n), steps, m)
        ensures !Duplicate(m.timers.items)
      {
        AloneIsSerial(Start(n), steps);
        StartHolds(n);
        RunKeepsAll(Start(n), steps, m);
        SoundHasNoDuplicate(m);
      }
    }
  }

  /** The loop renewing a timer and one other thread adding one are enough: both get id 2. */
  lemma RenewalCollides(start: Loop) returns (steps: seq<Step>, m: Loop)
    requires start == Loop(TimerState([Item(1, 1, 1, false, 1)], 1), [], 0, [Idle, Idle], [1])
    ensures Reaches(start, steps, m)
    ensures m.timers.items == [Item(2, 2, 1, false, 1), Item(2, 9, 9, false, 2)]
  {
    hide Push, Reaches;
    var x, y, z := Item(1, 1, 1, false, 1), Item(2, 2, 1, false, 1), Item(2, 9, 9, false, 2);
    PushTwo(y, z);
    assert Drain([x], 1) == Drained([x], []) by { assert PopRest([x]) == [] && Drain([], 1) == Drained([], []); }
    var a := Next(start, Collect(1));
    var b := Next(a, LoadRenewal);
    var c := Next(b, Load(1, 9, 9));
    var d := Next(c, Store(0));
    var e := Next(d, Store(1));
    var f := Next(e, Put(0));
    m := Next(f, Put(1));
    var s1 := [Put(1)] + [];
    var s2 := [Put(0)] + s1;
    var s3 := [Store(1)] + s2;
    var s4 := [Store(0)] + s3;
    var s5 := [Load(1, 9, 9)] + s4;
    var s6 := [LoadRenewal] + s5;
    steps := [Collect(1)] + s6;
    Stays(m);
    StepThen(f, Put(1), [], m);
    StepThen(e, Put(0), s1, m);
    StepThen(d, Store(1), s2, m);
    StepThen(c, Store(0), s3, m);
    StepThen(b, Load(1, 9, 9), s4, m);
    StepThen(a, LoadRenewal, s5, m);
    StepThen(start, Collect(1), s6, m);
  }

  lemma OneAdded() returns (steps: seq<Step>)
    ensures Reaches(Start(2), steps, Loop(TimerState([Item(1, 1, 1, false, 1)], 1), [], 0, [Idle, Idle], [1]))
  {
    hide Push, Reaches;
    var x := Item(1, 1, 1, false, 1);
    PushTwo(x, x);
    var m := Loop(TimerState([x], 1), [], 0, [Idle, Idle], [1]);
    assert Start(2).threads == [Idle, Idle];
    var a := Next(Start(2), Load(0, 1, 1));
    var b := Next(a, Store(0));
    assert Next(b, Put(0)) == m;
    Stays(m);
    StepThen(b, Put(0), [], m);
    StepThen(a, Store(0), [Put(0)] + [], m);
    StepThen(Start(2), Load(0, 1, 1), [Store(0)] + ([Put(0)] + []), m);
    steps := [Load(0, 1, 1)] + ([Store(0)] + ([Put(0)] + []));
  }

  /** So a single adding thread beside the loop can get the id of a timer being renewed. */
  lemma AdderMeetsRenewal() returns (steps: seq<Step>, m: Loop)
    ensures Reaches(Start(2), steps, m)
    ensures m.timers.items == [Item(2, 2, 1, false, 1), Item(2, 9, 9, false, 2)]
  {
    hide Reaches;
    var before := OneAdded();
    var start := Loop(TimerState([Item(1, 1, 1, false, 1)], 1), [], 0, [Idle, Idle], [1]);
    var after;
    after, m := RenewalCollides(start);
    ReachesJoin(Start(2), before, start, after, m);
    steps := before + after;
  }
}
