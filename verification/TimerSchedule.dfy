/**
 The exact firing times of a repeating timer that nobody cancels: it fires at the first poll that
 finds it due, is due again one interval after that poll, and is never lost.
 */
module TimerSchedule {
  import opened TimerHeap
  import opened Timers
  import opened TimerRuns

  /** Reference: the firing times, from the operations alone, of a timer due at `due`. */
  function Schedule(ops: seq<Op>, due: int, d: int): seq<int>
    decreases |ops|
  {
    if ops == [] then []
    else if ops[0].PollAt? && due <= ops[0].now then [ops[0].now] + Schedule(ops[1..], ops[0].now + d, d)
    else Schedule(ops[1..], due, d)
  }

  /** The lineage `o` is in the heap, not cancelled, repeats every `d` and is due at `due`. */
  ghost predicate LiveAt(s: TimerState, o: int, d: int, due: int) {
    Inv(s) && o <= s.nextId && exists x :: x in s.items && Waits(x, o, d, due)
  }

  predicate Waits(x: Item, o: int, d: int, due: int) {
    !x.cancelled && x.origin == o && x.interval == d && x.expireAt == due
  }

  /** The operation is not a cancellation of lineage `o`. */
  ghost predicate Spares(s: TimerState, op: Op, o: int) {
    && !op.Clear?
    && (op.Cancel? ==> var i := IndexOf(s.items, op.id); i < |s.items| ==> s.items[i].origin != o)
  }

  ghost predicate SparedBy(s: TimerState, ops: seq<Op>, o: int)
    decreases |ops|
  {
    ops == [] || (Spares(s, ops[0], o) && SparedBy(Apply(s, ops[0]), ops[1..], o))
  }

  /** Every repeating timer that fires has a successor. */
  lemma {:induction false} RenewalExists(fired: seq<Item>, nextId: int, now: int, x: Item) returns (y: Item)
    requires x in fired && x.interval > 0
    ensures y in Renewals(fired, nextId, now) && y == Renewed(x, y.id, now)
    decreases |fired|
  {
    var r := Renewals(fired, nextId, now);
    if fired[0].interval > 0 {
      assert r[0] == Renewed(fired[0], nextId + 1, now);
      if x == fired[0] {
        y := r[0];
      } else {
        y := RenewalExists(fired[1..], nextId + 1, now, x);
        assert r == [r[0]] + Renewals(fired[1..], nextId + 1, now);
      }
    } else {
      y := RenewalExists(fired[1..], nextId, now, x);
    }
  }

  lemma PollContents(s: TimerState, now: int, x: Item)
    requires HeapOrdered(s.items)
    ensures var d := Drain(s.items, now);
            x in Poll(s, now).state.items <==> x in d.rest || x in Renewals(d.fired, s.nextId, now)
    ensures x in s.items && !x.cancelled && x.expireAt > now ==> x in Drain(s.items, now).rest
    ensures x in s.items && Due(x, now) ==> x in Drain(s.items, now).fired
  {
    hide HeapOrdered, Sorted, Drain, Renewals, DelayIsExact;
    PollCorrect(s, now);
    var d := Drain(s.items, now);
    var r := Renewals(d.fired, s.nextId, now);
    assert x in Poll(s, now).state.items <==> x in multiset(Poll(s, now).state.items);
    assert x in multiset(d.rest) + multiset(r) <==> x in d.rest || x in r;
    assert x in s.items <==> multiset(s.items)[x] > 0;
    assert x in d.rest <==> multiset(d.rest)[x] > 0;
    assert x in d.fired <==> multiset(d.fired)[x] > 0;
  }

  lemma PollSchedule(s: TimerState, now: int, x: Item) returns (y: Item)
    requires HeapOrdered(s.items) && x in s.items && !x.cancelled && x.interval > 0
    ensures y in Poll(s, now).state.items
    ensures y == if x.expireAt <= now then Renewed(x, y.id, now) else x
  {
    hide HeapOrdered, Drain, Renewals, Poll;
    PollContents(s, now, x);
    if x.expireAt <= now {
      y := RenewalExists(Drain(s.items, now).fired, s.nextId, now, x);
      PollContents(s, now, y);
    } else {
      y := x;
    }
  }

  lemma InsertSchedule(s: TimerState, expireAt: int, interval: int, x: Item)
    requires Inv(s) && x in s.items
    ensures x in Insert(s, expireAt, interval).items
  {
    hide HeapOrdered, Distinct;
    InsertKeeps(s, expireAt, interval);
    assert x in multiset(s.items);
    assert x in multiset(Insert(s, expireAt, interval).items);
  }

  lemma CancelSchedule(s: TimerState, id: int, x: Item)
    requires x in s.items && Spares(s, Cancel(id), x.origin)
    ensures x in CancelItem(s, id).items
  {
    var t, i := CancelItem(s, id), IndexOf(s.items, id);
    var k :| 0 <= k < |s.items| && s.items[k] == x;
    assert t.items[k] == x;
  }

  /** One operation on a live lineage: due again an interval after a poll that finds it due. */
  lemma KeepsWaiting(s: TimerState, op: Op, x: Item) returns (y: Item)
    requires Inv(s) && x in s.items && !x.cancelled && x.interval > 0 && Spares(s, op, x.origin)
    ensures y in Apply(s, op).items
    ensures y == if op.PollAt? && x.expireAt <= op.now then Renewed(x, y.id, op.now) else x
  {
    hide HeapOrdered, Distinct, Insert, CancelItem, Poll, Spares;
    y := x;
    match op
    case Add(now, after, callable) => InsertSchedule(s, now + after, 0, x);
    case AddRepeating(now, d, callable) => InsertSchedule(s, now + d, d, x);
    case Cancel(id) => CancelSchedule(s, id, x);
    case Clear => assert false by { ClearSparesNothing(s, x.origin); }
    case PollAt(now) => y := PollSchedule(s, now, x);
  }

  lemma ClearSparesNothing(s: TimerState, o: int)
    ensures !Spares(s, Clear, o)
  {
  }

  lemma FiresWhenDue(s: TimerState, now: int, x: Item)
    requires Inv(s) && x in s.items && !x.cancelled
    ensures FiresAt(s, x.origin, now) <==> x.expireAt <= now
  {
    hide HeapOrdered, Distinct;
    assert x in multiset(s.items);
    forall z | z in s.items && z.origin == x.origin
      ensures z == x
    {
      assert z in multiset(s.items);
      SameLineage(multiset(s.items), s.nextId, z, x);
    }
    if x.expireAt <= now { assert Due(x, now); }
  }

  lemma ScheduleStep(s: TimerState, op: Op, o: int, d: int, due: int)
    requires LiveAt(s, o, d, due) && d > 0 && Spares(s, op, o)
    ensures var times := TimesOf(Fires(s, op), o);
            if op.PollAt? && due <= op.now
            then times == [op.now] && LiveAt(Apply(s, op), o, d, op.now + d)
            else times == [] && LiveAt(Apply(s, op), o, d, due)
  {
    hide Inv, Apply, Fires, TimesOf, Spares;
    var x :| x in s.items && Waits(x, o, d, due);
    var y := KeepsWaiting(s, op, x);
    ApplyKeeps(s, op);
    StepFollows(s, op, o);
    if op.PollAt? {
      FiresWhenDue(s, op.now, x);
      if due <= op.now { assert Waits(y, o, d, op.now + d); }
    }
    assert !(op.PollAt? && due <= op.now) ==> Waits(y, o, d, due);
  }

  lemma {:induction false} RunSchedule(s: TimerState, ops: seq<Op>, o: int, d: int, due: int)
    requires LiveAt(s, o, d, due) && d > 0 && SparedBy(s, ops, o)
    ensures TimesOf(Trace(s, ops), o) == Schedule(ops, due, d)
    decreases |ops|
  {
    hide LiveAt, Apply, Fires, Spares;
    if ops != [] {
      var now, later := Fires(s, ops[0]), Trace(Apply(s, ops[0]), ops[1..]);
      TimesConcat(now, later, o);
      ScheduleStep(s, ops[0], o, d, due);
      var again := if ops[0].PollAt? && due <= ops[0].now then ops[0].now + d else due;
      RunSchedule(Apply(s, ops[0]), ops[1..], o, d, again);
    }
  }

  lemma NewIsLive(s: TimerState, t0: int, d: int)
    requires Inv(s) && d > 0
    ensures LiveAt(Apply(s, AddRepeating(t0, d, true)), s.nextId + 1, d, t0 + d)
  {
    hide HeapOrdered, Distinct, Insert;
    ApplyKeeps(s, AddRepeating(t0, d, true));
    InsertKeeps(s, t0 + d, d);
    InsertsOne(s, t0 + d, d);
    var x := Item(s.nextId + 1, t0 + d, d, false, s.nextId + 1);
    assert x in multiset(Insert(s, t0 + d, d).items);
    assert Waits(x, s.nextId + 1, d, t0 + d);
  }

  /** In every run that does not cancel it, a repeating timer added at `t0` with interval `d` fires
      at exactly the scheduled polls: no firing is early, missed, doubled or lost. */
  lemma ExactSchedule(before: seq<Op>, t0: int, d: int, after: seq<Op>)
    requires d > 0
    requires var s := After(Initial(), before);
             SparedBy(Apply(s, AddRepeating(t0, d, true)), after, s.nextId + 1)
    ensures var s := After(Initial(), before);
            TimesOf(Trace(Apply(s, AddRepeating(t0, d, true)), after), s.nextId + 1) == Schedule(after, t0 + d, d)
  {
    hide Inv, LiveAt, Apply, Trace, TimesOf, SparedBy, Schedule;
    InitialHolds();
    RunKeeps(Initial(), before);
    var s := After(Initial(), before);
    NewIsLive(s, t0, d);
    RunSchedule(Apply(s, AddRepeating(t0, d, true)), after, s.nextId + 1, d, t0 + d);
  }

  /* ---- one-shot timers ---- */

  /** Reference: the first poll at or past `due`, if there is one. */
  function FirstPoll(ops: seq<Op>, due: int): seq<int>
    decreases |ops|
  {
    if ops == [] then []
    else if ops[0].PollAt? && due <= ops[0].now then [ops[0].now]
    else FirstPoll(ops[1..], due)
  }

  /** One operation on a live lineage that does not repeat: it stays, or fires and is gone. */
  lemma OneShotStep(s: TimerState, op: Op, o: int, due: int)
    requires LiveAt(s, o, 0, due) && Spares(s, op, o)
    ensures var times := TimesOf(Fires(s, op), o);
            if op.PollAt? && due <= op.now
            then times == [op.now] && Dead(Apply(s, op), o)
            else times == [] && LiveAt(Apply(s, op), o, 0, due)
  {
    hide Inv, Apply, Fires, TimesOf, Spares;
    var x :| x in s.items && Waits(x, o, 0, due);
    ApplyKeeps(s, op);
    StepFollows(s, op, o);
    if op.PollAt? { FiresWhenDue(s, op.now, x); }
    if op.PollAt? && due <= op.now {
      NoSuccessor(s, x, op.now);
    } else {
      StaysWaiting(s, op, x);
    }
  }

  lemma NoSuccessor(s: TimerState, x: Item, now: int)
    requires Inv(s) && x in s.items && x.interval <= 0
    ensures forall y :: Successor(s, y, now) ==> y.origin != x.origin
  {
    hide Inv;
    forall y | Successor(s, y, now)
      ensures y.origin != x.origin
    {
      var z :| z in s.items && Due(z, now) && z.interval > 0 && y == Renewed(z, y.id, now);
      if z.origin == x.origin { OneOfLineage(s, x, z); }
    }
  }

  lemma OneOfLineage(s: TimerState, x: Item, z: Item)
    requires Inv(s) && x in s.items && z in s.items && x.origin == z.origin
    ensures x == z
  {
    hide HeapOrdered, Distinct;
    assert x in multiset(s.items) && z in multiset(s.items);
    SameLineage(multiset(s.items), s.nextId, x, z);
  }

  lemma StaysWaiting(s: TimerState, op: Op, x: Item)
    requires Inv(s) && x in s.items && !x.cancelled && Spares(s, op, x.origin)
    requires op.PollAt? ==> x.expireAt > op.now
    ensures x in Apply(s, op).items
  {
    hide HeapOrdered, Distinct, Insert, CancelItem, Poll, Spares;
    match op
    case Add(now, after, callable) => InsertSchedule(s, now + after, 0, x);
    case AddRepeating(now, d, callable) => InsertSchedule(s, now + d, d, x);
    case Cancel(id) => CancelSchedule(s, id, x);
    case Clear => assert false by { ClearSparesNothing(s, x.origin); }
    case PollAt(now) => PollContents(s, now, x);
  }

  lemma {:induction false} RunOneShot(s: TimerState, ops: seq<Op>, o: int, due: int)
    requires LiveAt(s, o, 0, due) && SparedBy(s, ops, o)
    ensures TimesOf(Trace(s, ops), o) == FirstPoll(ops, due)
    decreases |ops|
  {
    hide LiveAt, Dead, Apply, Fires, Spares;
    if ops != [] {
      var now, later := Fires(s, ops[0]), Trace(Apply(s, ops[0]), ops[1..]);
      TimesConcat(now, later, o);
      OneShotStep(s, ops[0], o, due);
      if ops[0].PollAt? && due <= ops[0].now {
        DeadForever(Apply(s, ops[0]), ops[1..], o);
      } else {
        RunOneShot(Apply(s, ops[0]), ops[1..], o, due);
      }
    }
  }

  lemma NewIsWaiting(s: TimerState, t0: int, after: int)
    requires Inv(s) && after > 0
    ensures LiveAt(Apply(s, Add(t0, after, true)), s.nextId + 1, 0, t0 + after)
  {
    hide HeapOrdered, Distinct, Insert;
    ApplyKeeps(s, Add(t0, after, true));
    InsertKeeps(s, t0 + after, 0);
    InsertsOne(s, t0 + after, 0);
    var x := Item(s.nextId + 1, t0 + after, 0, false, s.nextId + 1);
    assert x in multiset(Insert(s, t0 + after, 0).items);
    assert Waits(x, s.nextId + 1, 0, t0 + after);
  }

  /** In every run that does not cancel it, a one-shot timer fires exactly once, at the first poll at
      or past its expiry, or not at all if no poll comes that late. */
  lemma OneShotExact(before: seq<Op>, t0: int, delay: int, after: seq<Op>)
    requires delay > 0
    requires var s := After(Initial(), before);
             SparedBy(Apply(s, Add(t0, delay, true)), after, s.nextId + 1)
    ensures var s := After(Initial(), before);
            TimesOf(Trace(Apply(s, Add(t0, delay, true)), after), s.nextId + 1) == FirstPoll(after, t0 + delay)
  {
    hide Inv, LiveAt, Apply, Trace, TimesOf, SparedBy, FirstPoll;
    InitialHolds();
    RunKeeps(Initial(), before);
    var s := After(Initial(), before);
    NewIsWaiting(s, t0, delay);
    RunOneShot(Apply(s, Add(t0, delay, true)), after, s.nextId + 1, t0 + delay);
  }
}
