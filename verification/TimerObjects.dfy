/**
 The objects that own a timer heap: the stand-alone timer and the event loop.  Their loops are
 proved against the same functions, so both fire the same sequence and leave the same heap.
 */
module TimerObjects {
  import opened TimerHeap
  import opened Timers
  import opened TimerRuns
  import opened TimerNearest
  import opened Sequences

  /** Collects the due timers: the common first loop of `poll` and `process_timers`. */
  method CollectDue(v: seq<Item>, now: int) returns (items: seq<Item>, fired: seq<Item>)
    ensures Drained(fired, items) == Drain(v, now)
  {
    items, fired := v, [];
    while items != []
      invariant Drain(items, now).rest == Drain(v, now).rest
      invariant fired + Drain(items, now).fired == Drain(v, now).fired
      decreases |items|
    {
      if items[0].cancelled {
        var moved := PopHeap(items);
        items := moved[..|moved| - 1];
        continue;
      }
      if items[0].expireAt > now { break; }
      var moved := PopHeap(items);
      fired := fired + [moved[|moved| - 1]];
      items := moved[..|moved| - 1];
    }
  }

  lemma RenewFirst(items: seq<Item>, fired: seq<Item>, id: int, now: int)
    requires fired != []
    ensures var t, rest := fired[0], fired[1..];
            if t.interval > 0
            then PushAll(items, Renewals(fired, id, now)) ==
                 PushAll(Push(items, Renewed(t, id + 1, now)), Renewals(rest, id + 1, now))
                 && |Renewals(fired, id, now)| == 1 + |Renewals(rest, id + 1, now)|
            else Renewals(fired, id, now) == Renewals(rest, id, now)
  {
    hide Push;
    if fired[0].interval > 0 {
      var r := Renewals(fired[1..], id + 1, now);
      assert ([Renewed(fired[0], id + 1, now)] + r)[1..] == r;
    }
  }

  lemma NothingToRenew(items: seq<Item>, id: int, now: int)
    ensures Renewals([], id, now) == [] && PushAll(items, []) == items
  {
  }

  /** Re-inserts the repeating timers among `fired`, whose callbacks run here in order. */
  method RunFired(v: seq<Item>, nextId: int, fired: seq<Item>, now: int) returns (items: seq<Item>, id: int)
    requires forall x :: x in fired ==> !x.cancelled
    ensures items == PushAll(v, Renewals(fired, nextId, now)) && id == nextId + |Renewals(fired, nextId, now)|
  {
    hide Push, PushAll, Renewals;
    items, id := v, nextId;
    for i := 0 to |fired|
      invariant PushAll(items, Renewals(fired[i..], id, now)) == PushAll(v, Renewals(fired, nextId, now))
      invariant id + |Renewals(fired[i..], id, now)| == nextId + |Renewals(fired, nextId, now)|
    {
      var t := fired[i];
      RenewFirst(items, fired[i..], id, now);
      assert fired[i..][1..] == fired[i + 1..];
      if t.cancelled { continue; }
      if t.interval > 0 {
        id := id + 1;
        var nt := Item(id, now + t.interval, t.interval, false, t.origin);
        assert (items + [nt])[..|items|] == items;
        items := PushHeap(items + [nt]);
      }
    }
    NothingToRenew(items, id, now);
  }

  lemma {:induction false} FiredAreLive(items: seq<Item>, now: int)
    ensures forall x :: x in Drain(items, now).fired ==> !x.cancelled
    decreases |items|
  {
    if items != [] && (items[0].cancelled || items[0].expireAt <= now) { FiredAreLive(PopRest(items), now); }
  }

  /** The loop of `cancel` and `cancel_timer`. */
  method FlagFirst(v: seq<Item>, id: int) returns (items: seq<Item>, found: bool)
    ensures forall n :: TimerState(items, n) == CancelItem(TimerState(v, n), id)
    ensures found <==> exists x :: x in v && x.id == id
  {
    IndexOfFinds(v, id);
    for i := 0 to |v|
      invariant IndexOf(v, id) == i + IndexOf(v[i..], id)
    {
      assert v[i..][0] == v[i] && v[i..][1..] == v[i + 1..];
      if v[i].id == id {
        return v[i := v[i].(cancelled := true)], true;
      }
    }
    return v, false;
  }

  class Timer {
    var items: seq<Item>
    var nextId: int

    ghost function State(): TimerState
      reads this
    {
      TimerState(items, nextId)
    }

    /** A heap with unique ids. */
    ghost predicate Valid()
      reads this
    {
      Inv(State())
    }

    constructor ()
      ensures Valid() && State() == Initial()
    {
      items, nextId := [], 0;
      new;
      InitialHolds();
    }

    /** `now` is the clock at the call; an empty callback or a delay that is not positive is refused. */
    method Add(now: int, after: int, callable: bool) returns (id: int)
      requires Valid()
      modifies this
      ensures Valid() && State() == Apply(old(State()), Op.Add(now, after, callable))
      ensures if callable && after > 0
              then id == nextId == old(nextId) + 1
                   && multiset(items) == multiset(old(items)) + multiset{Item(id, now + after, 0, false, id)}
              else id == -1 && State() == old(State())
    {
      hide Inv, Push;
      InsertKeeps(State(), now + after, 0);
      ApplyKeeps(State(), Op.Add(now, after, callable));
      if !callable || after <= 0 { return -1; }
      nextId := nextId + 1;
      items := PushHeap(items + [Item(nextId, now + after, 0, false, nextId)]);
      id := nextId;
    }

    method AddRepeating(now: int, interval: int, callable: bool) returns (id: int)
      requires Valid()
      modifies this
      ensures Valid() && State() == Apply(old(State()), Op.AddRepeating(now, interval, callable))
      ensures if callable && interval > 0
              then id == nextId == old(nextId) + 1
                   && multiset(items) == multiset(old(items)) + multiset{Item(id, now + interval, interval, false, id)}
              else id == -1 && State() == old(State())
    {
      hide Inv, Push;
      InsertKeeps(State(), now + interval, interval);
      ApplyKeeps(State(), Op.AddRepeating(now, interval, callable));
      if !callable || interval <= 0 { return -1; }
      nextId := nextId + 1;
      items := PushHeap(items + [Item(nextId, now + interval, interval, false, nextId)]);
      id := nextId;
    }

    method Cancel(id: int) returns (found: bool)
      requires Valid()
      modifies this`items
      ensures Valid() && State() == Apply(old(State()), Op.Cancel(id))
      ensures found <==> exists x :: x in old(items) && x.id == id
    {
      hide Inv;
      ApplyKeeps(State(), Op.Cancel(id));
      items, found := FlagFirst(items, id);
    }

    method Clear()
      requires Valid()
      modifies this`items
      ensures Valid() && State() == Apply(old(State()), Op.Clear)
      ensures items == [] && nextId == old(nextId)
    {
      hide Inv;
      ApplyKeeps(State(), Op.Clear);
      items := [];
    }

    /** Fires exactly the due timers in order and returns the exact delay to the next one. */
    method Poll(now: int) returns (delay: int, fired: seq<Item>)
      requires Valid()
      modifies this
      ensures Valid() && Polled(State(), fired, delay) == Timers.Poll(old(State()), now)
      ensures Sorted(fired) && DelayIsExact(items, now, delay) && forall x :: x in items ==> x.expireAt > now
    {
      hide HeapOrdered, Distinct, Sorted, DelayIsExact, Splits, Drain, PushAll, Renewals;
      ApplyKeeps(State(), PollAt(now));
      PollCorrect(State(), now);
      FiredAreLive(items, now);
      items, fired := CollectDue(items, now);
      items, nextId := RunFired(items, nextId, fired, now);
      delay := if items == [] then -1 else items[0].expireAt - now;
    }

    /** The first live item in array order. */
    method NearestExpire() returns (at: int)
      ensures var i := FirstLive(items); at == if i < |items| then items[i].expireAt else -1
    {
      for i := 0 to |items|
        invariant forall k :: 0 <= k < i ==> items[k].cancelled
        invariant FirstLive(items) >= i
      {
        if !items[i].cancelled { return items[i].expireAt; }
      }
      return -1;
    }
  }

  /* ---- the event loop ---- */

  class EventLoop {
    var timers: seq<Item>
    var timerIdCounter: int
    var pendingTasks: seq<nat>

    ghost function State(): TimerState
      reads this
    {
      TimerState(timers, timerIdCounter)
    }

    ghost predicate Valid()
      reads this
    {
      Inv(State())
    }

    constructor ()
      ensures Valid() && State() == Initial() && pendingTasks == []
    {
      timers, timerIdCounter, pendingTasks := [], 0, [];
      new;
      InitialHolds();
    }

    /** Unlike `Timer.add`, any delay and any interval is accepted. */
    method AddTimer(now: int, after: int, callable: bool, interval: int) returns (id: int)
      requires Valid()
      modifies this`timers, this`timerIdCounter
      ensures Valid()
      ensures if callable
              then State() == Insert(old(State()), now + after, interval) && id == timerIdCounter
                   && multiset(timers) == multiset(old(timers)) + multiset{Item(id, now + after, interval, false, id)}
              else State() == old(State()) && id == -1
    {
      hide HeapOrdered, Distinct, Push;
      InsertKeeps(State(), now + after, interval);
      if !callable { return -1; }
      timerIdCounter := timerIdCounter + 1;
      id := timerIdCounter;
      timers := PushHeap(timers + [Item(id, now + after, interval, false, id)]);
    }

    method CancelTimer(id: int) returns (found: bool)
      requires Valid()
      modifies this`timers
      ensures Valid() && State() == CancelItem(old(State()), id)
      ensures found <==> exists x :: x in old(timers) && x.id == id
    {
      hide Inv;
      ApplyKeeps(State(), Op.Cancel(id));
      timers, found := FlagFirst(timers, id);
    }

    /** The same firings and the same heap as `Timer.poll` from the same state, when nothing else
        happens in between. */
    method ProcessTimers(now: int) returns (fired: seq<Item>)
      requires Valid()
      modifies this`timers, this`timerIdCounter
      ensures Valid()
      ensures State() == Timers.Poll(old(State()), now).state && fired == Timers.Poll(old(State()), now).fired
      ensures forall x :: x in timers ==> x.expireAt > now
    {
      hide HeapOrdered, Distinct, Sorted, DelayIsExact, Splits, Drain, PushAll, Renewals;
      ApplyKeeps(State(), PollAt(now));
      PollCorrect(State(), now);
      FiredAreLive(timers, now);
      timers, fired := CollectDue(timers, now);
      timers, timerIdCounter := RunFired(timers, timerIdCounter, fired, now);
    }

    method PushTask(task: nat)
      modifies this`pendingTasks
      ensures pendingTasks == old(pendingTasks) + [task]
    {
      pendingTasks := pendingTasks + [task];
    }

    /** Takes the whole batch; `pushes[i]` are the tasks the i-th task pushes while it runs. */
    method ProcessTasks(pushes: seq<seq<nat>>) returns (executed: seq<nat>)
      requires |pushes| == |pendingTasks|
      modifies this`pendingTasks
      ensures executed == old(pendingTasks)
      ensures pendingTasks == Flatten(pushes)
    {
      var tasks := pendingTasks;
      pendingTasks, executed := [], [];
      for i := 0 to |tasks|
        invariant executed == tasks[..i]
        invariant pendingTasks + Flatten(pushes[i..]) == Flatten(pushes)
      {
        assert pushes[i..][0] == pushes[i] && pushes[i..][1..] == pushes[i + 1..];
        executed := executed + [tasks[i]];
        pendingTasks := pendingTasks + pushes[i];
      }
    }
  }
}
