/**
 The timer queue: adding, lazy cancellation and polling over the heap.
 */
module Timers {
  import opened TimerHeap

  datatype TimerState = TimerState(items: seq<Item>, nextId: int)

  /* ---- adding and cancelling ---- */

  function Insert(s: TimerState, expireAt: int, interval: int): TimerState {
    var id := s.nextId + 1;
    TimerState(Push(s.items, Item(id, expireAt, interval, false, id)), id)
  }

  /** The first position that holds `id`, or the length. */
  function IndexOf(items: seq<Item>, id: int): (i: nat)
    ensures i <= |items|
  {
    if items == [] || items[0].id == id then 0 else 1 + IndexOf(items[1..], id)
  }

  lemma {:induction false} IndexOfFinds(items: seq<Item>, id: int)
    ensures var i := IndexOf(items, id);
            (i < |items| ==> items[i].id == id) && (i < |items| <==> exists x :: x in items && x.id == id)
  {
    if items != [] && items[0].id != id {
      IndexOfFinds(items[1..], id);
      assert items == [items[0]] + items[1..];
    }
  }

  /** Cancelling only flags the item; it leaves the heap when it reaches the root. */
  function CancelItem(s: TimerState, id: int): TimerState {
    var i := IndexOf(s.items, id);
    if i < |s.items| then s.(items := s.items[i := s.items[i].(cancelled := true)]) else s
  }

  /* ---- polling ---- */

  predicate Due(x: Item, now: int) {
    !x.cancelled && x.expireAt <= now
  }

  datatype Drained = Drained(fired: seq<Item>, rest: seq<Item>)

  /** The first loop of `poll`: drop cancelled roots and collect due ones. */
  function Drain(items: seq<Item>, now: int): Drained
    decreases |items|
  {
    if items == [] then Drained([], [])
    else if items[0].cancelled then Drain(PopRest(items), now)
    else if items[0].expireAt > now then Drained([], items)
    else
      var d := Drain(PopRest(items), now);
      Drained([items[0]] + d.fired, d.rest)
  }

  function Renewed(t: Item, id: int, now: int): Item {
    Item(id, now + t.interval, t.interval, false, t.origin)
  }

  /** The successors of the repeating timers among `fired`, in order. */
  function Renewals(fired: seq<Item>, nextId: int, now: int): (r: seq<Item>)
    ensures forall x :: x in r ==> !x.cancelled && x.expireAt > now
    decreases |fired|
  {
    if fired == [] then []
    else if fired[0].interval > 0
    then [Renewed(fired[0], nextId + 1, now)] + Renewals(fired[1..], nextId + 1, now)
    else Renewals(fired[1..], nextId, now)
  }

  function PushAll(items: seq<Item>, xs: seq<Item>): seq<Item>
    decreases |xs|
  {
    if xs == [] then items else PushAll(Push(items, xs[0]), xs[1..])
  }

  datatype Polled = Polled(state: TimerState, fired: seq<Item>, delay: int)

  function Poll(s: TimerState, now: int): Polled {
    var d := Drain(s.items, now);
    var r := Renewals(d.fired, s.nextId, now);
    var items := PushAll(d.rest, r);
    Polled(TimerState(items, s.nextId + |r|), d.fired, if items == [] then -1 else items[0].expireAt - now)
  }

  predicate Sorted(s: seq<Item>) {
    forall i, j :: 0 <= i < j < |s| ==> s[i].expireAt <= s[j].expireAt
  }

  ghost predicate Splits(items: seq<Item>, now: int, d: Drained) {
    && (forall x: Item :: multiset(d.fired)[x] == if Due(x, now) then multiset(items)[x] else 0)
    && (forall x: Item :: multiset(d.rest)[x] <= multiset(items)[x])
    && (forall x: Item :: !x.cancelled && !Due(x, now) ==> multiset(d.rest)[x] == multiset(items)[x])
    && (forall x :: x in d.rest ==> x.expireAt > now)
  }

  /** Popping one root that is cancelled or due. */
  lemma SplitStep(items: seq<Item>, root: Item, others: seq<Item>, now: int, e: Drained)
    requires multiset(items) == multiset(others) + multiset{root} && Splits(others, now, e)
    ensures root.cancelled ==> Splits(items, now, e)
    ensures Due(root, now) ==> Splits(items, now, Drained([root] + e.fired, e.rest))
  {
    var d := Drained([root] + e.fired, e.rest);
    assert multiset(d.fired) == multiset{root} + multiset(e.fired);
  }

  lemma FiredLater(items: seq<Item>, others: seq<Item>, root: Item, now: int, e: Drained)
    requires multiset(items) == multiset(others) + multiset{root} && Splits(others, now, e)
    requires forall x :: x in items ==> root.expireAt <= x.expireAt
    ensures Sorted(e.fired) ==> Sorted([root] + e.fired)
  {
    forall x | x in e.fired
      ensures root.expireAt <= x.expireAt
    {
      assert multiset(e.fired)[x] > 0;
      assert x in multiset(others);
      assert x in multiset(items);
    }
  }

  /** Collecting stops with a live root and has split the items by their deadline. */
  lemma {:induction false} DrainSplits(items: seq<Item>, now: int)
    requires HeapOrdered(items)
    ensures var d := Drain(items, now);
            Splits(items, now, d) && Sorted(d.fired) && HeapOrdered(d.rest) && (d.rest != [] ==> !d.rest[0].cancelled)
    decreases |items|
  {
    hide PopRest, HeapOrdered;
    if items != [] {
      RootBounds(items);
      if items[0].cancelled || items[0].expireAt <= now {
        hide Splits, Sorted;
        var others := PopRest(items);
        var e := Drain(others, now);
        PopKeeps(items);
        DrainSplits(others, now);
        SplitStep(items, items[0], others, now, e);
        FiredLater(items, others, items[0], now, e);
      }
    }
  }

  lemma {:induction false} PushAllKeeps(items: seq<Item>, xs: seq<Item>)
    ensures multiset(PushAll(items, xs)) == multiset(items) + multiset(xs)
    ensures HeapOrdered(items) ==> HeapOrdered(PushAll(items, xs))
    ensures (items != [] ==> !items[0].cancelled) && (forall x :: x in xs ==> !x.cancelled) ==>
              (PushAll(items, xs) != [] ==> !PushAll(items, xs)[0].cancelled)
    decreases |xs|
  {
    if xs != [] {
      PushKeeps(items, xs[0]);
      PushAllKeeps(Push(items, xs[0]), xs[1..]);
      assert xs == [xs[0]] + xs[1..];
    }
  }

  /** In a heap with a live root, the root's expiry is the earliest live one. */
  lemma DelayCorrect(items: seq<Item>, now: int)
    requires HeapOrdered(items) && (items != [] ==> !items[0].cancelled)
    requires forall x :: x in items ==> x.expireAt > now
    ensures DelayIsExact(items, now, if items == [] then -1 else items[0].expireAt - now)
  {
    if items != [] {
      RootBounds(items);
      assert items[0] in items;
    }
  }

  ghost predicate DelayIsExact(items: seq<Item>, now: int, delay: int) {
    if delay == -1 then forall x :: x in items ==> x.cancelled
    else
      && delay > 0
      && (exists x :: x in items && !x.cancelled && x.expireAt == now + delay)
      && (forall x :: x in items ==> x.expireAt >= now + delay)
  }

  /** `poll(now)` fires exactly the live timers that are due, in order of expiry; what stays in the
      heap are the old timers that are not due and the successors of the repeating ones, all
      expiring later than `now`; the result is the exact positive delay to the earliest live timer,
      or -1 when there is none. */
  lemma PollCorrect(s: TimerState, now: int)
    requires HeapOrdered(s.items)
    ensures var p := Poll(s, now);
            var d := Drain(s.items, now);
            && p.fired == d.fired && Splits(s.items, now, d) && Sorted(p.fired)
            && HeapOrdered(p.state.items)
            && multiset(p.state.items) == multiset(d.rest) + multiset(Renewals(p.fired, s.nextId, now))
            && (forall x :: x in p.state.items ==> x.expireAt > now)
            && DelayIsExact(p.state.items, now, p.delay)
  {
    hide HeapOrdered, Sorted, DelayIsExact, Drain, PushAll;
    DrainSplits(s.items, now);
    var d := Drain(s.items, now);
    var r := Renewals(d.fired, s.nextId, now);
    PushAllKeeps(d.rest, r);
    var items := PushAll(d.rest, r);
    forall x | x in items
      ensures x.expireAt > now
    {
      assert x in multiset(items);
      assert x in d.rest || x in r;
    }
    DelayCorrect(items, now);
  }
}
