/**
 What holds over every sequence of timer operations: unique ids, the firing rate of repeating
 timers, the finality of a cancellation, and which ids a cancellation still finds.
 */
module TimerRuns {
  import opened TimerHeap
  import opened Timers

  datatype Op =
    | Add(now: int, after: int, callable: bool)
    | AddRepeating(now: int, interval: int, callable: bool)
    | Cancel(id: int)
    | Clear
    | PollAt(now: int)

  datatype Firing = Firing(item: Item, at: int)

  function Apply(s: TimerState, op: Op): TimerState {
    match op
    case Add(now, after, callable) => if callable && after > 0 then Insert(s, now + after, 0) else s
    case AddRepeating(now, d, callable) => if callable && d > 0 then Insert(s, now + d, d) else s
    case Cancel(id) => CancelItem(s, id)
    case Clear => TimerState([], s.nextId)
    case PollAt(now) => Poll(s, now).state
  }

  function Firings(items: seq<Item>, at: int): (fs: seq<Firing>)
    ensures |fs| == |items|
  {
    seq(|items|, i requires 0 <= i < |items| => Firing(items[i], at))
  }

  function Fires(s: TimerState, op: Op): seq<Firing> {
    if op.PollAt? then Firings(Poll(s, op.now).fired, op.now) else []
  }

  function After(s: TimerState, ops: seq<Op>): TimerState
    decreases |ops|
  {
    if ops == [] then s else After(Apply(s, ops[0]), ops[1..])
  }

  function Trace(s: TimerState, ops: seq<Op>): seq<Firing>
    decreases |ops|
  {
    if ops == [] then [] else Fires(s, ops[0]) + Trace(Apply(s, ops[0]), ops[1..])
  }

  /** The times at which the lineage of `o` fires. */
  function TimesOf(fs: seq<Firing>, o: int): seq<int> {
    if fs == [] then []
    else (if fs[0].item.origin == o then [fs[0].at] else []) + TimesOf(fs[1..], o)
  }

  lemma {:induction false} TimesConcat(fs: seq<Firing>, gs: seq<Firing>, o: int)
    ensures TimesOf(fs + gs, o) == TimesOf(fs, o) + TimesOf(gs, o)
    decreases |fs|
  {
    if fs == [] {
      assert fs + gs == gs;
    } else {
      var head := if fs[0].item.origin == o then [fs[0].at] else [];
      assert (fs + gs)[0] == fs[0] && (fs + gs)[1..] == fs[1..] + gs;
      TimesConcat(fs[1..], gs, o);
      assert TimesOf(fs + gs, o) == head + (TimesOf(fs[1..], o) + TimesOf(gs, o));
    }
  }

  function Initial(): TimerState { TimerState([], 0) }

  /* ---- ids and lineages are unique ---- */

  ghost predicate Distinct(m: multiset<Item>, nextId: int) {
    && (forall x :: x in m ==> m[x] == 1 && 1 <= x.origin <= x.id <= nextId)
    && (forall x, y :: x in m && y in m && (x.origin == y.origin || x.id == y.id || x.id == y.origin) ==> x == y)
  }

  ghost predicate Inv(s: TimerState) {
    HeapOrdered(s.items) && Distinct(multiset(s.items), s.nextId) && s.nextId >= 0
  }

  lemma DistinctPart(m: multiset<Item>, part: multiset<Item>, nextId: int)
    requires Distinct(m, nextId) && part <= m
    ensures Distinct(part, nextId)
  {
    forall x | x in part ensures part[x] == 1 { assert 0 < part[x] <= m[x]; }
  }

  lemma DistinctInsert(m: multiset<Item>, nextId: int, x: Item)
    requires Distinct(m, nextId) && nextId >= 0 && x.id == x.origin == nextId + 1
    ensures Distinct(m + multiset{x}, nextId + 1)
  {
  }

  /** Putting a successor or a flagged copy in the place of an item. */
  lemma DistinctReplace(m: multiset<Item>, nextId: int, x: Item, y: Item)
    requires Distinct(m + multiset{x}, nextId) && y.origin == x.origin
    requires y.id == x.id || y.id == nextId + 1
    ensures Distinct(m + multiset{y}, if y.id == x.id then nextId else nextId + 1)
  {
    var n := m + multiset{x};
    assert x in n && n[x] == 1;
    assert forall z :: z in m ==> z in n && z != x;
    forall z | z in m + multiset{y}
      ensures (m + multiset{y})[z] == 1
    {
      if z in m { assert n[z] == m[z]; }
    }
  }

  lemma MoveOne(m: multiset<Item>, others: multiset<Item>, y: Item)
    ensures (m + others) + multiset{y} == (m + multiset{y}) + others == m + (multiset{y} + others)
  {
  }

  lemma HeadOf(s: seq<Item>)
    requires s != []
    ensures multiset(s) == multiset{s[0]} + multiset(s[1..])
  {
    assert s == [s[0]] + s[1..];
  }

  ghost predicate DistinctWith(m: multiset<Item>, s: seq<Item>, nextId: int) {
    Distinct(m + multiset(s), nextId)
  }

  lemma RenewStep(m: multiset<Item>, fired: seq<Item>, nextId: int, y: Item)
    requires fired != [] && DistinctWith(m, fired, nextId) && y.origin == fired[0].origin && y.id == nextId + 1
    ensures DistinctWith(m + multiset{y}, fired[1..], nextId + 1)
  {
    hide Distinct;
    HeadOf(fired);
    MoveOne(m, multiset(fired[1..]), fired[0]);
    IdBelow(m + multiset(fired), nextId, fired[0]);
    DistinctReplace(m + multiset(fired[1..]), nextId, fired[0], y);
    MoveOne(m, multiset(fired[1..]), y);
  }

  lemma DropStep(m: multiset<Item>, fired: seq<Item>, nextId: int)
    requires fired != [] && DistinctWith(m, fired, nextId)
    ensures DistinctWith(m, fired[1..], nextId)
  {
    hide Distinct;
    HeadOf(fired);
    DistinctPart(m + multiset(fired), m + multiset(fired[1..]), nextId);
  }

  lemma JoinStep(m: multiset<Item>, r: seq<Item>, nextId: int)
    requires r != [] && DistinctWith(m + multiset{r[0]}, r[1..], nextId)
    ensures DistinctWith(m, r, nextId)
  {
    hide Distinct;
    HeadOf(r);
    MoveOne(m, multiset(r[1..]), r[0]);
  }

  lemma {:induction false} RenewDistinct(m: multiset<Item>, fired: seq<Item>, nextId: int, now: int)
    requires DistinctWith(m, fired, nextId)
    ensures var r := Renewals(fired, nextId, now);
            DistinctWith(m, r, nextId + |r|)
    decreases |fired|
  {
    hide DistinctWith;
    if fired != [] {
      var t := fired[0];
      if t.interval > 0 {
        var y := Renewed(t, nextId + 1, now);
        RenewStep(m, fired, nextId, y);
        RenewDistinct(m + multiset{y}, fired[1..], nextId + 1, now);
        var r := Renewals(fired, nextId, now);
        assert r[1..] == Renewals(fired[1..], nextId + 1, now);
        JoinStep(m, r, nextId + |r|);
      } else {
        DropStep(m, fired, nextId);
        RenewDistinct(m, fired[1..], nextId, now);
      }
    }
  }

  lemma IdBelow(m: multiset<Item>, nextId: int, x: Item)
    requires Distinct(m, nextId) && x in m
    ensures x.id <= nextId
  {
  }

  lemma PartsOfHeap(items: seq<Item>, now: int, d: Drained)
    requires Splits(items, now, d)
    ensures multiset(d.rest) + multiset(d.fired) <= multiset(items)
  {
    var sum := multiset(d.rest) + multiset(d.fired);
    forall x: Item
      ensures sum[x] <= multiset(items)[x]
    {
      if Due(x, now) { assert x !in d.rest; }
    }
  }

  lemma FlagKeepsHeap(items: seq<Item>, i: nat)
    requires HeapOrdered(items) && i < |items|
    ensures HeapOrdered(items[i := items[i].(cancelled := true)])
  {
    var t := items[i := items[i].(cancelled := true)];
    forall k | 0 < k < |t| ensures Fits(t, k) { assert Fits(items, k); }
  }

  lemma ReplaceAt(items: seq<Item>, i: nat, y: Item) returns (m: multiset<Item>)
    requires i < |items|
    ensures multiset(items) == m + multiset{items[i]} && multiset(items[i := y]) == m + multiset{y}
  {
    assert items == items[..i] + [items[i]] + items[i + 1..];
    assert items[i := y] == items[..i] + [y] + items[i + 1..];
    m := multiset(items[..i]) + multiset(items[i + 1..]);
  }

  lemma CancelKeeps(s: TimerState, id: int)
    requires Inv(s) && IndexOf(s.items, id) < |s.items|
    ensures var x := s.items[IndexOf(s.items, id)];
            var t := CancelItem(s, id);
            && x.id == id && Inv(t) && t.nextId == s.nextId
            && multiset(t.items) == multiset(s.items) - multiset{x} + multiset{x.(cancelled := true)}
  {
    hide HeapOrdered, Distinct, IndexOf;
    var i := IndexOf(s.items, id);
    IndexOfFinds(s.items, id);
    var x, y := s.items[i], s.items[i].(cancelled := true);
    var m := ReplaceAt(s.items, i, y);
    DistinctReplace(m, s.nextId, x, y);
    FlagKeepsHeap(s.items, i);
  }

  lemma ApplyKeeps(s: TimerState, op: Op)
    requires Inv(s)
    ensures Inv(Apply(s, op)) && s.nextId <= Apply(s, op).nextId
  {
    hide HeapOrdered, Distinct;
    match op
    case Add(now, after, callable) => InsertKeeps(s, now + after, 0);
    case AddRepeating(now, d, callable) => InsertKeeps(s, now + d, d);
    case Cancel(id) => if IndexOf(s.items, id) < |s.items| { CancelKeeps(s, id); }
    case Clear => EmptyIsFine(s.nextId);
    case PollAt(now) => PollKeeps(s, now);
  }

  lemma EmptyIsFine(nextId: int)
    requires nextId >= 0
    ensures Inv(TimerState([], nextId))
  {
  }

  lemma InsertKeeps(s: TimerState, expireAt: int, interval: int)
    requires Inv(s)
    ensures Inv(Insert(s, expireAt, interval))
    ensures multiset(Insert(s, expireAt, interval).items) ==
            multiset(s.items) + multiset{Item(s.nextId + 1, expireAt, interval, false, s.nextId + 1)}
  {
    hide HeapOrdered, Distinct;
    var x := Item(s.nextId + 1, expireAt, interval, false, s.nextId + 1);
    PushKeeps(s.items, x);
    DistinctInsert(multiset(s.items), s.nextId, x);
  }

  lemma PollKeeps(s: TimerState, now: int)
    requires Inv(s)
    ensures Inv(Poll(s, now).state)
    ensures Distinct(multiset(Poll(s, now).fired), s.nextId)
  {
    hide HeapOrdered, Distinct, Splits, Sorted, DelayIsExact, Drain, PushAll, Renewals;
    PollCorrect(s, now);
    var d := Drain(s.items, now);
    PartsOfHeap(s.items, now, d);
    DistinctPart(multiset(s.items), multiset(d.rest) + multiset(d.fired), s.nextId);
    DistinctPart(multiset(s.items), multiset(d.fired), s.nextId);
    RenewDistinct(multiset(d.rest), d.fired, s.nextId, now);
  }

  /** In every reachable state the items are a heap with unique ids and unique lineages. */
  lemma {:induction false} RunKeeps(s: TimerState, ops: seq<Op>)
    requires Inv(s)
    ensures Inv(After(s, ops)) && s.nextId <= After(s, ops).nextId
    decreases |ops|
  {
    hide Inv, Apply;
    if ops != [] {
      ApplyKeeps(s, ops[0]);
      RunKeeps(Apply(s, ops[0]), ops[1..]);
    }
  }

  /* ---- following one lineage through a poll ---- */

  /** Every renewal comes from a fired timer of the same lineage. */
  lemma {:induction false} RenewalFrom(fired: seq<Item>, nextId: int, now: int, y: Item) returns (t: Item)
    requires y in Renewals(fired, nextId, now)
    ensures t in fired && t.interval > 0 && y.origin == t.origin && y.interval == t.interval
    ensures y.expireAt == now + t.interval && y.id > nextId && !y.cancelled
    decreases |fired|
  {
    t := fired[0];
    if t.interval > 0 {
      var r := Renewals(fired[1..], nextId + 1, now);
      assert Renewals(fired, nextId, now) == [Renewed(t, nextId + 1, now)] + r;
      if y != Renewed(t, nextId + 1, now) { t := RenewalFrom(fired[1..], nextId + 1, now, y); }
    } else {
      t := RenewalFrom(fired[1..], nextId, now, y);
    }
  }

  lemma SameLineage(m: multiset<Item>, nextId: int, x: Item, y: Item)
    requires Distinct(m, nextId) && x in m && y in m && (x.origin == y.origin || x.id == y.origin)
    ensures x == y && m[x] == 1
  {
  }

  predicate FiresLineage(fired: seq<Item>, o: int) {
    exists x :: x in fired && x.origin == o
  }

  lemma HeadAlone(fired: seq<Item>, nextId: int)
    requires fired != [] && Distinct(multiset(fired), nextId)
    ensures !FiresLineage(fired[1..], fired[0].origin)
  {
    hide Distinct;
    HeadOf(fired);
    forall x | x in fired[1..]
      ensures x.origin != fired[0].origin
    {
      assert x in multiset(fired[1..]);
      if x.origin == fired[0].origin { SameLineage(multiset(fired), nextId, x, fired[0]); }
    }
  }

  /** With unique lineages a poll fires each lineage at most once. */
  lemma {:induction false} FiredOnce(fired: seq<Item>, nextId: int, now: int, o: int)
    requires Distinct(multiset(fired), nextId)
    ensures TimesOf(Firings(fired, now), o) == if FiresLineage(fired, o) then [now] else []
    decreases |fired|
  {
    hide Distinct, FiresLineage;
    if fired == [] {
      assert !FiresLineage(fired, o) by { NobodyFires(o); }
    } else {
      var fs := Firings(fired, now);
      HeadOf(fired);
      HeadAlone(fired, nextId);
      HeadOrRest(fired, o);
      assert fs[1..] == Firings(fired[1..], now);
      DistinctPart(multiset(fired), multiset(fired[1..]), nextId);
      FiredOnce(fired[1..], nextId, now, o);
    }
  }

  lemma NobodyFires(o: int)
    ensures !FiresLineage([], o)
  {
  }

  lemma HeadOrRest(fired: seq<Item>, o: int)
    requires fired != []
    ensures FiresLineage(fired, o) <==> fired[0].origin == o || FiresLineage(fired[1..], o)
  {
    assert fired == [fired[0]] + fired[1..];
  }

  /** An item that is in the heap before, except perhaps for its cancellation flag. */
  ghost predicate Kept(s: TimerState, y: Item) {
    exists x :: x in s.items && y == x.(cancelled := y.cancelled) && (x.cancelled ==> y.cancelled)
  }

  /** The successor of an item that fires at `now`. */
  ghost predicate Successor(s: TimerState, y: Item, now: int) {
    exists x :: x in s.items && Due(x, now) && x.interval > 0 && y == Renewed(x, y.id, now) && y.id > s.nextId
  }

  ghost predicate FiresAt(s: TimerState, o: int, now: int) {
    exists x :: x in s.items && x.origin == o && Due(x, now)
  }

  /** The items of lineage `o` after an operation are those from before, unless the lineage fires:
      then only its successor is left. */
  ghost predicate Follows(s: TimerState, op: Op, o: int) {
    var times, t := TimesOf(Fires(s, op), o), Apply(s, op);
    if op.PollAt? && FiresAt(s, o, op.now)
    then times == [op.now] && forall y :: y in t.items && y.origin == o ==> Successor(s, y, op.now)
    else times == [] && forall y :: y in t.items && y.origin == o ==> Kept(s, y)
  }

  lemma DrainMembers(s: TimerState, now: int, x: Item)
    requires HeapOrdered(s.items)
    ensures var d := Drain(s.items, now);
            && (x in d.fired <==> x in s.items && Due(x, now))
            && (x in d.rest ==> x in s.items && !Due(x, now))
  {
    hide HeapOrdered, Sorted, Drain;
    DrainSplits(s.items, now);
    var d := Drain(s.items, now);
    assert x in d.fired <==> multiset(d.fired)[x] > 0;
    assert x in s.items <==> multiset(s.items)[x] > 0;
    assert x in d.rest <==> multiset(d.rest)[x] > 0;
  }

  lemma PollMembers(s: TimerState, now: int, y: Item)
    requires HeapOrdered(s.items) && y in Poll(s, now).state.items
    ensures y in Drain(s.items, now).rest || y in Renewals(Drain(s.items, now).fired, s.nextId, now)
  {
    hide HeapOrdered, Sorted, Drain, Splits, Renewals, DelayIsExact;
    PollCorrect(s, now);
    assert y in multiset(Poll(s, now).state.items);
  }

  lemma PollFollows(s: TimerState, now: int, o: int)
    requires Inv(s)
    ensures Follows(s, PollAt(now), o)
  {
    hide HeapOrdered, Distinct, Drain, PushAll, Renewals, DelayIsExact, Splits, Sorted, TimesOf;
    PollKeeps(s, now);
    var d := Drain(s.items, now);
    FiredOnce(d.fired, s.nextId, now, o);
    forall x: Item
      ensures x in d.fired <==> x in s.items && Due(x, now)
    {
      DrainMembers(s, now, x);
    }
    assert FiresLineage(d.fired, o) <==> FiresAt(s, o, now);
    forall y | y in Poll(s, now).state.items && y.origin == o
      ensures if FiresAt(s, o, now) then Successor(s, y, now) else Kept(s, y)
    {
      PollMembers(s, now, y);
      DrainMembers(s, now, y);
      if y in d.rest {
        if FiresAt(s, o, now) {
          var x :| x in s.items && x.origin == o && Due(x, now);
          assert x in multiset(s.items) && y in multiset(s.items);
          SameLineage(multiset(s.items), s.nextId, x, y);
        }
        assert y == y.(cancelled := y.cancelled);
      } else {
        var t := RenewalFrom(d.fired, s.nextId, now, y);
        assert t in s.items && Due(t, now) && y == Renewed(t, y.id, now);
      }
    }
  }

  lemma InsertFollows(s: TimerState, expireAt: int, interval: int, o: int)
    requires Inv(s) && o <= s.nextId
    ensures forall y :: y in Insert(s, expireAt, interval).items && y.origin == o ==> Kept(s, y)
  {
    hide HeapOrdered, Distinct;
    InsertKeeps(s, expireAt, interval);
    var t := Insert(s, expireAt, interval);
    forall y | y in t.items && y.origin == o
      ensures Kept(s, y)
    {
      assert y in multiset(t.items);
      assert y in multiset(s.items);
      assert y == y.(cancelled := y.cancelled);
    }
  }

  lemma CancelFollows(s: TimerState, id: int)
    ensures forall y :: y in CancelItem(s, id).items ==> Kept(s, y)
  {
    var t := CancelItem(s, id);
    forall y | y in t.items
      ensures Kept(s, y)
    {
      var k :| 0 <= k < |t.items| && t.items[k] == y;
      var x := s.items[k];
      assert x in s.items && y == x.(cancelled := y.cancelled);
    }
  }

  lemma StepFollows(s: TimerState, op: Op, o: int)
    requires Inv(s) && o <= s.nextId
    ensures Follows(s, op, o)
  {
    hide Inv, Insert, CancelItem, Poll;
    match op
    case Add(now, after, callable) =>
      InsertFollows(s, now + after, 0, o);
      AllKept(s);
    case AddRepeating(now, d, callable) =>
      InsertFollows(s, now + d, d, o);
      AllKept(s);
    case Cancel(id) => CancelFollows(s, id);
    case Clear =>
    case PollAt(now) => PollFollows(s, now, o);
  }

  lemma AllKept(s: TimerState)
    ensures forall y :: y in s.items ==> Kept(s, y)
  {
    assert forall y: Item :: y == y.(cancelled := y.cancelled);
  }

  /* ---- the rate of a repeating timer ---- */

  /** The lineage `o` repeats every `d`, will not fire before `bound`, and still has the id it
      was given first iff `first`. */
  ghost predicate Lineage(s: TimerState, o: int, d: int, bound: int, first: bool) {
    && Inv(s) && 1 <= o <= s.nextId
    && (forall x :: x in s.items && x.origin == o ==> x.interval == d && x.expireAt >= bound && (first <==> x.id == o))
  }

  lemma LineageStep(s: TimerState, op: Op, o: int, d: int, bound: int, first: bool)
    requires Lineage(s, o, d, bound, first) && d > 0
    ensures var times := TimesOf(Fires(s, op), o);
            || (times == [] && Lineage(Apply(s, op), o, d, bound, first))
            || (|times| == 1 && times[0] >= bound && Lineage(Apply(s, op), o, d, bound + d, false))
  {
    hide Inv, Apply, Fires, TimesOf;
    ApplyKeeps(s, op);
    StepFollows(s, op, o);
  }

  lemma NextMultiple(k: int, d: int)
    ensures (k - 1) * d + d == k * d
  {
  }

  /** The k-th entry, counted from 0, is at least `bound + k * d`. */
  ghost predicate Paced(times: seq<int>, bound: int, d: int) {
    forall k :: 0 <= k < |times| ==> times[k] >= bound + k * d
  }

  lemma LaterTimes(t: int, rest: seq<int>, bound: int, d: int)
    requires t >= bound && Paced(rest, bound + d, d)
    ensures Paced([t] + rest, bound, d)
  {
    var times := [t] + rest;
    forall k | 0 <= k < |times|
      ensures times[k] >= bound + k * d
    {
      if k > 0 {
        assert times[k] == rest[k - 1] >= bound + d + (k - 1) * d;
        NextMultiple(k, d);
      }
    }
  }

  lemma {:induction false} RunRate(s: TimerState, ops: seq<Op>, o: int, d: int, bound: int, first: bool)
    returns (b: int)
    requires Lineage(s, o, d, bound, first) && d > 0
    ensures Paced(TimesOf(Trace(s, ops), o), bound, d)
    ensures Lineage(After(s, ops), o, d, b, first && TimesOf(Trace(s, ops), o) == [])
    decreases |ops|
  {
    hide Lineage, Apply, Fires, Paced;
    if ops == [] {
      b := bound;
      assert Paced([], bound, d) by { NothingPaced(bound, d); }
    } else {
      var now, later := Fires(s, ops[0]), Trace(Apply(s, ops[0]), ops[1..]);
      TimesConcat(now, later, o);
      LineageStep(s, ops[0], o, d, bound, first);
      if TimesOf(now, o) == [] {
        b := RunRate(Apply(s, ops[0]), ops[1..], o, d, bound, first);
        assert TimesOf(Trace(s, ops), o) == TimesOf(later, o);
      } else {
        b := RunRate(Apply(s, ops[0]), ops[1..], o, d, bound + d, false);
        var t := TimesOf(now, o)[0];
        assert TimesOf(now, o) == [t];
        LaterTimes(t, TimesOf(later, o), bound, d);
        assert TimesOf(Trace(s, ops), o) == [t] + TimesOf(later, o);
      }
    }
  }

  lemma NothingPaced(bound: int, d: int)
    ensures Paced([], bound, d)
  {
  }

  lemma Repeating(s: TimerState, t0: int, d: int)
    requires Inv(s) && d > 0
    ensures Lineage(Apply(s, AddRepeating(t0, d, true)), s.nextId + 1, d, t0 + d, true)
  {
    hide HeapOrdered, Distinct, Insert;
    ApplyKeeps(s, AddRepeating(t0, d, true));
    InsertKeeps(s, t0 + d, d);
    InsertsOne(s, t0 + d, d);
    var t, first := Insert(s, t0 + d, d), Item(s.nextId + 1, t0 + d, d, false, s.nextId + 1);
    forall x | x in t.items && x.origin == s.nextId + 1
      ensures x == first
    {
      assert x in multiset(t.items);
      if x in multiset(s.items) { OriginBelow(multiset(s.items), s.nextId, x); }
    }
  }

  lemma InsertsOne(s: TimerState, expireAt: int, interval: int)
    ensures Insert(s, expireAt, interval).nextId == s.nextId + 1
  {
  }

  lemma OriginBelow(m: multiset<Item>, nextId: int, x: Item)
    requires Distinct(m, nextId) && x in m
    ensures x.origin <= nextId
  {
  }

  lemma InitialHolds()
    ensures Inv(Initial())
  {
    EmptyIsFine(0);
  }

  /** Rate bound: in every run, a repeating timer with interval `d` added at `t0` fires for the
      k-th time no earlier than `t0 + k * d`. */
  lemma RateBound(before: seq<Op>, t0: int, d: int, after: seq<Op>)
    requires d > 0
    ensures var s := After(Initial(), before);
            var times := TimesOf(Trace(Apply(s, AddRepeating(t0, d, true)), after), s.nextId + 1);
            forall k :: 0 <= k < |times| ==> times[k] >= t0 + (k + 1) * d
  {
    hide Inv, Lineage, Apply, Trace, TimesOf;
    InitialHolds();
    RunKeeps(Initial(), before);
    var s := After(Initial(), before);
    Repeating(s, t0, d);
    var b := RunRate(Apply(s, AddRepeating(t0, d, true)), after, s.nextId + 1, d, t0 + d, true);
    var times := TimesOf(Trace(Apply(s, AddRepeating(t0, d, true)), after), s.nextId + 1);
    forall k | 0 <= k < |times|
      ensures times[k] >= t0 + (k + 1) * d
    {
      NextMultiple(k + 1, d);
    }
  }

  /** One poll never fires a lineage twice. */
  lemma AtMostOncePerPoll(ops: seq<Op>, now: int, o: int)
    ensures |TimesOf(Fires(After(Initial(), ops), PollAt(now)), o)| <= 1
  {
    hide Inv, Fires, TimesOf, Apply;
    InitialHolds();
    RunKeeps(Initial(), ops);
    PollFollows(After(Initial(), ops), now, o);
  }

  /** The id returned by `add_repeating` stops naming its timer at the first firing: as long as the
      lineage is in the heap, `cancel` finds that id iff the lineage has not fired yet. */
  lemma CancelByFirstId(before: seq<Op>, t0: int, d: int, after: seq<Op>, x: Item)
    requires d > 0
    requires var s := After(Initial(), before);
             x in After(Apply(s, AddRepeating(t0, d, true)), after).items && x.origin == s.nextId + 1
    ensures var s := After(Initial(), before);
            var t := Apply(s, AddRepeating(t0, d, true));
            var u := After(t, after);
            IndexOf(u.items, s.nextId + 1) < |u.items| <==> TimesOf(Trace(t, after), s.nextId + 1) == []
  {
    hide Apply, Trace, IndexOf, HeapOrdered, Distinct;
    InitialHolds();
    RunKeeps(Initial(), before);
    var s := After(Initial(), before);
    Repeating(s, t0, d);
    var t := Apply(s, AddRepeating(t0, d, true));
    var o := s.nextId + 1;
    var b := RunRate(t, after, o, d, t0 + d, true);
    var u := After(t, after);
    IndexOfFinds(u.items, o);
    forall y | y in u.items && y.id == o
      ensures y == x
    {
      assert y in multiset(u.items) && x in multiset(u.items);
      SameLineage(multiset(u.items), u.nextId, y, x);
    }
  }

  /** A repeating timer with interval 1, polled once: it is still in the heap, under id 2, and the id
      that was handed out finds nothing. */
  lemma FirstIdIsLost()
    ensures var s := After(Initial(), [AddRepeating(0, 1, true), PollAt(1)]);
            s.items == [Item(2, 2, 1, false, 1)] && CancelItem(s, 1) == s && IndexOf(s.items, 1) == |s.items|
  {
    var ops := [AddRepeating(0, 1, true), PollAt(1)];
    var x, y := Item(1, 1, 1, false, 1), Item(2, 2, 1, false, 1);
    var s := TimerState([x], 1);
    assert ops[1..] == [PollAt(1)] && ops[1..][1..] == [];
    assert Apply(Initial(), ops[0]) == s by { assert [] + [x] == [x]; }
    assert Drain([x], 1) == Drained([x], []) by { assert PopRest([x]) == [] && Drain([], 1) == Drained([], []); }
    assert Renewals([x], 1, 1) == [y] by { assert [x][1..] == [] && Renewals([], 2, 1) == []; }
    assert PushAll([], [y]) == [y] by { assert [y][1..] == [] && [] + [y] == [y]; }
    assert Poll(s, 1).state == TimerState([y], 2);
    assert After(s, [PollAt(1)]) == Poll(s, 1).state;
    assert IndexOf([y], 1) == 1 by { assert [y][1..] == []; }
  }

  /* ---- a cancellation is final ---- */

  ghost predicate Dead(s: TimerState, o: int) {
    Inv(s) && o <= s.nextId && forall x :: x in s.items && x.origin == o ==> x.cancelled
  }

  lemma DeadStep(s: TimerState, op: Op, o: int)
    requires Dead(s, o)
    ensures TimesOf(Fires(s, op), o) == [] && Dead(Apply(s, op), o)
  {
    hide Inv, Apply, Fires, TimesOf;
    ApplyKeeps(s, op);
    StepFollows(s, op, o);
  }

  lemma {:induction false} DeadForever(s: TimerState, ops: seq<Op>, o: int)
    requires Dead(s, o)
    ensures TimesOf(Trace(s, ops), o) == []
    decreases |ops|
  {
    hide Dead, Apply, Fires;
    if ops != [] {
      DeadStep(s, ops[0], o);
      DeadForever(Apply(s, ops[0]), ops[1..], o);
      TimesConcat(Fires(s, ops[0]), Trace(Apply(s, ops[0]), ops[1..]), o);
    }
  }

  /** Nothing that was added before a clear, nor a successor of it, fires after it; and ids go on from
      where they were. */
  lemma ClearSilences(before: seq<Op>, o: int, after: seq<Op>)
    requires o <= After(Initial(), before).nextId
    ensures var s := After(Initial(), before);
            && TimesOf(Trace(Apply(s, Clear), after), o) == []
            && Apply(s, Clear).items == [] && Apply(s, Clear).nextId == s.nextId
  {
    hide Inv, Trace, TimesOf;
    InitialHolds();
    RunKeeps(Initial(), before);
    var s := After(Initial(), before);
    ApplyKeeps(s, Clear);
    DeadForever(Apply(s, Clear), after, o);
  }

  /** Adding is refused without a callback or with a delay or interval that is not positive; then
      nothing changes. */
  lemma RefusedChangesNothing(s: TimerState, now: int, d: int, callable: bool)
    requires !callable || d <= 0
    ensures Apply(s, Add(now, d, callable)) == s && Apply(s, AddRepeating(now, d, callable)) == s
  {
  }

  /** After a cancellation that found its timer, neither it nor a successor ever fires again, in
      every continuation; every other timer and the heap order are as before. */
  lemma CancelIsFinal(before: seq<Op>, id: int, after: seq<Op>)
    ensures var s := After(Initial(), before);
            var i := IndexOf(s.items, id);
            i < |s.items| ==>
              && s.items[i].id == id
              && HeapOrdered(CancelItem(s, id).items)
              && CancelItem(s, id).items == s.items[i := s.items[i].(cancelled := true)]
              && TimesOf(Trace(CancelItem(s, id), after), s.items[i].origin) == []
  {
    hide Trace, IndexOf, HeapOrdered;
    InitialHolds();
    RunKeeps(Initial(), before);
    var s := After(Initial(), before);
    var i := IndexOf(s.items, id);
    if i < |s.items| {
      CancelKeeps(s, id);
      var t, o := CancelItem(s, id), s.items[i].origin;
      assert Dead(t, o) by {
        var y := s.items[i].(cancelled := true);
        assert t.items[i] == y;
        assert y in multiset(t.items);
        forall x | x in t.items && x.origin == o
          ensures x == y
        {
          assert x in multiset(t.items);
        }
        assert s.items[i] in multiset(s.items);
      }
      DeadForever(t, after, o);
    }
  }
}
