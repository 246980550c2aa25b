/**
 `nearest_expire` returns the first live item in array order.  When is that the earliest live timer,
 in every state a timer queue can get into?
 */
module TimerNearest {
  import opened TimerHeap
  import opened Timers
  import opened TimerRuns

  function FirstLive(items: seq<Item>): (i: nat)
    ensures i <= |items| && (i < |items| ==> !items[i].cancelled) && forall k :: 0 <= k < i ==> items[k].cancelled
  {
    if items == [] || !items[0].cancelled then 0 else 1 + FirstLive(items[1..])
  }

  ghost predicate HasFlags(items: seq<Item>, flags: seq<bool>) {
    |items| == |flags| && forall i :: 0 <= i < |items| ==> items[i].cancelled == flags[i]
  }

  ghost predicate FirstLiveIsEarliest(items: seq<Item>) {
    var f := FirstLive(items);
    forall j :: f <= j < |items| && !items[j].cancelled ==> items[f].expireAt <= items[j].expireAt
  }

  /** `j` lies in the subtree of `f`. */
  predicate Under(f: nat, j: nat)
    decreases j
  {
    j == f || (j > f && Under(f, Parent(j)))
  }

  /** Every live position lies in the subtree of the first live one. */
  predicate LiveUnderFirst(flags: seq<bool>) {
    forall f :: 0 <= f < |flags| && !flags[f] && (forall k :: 0 <= k < f ==> flags[k]) ==>
      forall j :: f <= j < |flags| && !flags[j] ==> Under(f, j)
  }

  lemma {:induction false} UnderIsLater(items: seq<Item>, f: nat, j: nat)
    requires HeapOrdered(items) && j < |items| && Under(f, j)
    ensures f <= j && items[f].expireAt <= items[j].expireAt
    decreases j
  {
    if j != f {
      UnderIsLater(items, f, Parent(j));
      assert Fits(items, j);
    }
  }

  /* ---- every heap with given expiries and flags is reached ---- */

  /** One-shot timers added in array order, with ids 1, 2, ..., the first `k` flagged as told. */
  function Array(es: seq<int>, flags: seq<bool>, k: nat): (items: seq<Item>)
    requires |es| == |flags|
    ensures |items| == |es|
  {
    seq(|es|, i requires 0 <= i < |es| => Item(i + 1, es[i], 0, i < k && flags[i], i + 1))
  }

  function Adds(es: seq<int>): (ops: seq<Op>)
    ensures |ops| == |es|
  {
    seq(|es|, i requires 0 <= i < |es| => Add(0, es[i], true))
  }

  function Cancels(flags: seq<bool>, k: nat): seq<Op>
    requires k <= |flags|
  {
    if k == 0 then [] else Cancels(flags, k - 1) + (if flags[k - 1] then [Cancel(k)] else [])
  }

  lemma {:induction false} AfterConcat(s: TimerState, a: seq<Op>, b: seq<Op>)
    ensures After(s, a + b) == After(After(s, a), b)
    decreases |a|
  {
    hide Apply;
    if a == [] {
      assert a + b == b;
    } else {
      assert (a + b)[0] == a[0] && (a + b)[1..] == a[1..] + b;
      AfterConcat(Apply(s, a[0]), a[1..], b);
    }
  }

  lemma AfterOne(s: TimerState, op: Op)
    ensures After(s, [op]) == Apply(s, op)
  {
    hide Apply;
    assert [op][1..] == [];
  }

  /** An item that already fits stays where it was appended. */
  lemma PushInPlace(s: seq<Item>, x: Item)
    requires HeapOrdered(s + [x])
    ensures HeapOrdered(s) && Push(s, x) == s + [x]
  {
    var t := s + [x];
    assert |s| > 0 ==> Fits(t, |s|);
    forall i | 0 < i < |s| ensures Fits(s, i) { assert Fits(t, i); }
  }

  lemma {:induction false} AddsReach(es: seq<int>, flags: seq<bool>)
    requires |es| == |flags| && HeapOrdered(Array(es, flags, 0)) && forall i :: 0 <= i < |es| ==> es[i] > 0
    ensures After(Initial(), Adds(es)) == TimerState(Array(es, flags, 0), |es|)
    decreases |es|
  {
    hide HeapOrdered, Push;
    var items := Array(es, flags, 0);
    if es == [] {
      assert items == [] && Adds(es) == [];
    } else {
      var n := |es| - 1;
      var x, before := Item(n + 1, es[n], 0, false, n + 1), Array(es[..n], flags[..n], 0);
      assert items == before + [x];
      PushInPlace(before, x);
      AddsReach(es[..n], flags[..n]);
      assert Adds(es) == Adds(es[..n]) + [Add(0, es[n], true)];
      AfterConcat(Initial(), Adds(es[..n]), [Add(0, es[n], true)]);
      AfterOne(TimerState(before, n), Add(0, es[n], true));
    }
  }

  lemma {:induction false} IndexOfNumbered(items: seq<Item>, first: int, k: nat)
    requires k < |items| && forall i :: 0 <= i < |items| ==> items[i].id == first + i
    ensures IndexOf(items, first + k) == k
    decreases k
  {
    if k > 0 { IndexOfNumbered(items[1..], first + 1, k - 1); }
  }

  lemma CancelsOne(es: seq<int>, flags: seq<bool>, k: nat, nextId: int)
    requires |es| == |flags| && 0 < k <= |es| && flags[k - 1]
    ensures Apply(TimerState(Array(es, flags, k - 1), nextId), Cancel(k)) == TimerState(Array(es, flags, k), nextId)
  {
    var items := Array(es, flags, k - 1);
    IndexOfNumbered(items, 1, k - 1);
    assert items[k - 1 := items[k - 1].(cancelled := true)] == Array(es, flags, k);
  }

  lemma {:induction false} CancelsReach(es: seq<int>, flags: seq<bool>, k: nat, nextId: int)
    requires |es| == |flags| && k <= |es|
    ensures After(TimerState(Array(es, flags, 0), nextId), Cancels(flags, k)) == TimerState(Array(es, flags, k), nextId)
  {
    hide Apply, Array;
    var s := TimerState(Array(es, flags, 0), nextId);
    if k > 0 {
      CancelsReach(es, flags, k - 1, nextId);
      if flags[k - 1] {
        AfterConcat(s, Cancels(flags, k - 1), [Cancel(k)]);
        AfterOne(TimerState(Array(es, flags, k - 1), nextId), Cancel(k));
        CancelsOne(es, flags, k, nextId);
      } else {
        assert Cancels(flags, k) == Cancels(flags, k - 1);
        assert Array(es, flags, k) == Array(es, flags, k - 1) by { SameFlags(es, flags, k); }
      }
    }
  }

  lemma SameFlags(es: seq<int>, flags: seq<bool>, k: nat)
    requires |es| == |flags| && 0 < k <= |es| && !flags[k - 1]
    ensures Array(es, flags, k) == Array(es, flags, k - 1)
  {
  }

  /** Adding timers in array order and then cancelling some reaches every such heap. */
  lemma ArrayIsReached(es: seq<int>, flags: seq<bool>) returns (ops: seq<Op>)
    requires |es| == |flags| && HeapOrdered(Array(es, flags, 0)) && forall i :: 0 <= i < |es| ==> es[i] > 0
    ensures After(Initial(), ops) == TimerState(Array(es, flags, |es|), |es|)
  {
    AddsReach(es, flags);
    CancelsReach(es, flags, |es|, |es|);
    ops := Adds(es) + Cancels(flags, |es|);
    AfterConcat(Initial(), Adds(es), Cancels(flags, |es|));
  }

  /** Expiries for which the subtree of `f` expires after everything else. */
  ghost function Lopsided(n: nat, f: nat): (es: seq<int>)
    ensures |es| == n
  {
    seq(n, i requires i >= 0 => if Under(f, i) then 2 else 1)
  }

  lemma LopsidedIsHeap(flags: seq<bool>, f: nat)
    ensures HeapOrdered(Array(Lopsided(|flags|, f), flags, 0))
  {
    var items := Array(Lopsided(|flags|, f), flags, 0);
    forall i | 0 < i < |items|
      ensures Fits(items, i)
    {
      if Under(f, Parent(i)) { UnderFrom(f, Parent(i)); }
    }
  }

  lemma {:induction false} UnderFrom(f: nat, j: nat)
    requires Under(f, j)
    ensures f <= j
    decreases j
  {
  }

  lemma {:induction false} RootAboveAll(j: nat)
    ensures Under(0, j)
    decreases j
  {
    if j > 0 { RootAboveAll(Parent(j)); }
  }

  lemma EarliestWhenUnder(items: seq<Item>, flags: seq<bool>)
    requires HeapOrdered(items) && HasFlags(items, flags) && LiveUnderFirst(flags)
    ensures FirstLiveIsEarliest(items)
  {
    var f := FirstLive(items);
    forall j | f <= j < |items| && !items[j].cancelled
      ensures items[f].expireAt <= items[j].expireAt
    {
      UnderIsLater(items, f, j);
    }
  }

  /** Where some live position is not under the first live one, a run makes the answer wrong. */
  lemma WrongSomewhere(flags: seq<bool>) returns (ops: seq<Op>)
    requires !LiveUnderFirst(flags)
    ensures HasFlags(After(Initial(), ops).items, flags) && !FirstLiveIsEarliest(After(Initial(), ops).items)
  {
    var f :| 0 <= f < |flags| && !flags[f] && (forall k :: 0 <= k < f ==> flags[k])
             && exists j :: f <= j < |flags| && !flags[j] && !Under(f, j);
    var j :| f <= j < |flags| && !flags[j] && !Under(f, j);
    var es := Lopsided(|flags|, f);
    LopsidedIsHeap(flags, f);
    ops := ArrayIsReached(es, flags);
    LopsidedIsWrong(flags, f, j);
  }

  lemma LopsidedIsWrong(flags: seq<bool>, f: nat, j: nat)
    requires f <= j < |flags| && !flags[f] && !flags[j] && !Under(f, j) && forall k :: 0 <= k < f ==> flags[k]
    ensures var items := Array(Lopsided(|flags|, f), flags, |flags|);
            HasFlags(items, flags) && !FirstLiveIsEarliest(items)
  {
    var items := Array(Lopsided(|flags|, f), flags, |flags|);
    FirstLiveAt(items, f);
    assert items[f].expireAt == 2 && items[j].expireAt == 1;
  }

  lemma FirstLiveAt(items: seq<Item>, f: nat)
    requires f < |items| && !items[f].cancelled && forall k :: 0 <= k < f ==> items[k].cancelled
    ensures FirstLive(items) == f
  {
  }

  /** `nearest_expire` is right in every reachable state with the given cancellation flags iff all
      live positions lie under the first live one; a live root is the simplest such case. */
  lemma NearestExpireExact(flags: seq<bool>)
    ensures (forall ops: seq<Op> :: HasFlags(After(Initial(), ops).items, flags) ==>
                                      FirstLiveIsEarliest(After(Initial(), ops).items))
            <==> LiveUnderFirst(flags)
    ensures |flags| > 0 && !flags[0] ==> LiveUnderFirst(flags)
  {
    LiveRoot(flags);
    hide FirstLiveIsEarliest, HasFlags, LiveUnderFirst, After, HeapOrdered, Distinct;
    if LiveUnderFirst(flags) {
      forall ops: seq<Op> | HasFlags(After(Initial(), ops).items, flags)
        ensures FirstLiveIsEarliest(After(Initial(), ops).items)
      {
        InitialHolds();
        RunKeeps(Initial(), ops);
        EarliestWhenUnder(After(Initial(), ops).items, flags);
      }
    } else {
      var ops := WrongSomewhere(flags);
    }
  }

  lemma LiveRoot(flags: seq<bool>)
    ensures |flags| > 0 && !flags[0] ==> LiveUnderFirst(flags)
  {
    forall j: nat | j < |flags| ensures Under(0, j) { RootAboveAll(j); }
  }

  /** The smallest failure: three timers due at 1, 3 and 2, of which the first is cancelled.  The
      answer is 3 although a live timer expires at 2. */
  lemma NearestExpireFails()
    ensures var items := After(Initial(), [Add(0, 1, true), Add(0, 3, true), Add(0, 2, true), Cancel(1)]).items;
            && FirstLive(items) == 1 && items[1].expireAt == 3
            && |items| == 3 && !items[2].cancelled && items[2].expireAt == 2
  {
    var es, flags := [1, 3, 2], [true, false, false];
    var items := Array(es, flags, 0);
    assert HeapOrdered(items);
    AddsReach(es, flags);
    assert Adds(es) == [Add(0, 1, true), Add(0, 3, true), Add(0, 2, true)];
    AfterConcat(Initial(), Adds(es), [Cancel(1)]);
    assert Adds(es) + [Cancel(1)] == [Add(0, 1, true), Add(0, 3, true), Add(0, 2, true), Cancel(1)];
    AfterOne(TimerState(items, 3), Cancel(1));
    CancelsOne(es, flags, 1, 3);
    assert FirstLive(Array(es, flags, 1)) == 1;
  }
}
