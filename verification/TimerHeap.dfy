/**
 The binary min-heap of timers, kept in a sequence with the earliest expiry at index 0:
 sift-up after an insertion and sift-down after the root has been removed.
 */
module TimerHeap {

  /** One timer.  `origin` is history: the id its lineage was given when it was first added, which
      stays the same while a repeating timer gets a new id at every firing. */
  datatype Item = Item(id: int, expireAt: int, interval: int, cancelled: bool, origin: int)

  function Parent(i: nat): (p: nat)
    requires i > 0
    ensures p < i
  {
    (i - 1) / 2
  }

  /** Item `i` does not expire before its parent. */
  predicate Fits(s: seq<Item>, i: nat)
    requires 0 < i < |s|
  {
    s[Parent(i)].expireAt <= s[i].expireAt
  }

  predicate HeapOrdered(s: seq<Item>) {
    forall i :: 0 < i < |s| ==> Fits(s, i)
  }

  function Swap(s: seq<Item>, i: nat, j: nat): (t: seq<Item>)
    requires i < |s| && j < |s|
    ensures |t| == |s|
  {
    s[i := s[j]][j := s[i]]
  }

  lemma SwapKeeps(s: seq<Item>, i: nat, j: nat)
    requires i < |s| && j < |s|
    ensures multiset(Swap(s, i, j)) == multiset(s)
  {
  }

  /* ---- sift-up ---- */

  function SiftUp(s: seq<Item>, k: nat): (t: seq<Item>)
    requires k < |s|
    ensures |t| == |s|
    decreases k
  {
    if k == 0 || Fits(s, k) then s else SiftUp(Swap(s, k, Parent(k)), Parent(k))
  }

  /** Heap order with a possible exception at `k`, whose children already suit its parent. */
  predicate UpOrdered(s: seq<Item>, k: nat)
    requires k < |s|
  {
    && (forall i :: 0 < i < |s| && i != k ==> Fits(s, i))
    && (forall i :: 0 < i < |s| && k > 0 && Parent(i) == k ==> s[Parent(k)].expireAt <= s[i].expireAt)
  }

  lemma {:induction false} SiftUpKeeps(s: seq<Item>, k: nat)
    requires k < |s|
    ensures multiset(SiftUp(s, k)) == multiset(s)
    ensures UpOrdered(s, k) ==> HeapOrdered(SiftUp(s, k))
    decreases k
  {
    if k > 0 && !Fits(s, k) {
      var p := Parent(k);
      SwapKeeps(s, k, p);
      if UpOrdered(s, k) { SwapUp(s, k); }
      SiftUpKeeps(Swap(s, k, p), p);
    }
  }

  lemma SwapUp(s: seq<Item>, k: nat)
    requires 0 < k < |s| && UpOrdered(s, k) && !Fits(s, k)
    ensures UpOrdered(Swap(s, k, Parent(k)), Parent(k))
  {
    var p := Parent(k);
    var t := Swap(s, k, p);
    assert p > 0 ==> Fits(s, p);
    forall i | 0 < i < |t| && i != p
      ensures Fits(t, i)
    {
      if i != k { assert Fits(s, i); }
    }
    forall i | 0 < i < |t| && p > 0 && Parent(i) == p
      ensures t[Parent(p)].expireAt <= t[i].expireAt
    {
      if i != k { assert Fits(s, i); }
    }
  }

  /** The root after a sift-up is the old root or the item sifted. */
  lemma {:induction false} SiftUpRoot(s: seq<Item>, k: nat)
    requires k < |s|
    ensures SiftUp(s, k)[0] == s[0] || SiftUp(s, k)[0] == s[k]
    decreases k
  {
    if k > 0 && !Fits(s, k) {
      SiftUpRoot(Swap(s, k, Parent(k)), Parent(k));
    }
  }

  /* ---- sift-down ---- */

  function SmallerChild(s: seq<Item>, k: nat): (c: nat)
    requires 2 * k + 1 < |s|
    ensures k < c < |s| && Parent(c) == k
  {
    if 2 * k + 2 < |s| && s[2 * k + 2].expireAt < s[2 * k + 1].expireAt then 2 * k + 2 else 2 * k + 1
  }

  function SiftDown(s: seq<Item>, k: nat): (t: seq<Item>)
    requires k < |s|
    ensures |t| == |s|
    decreases |s| - k
  {
    if 2 * k + 1 >= |s| then s
    else
      var c := SmallerChild(s, k);
      if s[k].expireAt <= s[c].expireAt then s else SiftDown(Swap(s, k, c), c)
  }

  /** Heap order with possible exceptions below `k`, whose children already suit its parent. */
  predicate DownOrdered(s: seq<Item>, k: nat)
    requires k < |s|
  {
    && (forall i :: 0 < i < |s| && Parent(i) != k ==> Fits(s, i))
    && (forall i :: 0 < i < |s| && k > 0 && Parent(i) == k ==> s[Parent(k)].expireAt <= s[i].expireAt)
  }

  lemma {:induction false} SiftDownKeeps(s: seq<Item>, k: nat)
    requires k < |s|
    ensures multiset(SiftDown(s, k)) == multiset(s)
    ensures DownOrdered(s, k) ==> HeapOrdered(SiftDown(s, k))
    decreases |s| - k
  {
    if 2 * k + 1 < |s| {
      var c := SmallerChild(s, k);
      if s[k].expireAt > s[c].expireAt {
        SwapKeeps(s, k, c);
        if DownOrdered(s, k) { SwapDown(s, k); }
        SiftDownKeeps(Swap(s, k, c), c);
      }
    }
  }

  lemma SwapDown(s: seq<Item>, k: nat)
    requires 2 * k + 1 < |s| && DownOrdered(s, k) && s[k].expireAt > s[SmallerChild(s, k)].expireAt
    ensures DownOrdered(Swap(s, k, SmallerChild(s, k)), SmallerChild(s, k))
  {
    var c := SmallerChild(s, k);
    var t := Swap(s, k, c);
    forall i | 0 < i < |t| && Parent(i) != c
      ensures Fits(t, i)
    {
      if Parent(i) == k {
        assert i == 2 * k + 1 || i == 2 * k + 2;
      } else {
        assert Fits(s, i);
        if i == k { assert s[Parent(k)].expireAt <= s[c].expireAt; }
      }
    }
    forall i | 0 < i < |t| && Parent(i) == c
      ensures t[Parent(c)].expireAt <= t[i].expireAt
    {
      assert Fits(s, i);
    }
  }

  /* ---- push and pop ---- */

  function Push(s: seq<Item>, x: Item): (t: seq<Item>)
    ensures |t| == |s| + 1
  {
    SiftUp(s + [x], |s|)
  }

  /** What remains once the root has been moved out. */
  function PopRest(s: seq<Item>): (t: seq<Item>)
    requires s != []
    ensures |t| == |s| - 1
  {
    var last := |s| - 1;
    if last == 0 then [] else SiftDown(s[..last][0 := s[last]], 0)
  }

  lemma PushKeeps(s: seq<Item>, x: Item)
    ensures multiset(Push(s, x)) == multiset(s) + multiset{x}
    ensures HeapOrdered(s) ==> HeapOrdered(Push(s, x))
    ensures Push(s, x)[0] == x || (s != [] && Push(s, x)[0] == s[0])
  {
    SiftUpKeeps(s + [x], |s|);
    SiftUpRoot(s + [x], |s|);
    if HeapOrdered(s) {
      assert forall i :: 0 < i < |s| ==> Fits(s, i) ==> Fits(s + [x], i);
      assert UpOrdered(s + [x], |s|);
    }
  }

  lemma PopKeeps(s: seq<Item>)
    requires s != []
    ensures multiset(s) == multiset(PopRest(s)) + multiset{s[0]}
    ensures HeapOrdered(s) ==> HeapOrdered(PopRest(s))
  {
    var last := |s| - 1;
    if last > 0 {
      var t := s[..last][0 := s[last]];
      assert s == [s[0]] + s[1..last] + [s[last]];
      assert t == [s[last]] + s[1..last];
      SiftDownKeeps(t, 0);
      if HeapOrdered(s) {
        assert forall i :: 0 < i < last && Parent(i) != 0 ==> Fits(s, i) ==> Fits(t, i);
        assert DownOrdered(t, 0);
      }
    } else {
      assert s == [s[0]];
    }
  }

  /** The root of a heap expires first. */
  lemma {:induction false} RootIsEarliest(s: seq<Item>, i: nat)
    requires HeapOrdered(s) && i < |s|
    ensures s[0].expireAt <= s[i].expireAt
    decreases i
  {
    if i > 0 {
      assert Fits(s, i);
      RootIsEarliest(s, Parent(i));
    }
  }

  lemma RootBounds(s: seq<Item>)
    requires HeapOrdered(s) && s != []
    ensures forall x :: x in s ==> s[0].expireAt <= x.expireAt
  {
    forall x | x in s
      ensures s[0].expireAt <= x.expireAt
    {
      var i :| 0 <= i < |s| && s[i] == x;
      RootIsEarliest(s, i);
    }
  }

  /* ---- the loops of push_heap and pop_heap ---- */

  /** All but the last item are a heap; moves the last one to its place. */
  method PushHeap(v: seq<Item>) returns (t: seq<Item>)
    requires v != []
    ensures t == Push(v[..|v| - 1], v[|v| - 1])
  {
    assert v == v[..|v| - 1] + [v[|v| - 1]];
    t := v;
    var k := |t| - 1;
    while k > 0 && t[(k - 1) / 2].expireAt > t[k].expireAt
      invariant 0 <= k < |t| && SiftUp(t, k) == SiftUp(v, |v| - 1)
      decreases k
    {
      var p := (k - 1) / 2;
      t := t[k := t[p]][p := t[k]];
      k := p;
    }
  }

  lemma SiftDownStep(s: seq<Item>, k: nat)
    requires 2 * k + 1 < |s| && s[k].expireAt > s[SmallerChild(s, k)].expireAt
    ensures var c := SmallerChild(s, k);
            SiftDown(s, k) == SiftDown(s[k := s[c]][c := s[k]], c)
  {
  }

  /** Moves the root behind the heap made of the others. */
  method PopHeap(v: seq<Item>) returns (t: seq<Item>)
    requires v != []
    ensures t == PopRest(v) + [v[0]]
  {
    var last := |v| - 1;
    if last == 0 { return v; }
    var u := v[..last][0 := v[last]];
    assert PopRest(v) == SiftDown(u, 0);
    hide PopRest;
    var k := 0;
    while 2 * k + 1 < |u|
      invariant 0 <= k < |u| == last && SiftDown(u, k) == PopRest(v)
      decreases |u| - k
    {
      var c := 2 * k + 1;
      if c + 1 < |u| && u[c + 1].expireAt < u[c].expireAt { c := c + 1; }
      assert c == SmallerChild(u, k);
      if u[k].expireAt <= u[c].expireAt { break; }
      SiftDownStep(u, k);
      u := u[k := u[c]][c := u[k]];
      k := c;
    }
    t := u + [v[0]];
  }
}
