/**
 What `pre_allocate` of the object pool does when one thread has the pool to itself: each round
 allocates an object and returns it at once, so every round after the first finds the slot it just
 returned; a constructor that throws ends the loop.
 */
module ObjectPoolWarmup {
  import opened ObjectPools

  /** The end of an allocation with `n` objects out already: either the object is made and returned
      at once, or its constructor throws and the slot goes back. */
  function Finish(t: nat, n: nat, ok: bool): seq<Step> {
    if ok then [Count(t), Construct(t, true), Deallocate(t, n), Push(t), Uncount(t)]
    else [Count(t), Construct(t, false), PushBack(t), Uncount(t)]
  }

  /** One round of the loop, as the steps of the machine. */
  function Round(p: Pool, t: nat, ok: bool): seq<Step> {
    (if p.free == [] then [Pop(t), Grow(t), PopAgain(t)] else [Pop(t)]) + Finish(t, |p.held|, ok)
  }

  /** A pool that had no free slot has one more chunk; any other is as before. */
  function Warmed(p: Pool): Pool {
    if p.free == []
    then p.(free := ChunkSlots(p.chunks, CHUNK_SIZE), freeSize := p.freeSize + CHUNK_SIZE, chunks := p.chunks + 1)
    else p
  }

  /** At most `count` rounds; the one with index `throwing`, if it is reached, is the last. */
  function Rounds(p: Pool, t: nat, count: nat, throwing: nat): seq<Step>
    decreases count
  {
    if count == 0 then []
    else if throwing == 0 then Round(p, t, false)
    else Round(p, t, true) + Rounds(Warmed(p), t, count - 1, throwing - 1)
  }

  lemma StepThen(p: Pool, s: Step, rest: seq<Step>, q: Pool)
    requires Enabled(p, s) && Reaches(Next(p, s), rest, q)
    ensures Reaches(p, [s] + rest, q)
  {
    hide Enabled, Next;
    assert ([s] + rest)[1..] == rest;
  }

  lemma FinishReturns(p: Pool, t: nat, q: Pool)
    requires t < |p.threads| && p.threads[t].Popped?
    requires q == p.(free := [p.threads[t].slot] + p.free, freeSize := p.freeSize + 1, threads := p.threads[t := Idle])
    ensures Reaches(p, Finish(t, |p.held|, true), q)
  {
    hide Reaches;
    var n := |p.held|;
    var a := Next(p, Count(t));
    var b := Next(a, Construct(t, true));
    var c := Next(b, Deallocate(t, n));
    var d := Next(c, Push(t));
    assert c.held == p.held;
    assert Next(d, Uncount(t)) == q;
    assert Reaches(q, [], q) by { Stays(q); }
    var s1 := [Uncount(t)] + [];
    var s2 := [Push(t)] + s1;
    var s3 := [Deallocate(t, n)] + s2;
    var s4 := [Construct(t, true)] + s3;
    StepThen(d, Uncount(t), [], q);
    StepThen(c, Push(t), s1, q);
    StepThen(b, Deallocate(t, n), s2, q);
    StepThen(a, Construct(t, true), s3, q);
    StepThen(p, Count(t), s4, q);
    assert [Count(t)] + s4 == Finish(t, n, true);
  }

  lemma ThrowReturns(p: Pool, t: nat, q: Pool)
    requires t < |p.threads| && p.threads[t].Popped?
    requires q == p.(free := [p.threads[t].slot] + p.free, freeSize := p.freeSize + 1, threads := p.threads[t := Idle])
    ensures Reaches(p, Finish(t, |p.held|, false), q)
  {
    hide Reaches;
    var a := Next(p, Count(t));
    var b := Next(a, Construct(t, false));
    var c := Next(b, PushBack(t));
    assert Next(c, Uncount(t)) == q;
    assert Reaches(q, [], q) by { Stays(q); }
    var s1 := [Uncount(t)] + [];
    var s2 := [PushBack(t)] + s1;
    var s3 := [Construct(t, false)] + s2;
    StepThen(c, Uncount(t), [], q);
    StepThen(b, PushBack(t), s1, q);
    StepThen(a, Construct(t, false), s2, q);
    StepThen(p, Count(t), s3, q);
    assert [Count(t)] + s3 == Finish(t, |p.held|, false);
  }

  lemma FinishEither(p: Pool, t: nat, ok: bool, q: Pool)
    requires t < |p.threads| && p.threads[t].Popped?
    requires q == p.(free := [p.threads[t].slot] + p.free, freeSize := p.freeSize + 1, threads := p.threads[t := Idle])
    ensures Reaches(p, Finish(t, |p.held|, ok), q)
  {
    hide Reaches, Finish;
    if ok { FinishReturns(p, t, q); } else { ThrowReturns(p, t, q); }
  }

  lemma Stays(p: Pool)
    ensures Reaches(p, [], p)
  {
  }

  lemma RoundWarms(p: Pool, t: nat, ok: bool)
    requires t < |p.threads| && p.threads[t].Idle?
    ensures Reaches(p, Round(p, t, ok), Warmed(p))
  {
    hide Reaches, Finish, ChunkSlots;
    var q, rest := Warmed(p), Finish(t, |p.held|, ok);
    if p.free != [] {
      var a := Next(p, Pop(t));
      assert [p.free[0]] + p.free[1..] == p.free && a.threads[t := Idle] == p.threads;
      FinishEither(a, t, ok, q);
      StepThen(p, Pop(t), rest, q);
    } else {
      var a := Next(p, Pop(t));
      var b := Next(a, Grow(t));
      var c := Next(b, PopAgain(t));
      assert b.free == q.free;
      assert [b.free[0]] + b.free[1..] == q.free && c.threads[t := Idle] == p.threads;
      FinishEither(c, t, ok, q);
      StepThen(b, PopAgain(t), rest, q);
      StepThen(a, Grow(t), [PopAgain(t)] + rest, q);
      StepThen(p, Pop(t), [Grow(t)] + ([PopAgain(t)] + rest), q);
      assert [Pop(t)] + ([Grow(t)] + ([PopAgain(t)] + rest)) == [Pop(t), Grow(t), PopAgain(t)] + rest;
    }
  }

  /** Whatever the count and whichever constructor throws, a pre-allocation adds at most one chunk,
      and only to an empty list. */
  lemma {:induction false} WarmUp(p: Pool, t: nat, count: nat, throwing: nat)
    requires t < |p.threads| && p.threads[t].Idle?
    ensures Reaches(p, Rounds(p, t, count, throwing), if count == 0 then p else Warmed(p))
    decreases count
  {
    hide Reaches, Round, ChunkSlots;
    if count == 0 {
      Stays(p);
    } else if throwing == 0 {
      RoundWarms(p, t, false);
    } else {
      RoundWarms(p, t, true);
      WarmUp(Warmed(p), t, count - 1, throwing - 1);
      ReachesJoin(p, Round(p, t, true), Warmed(p), Rounds(Warmed(p), t, count - 1, throwing - 1), Warmed(p));
    }
  }

  /** So the requested number of objects is ready afterwards iff it was before, or the list was
      empty and one chunk is enough. */
  lemma WarmUpReservesIff(p: Pool, t: nat, count: nat, throwing: nat) returns (q: Pool)
    requires t < |p.threads| && p.threads[t].Idle?
    ensures Reaches(p, Rounds(p, t, count, throwing), q)
    ensures |q.free| >= count <==> count <= |p.free| || (p.free == [] && count <= 64)
  {
    WarmUp(p, t, count, throwing);
    q := if count == 0 then p else Warmed(p);
  }

  function Constructions(steps: seq<Step>): nat {
    if steps == [] then 0 else (if steps[0].Construct? then 1 else 0) + Constructions(steps[1..])
  }

  lemma {:induction false} ConstructionsConcat(a: seq<Step>, b: seq<Step>)
    ensures Constructions(a + b) == Constructions(a) + Constructions(b)
    decreases |a|
  {
    if a == [] {
      assert a + b == b;
    } else {
      assert (a + b)[0] == a[0] && (a + b)[1..] == a[1..] + b;
      ConstructionsConcat(a[1..], b);
    }
  }

  lemma OneConstruction(p: Pool, t: nat, ok: bool)
    ensures Constructions(Round(p, t, ok)) == 1
  {
    var n := |p.held|;
    var s := Finish(t, n, ok);
    assert s[1..][1..] == if ok then [Deallocate(t, n), Push(t), Uncount(t)] else [PushBack(t), Uncount(t)];
    assert Constructions([Uncount(t)]) == 0 by { assert [Uncount(t)][1..] == []; }
    assert Constructions([Push(t), Uncount(t)]) == 0 by { assert [Push(t), Uncount(t)][1..] == [Uncount(t)]; }
    assert Constructions(s[1..][1..]) == 0 by {
      assert s[1..][1..][1..] == if ok then [Push(t), Uncount(t)] else [Uncount(t)];
    }
    assert Constructions(s) == 1;
    var start: seq<Step> := if p.free == [] then [Pop(t), Grow(t), PopAgain(t)] else [Pop(t)];
    ConstructionsConcat(start, s);
    assert Constructions([PopAgain(t)]) == 0 by { assert [PopAgain(t)][1..] == []; }
    assert Constructions([Pop(t)]) == 0 by { assert [Pop(t)][1..] == []; }
    assert Constructions([Pop(t), Grow(t), PopAgain(t)]) == 0 by {
      assert [Pop(t), Grow(t), PopAgain(t)][1..] == [Grow(t), PopAgain(t)];
      assert [Grow(t), PopAgain(t)][1..] == [PopAgain(t)];
    }
  }

  /** The loop constructs `count` objects, or stops with the one that throws. */
  lemma {:induction false} RoundsConstruct(p: Pool, t: nat, count: nat, throwing: nat)
    ensures Constructions(Rounds(p, t, count, throwing)) == if count <= throwing then count else throwing + 1
    decreases count
  {
    hide Round;
    if count > 0 {
      if throwing == 0 {
        OneConstruction(p, t, false);
      } else {
        OneConstruction(p, t, true);
        RoundsConstruct(Warmed(p), t, count - 1, throwing - 1);
        ConstructionsConcat(Round(p, t, true), Rounds(Warmed(p), t, count - 1, throwing - 1));
      }
    }
  }
}
