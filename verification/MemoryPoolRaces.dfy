/**
 `pre_allocate` takes no lock: it reads the head of the free list into the last link of a new chunk
 and writes the head afterwards.  Other threads allocate and return blocks in between.  The chunk is
 private until the head is written, so its links are modelled at that moment.
 */
module MemoryPoolRaces {
  import opened PoolMemory
  import opened MemoryPools
  import opened MemoryPoolRuns

  /** Writes the head, after the chunk of `n` blocks was linked to the head `h` read earlier. */
  function Publish(p: Pool, g: Grant, n: nat, h: nat): Pool
    requires g.Granted? && Fresh(p, g, n) && n >= 1 && p.size >= WORD
  {
    ChunkHolds(p, g, n);
    p.(head := g.base, mem := Link(p.mem + g.bytes, g.base, p.size, n, h), total := p.total + n, free := p.free + n)
  }

  /* ---- chains are determined by the memory ---- */

  lemma {:induction false} ChainUnique(m: Memory, size: nat, head: nat, a: seq<nat>, b: seq<nat>)
    requires Chain(m, size, head, a) && Chain(m, size, head, b)
    ensures a == b
    decreases |a|
  {
    if a != [] && b != [] {
      BlockHoldsPointer(m, head, size);
      ChainUnique(m, size, Load(m, head), a[1..], b[1..]);
      assert a == [a[0]] + a[1..] && b == [b[0]] + b[1..];
    }
  }

  lemma {:induction false} ChainFrom(m: Memory, size: nat, head: nat, list: seq<nat>, i: nat)
    requires Chain(m, size, head, list) && i < |list|
    ensures Chain(m, size, list[i], list[i..])
    decreases i
  {
    if i == 0 {
      assert list[0..] == list;
    } else {
      BlockHoldsPointer(m, head, size);
      ChainFrom(m, size, Load(m, head), list[1..], i - 1);
      assert list[1..][i - 1..] == list[i..];
    }
  }

  /** Whatever the last link of a chunk points to is visited by every chain through the chunk. */
  lemma {:induction false} ChainThroughLink(m: Memory, base: nat, size: nat, n: nat, h: nat, list: seq<nat>)
    requires n >= 1 && size >= WORD && Holds(m, base, Extent(size, n))
    requires base > 0 && base + Extent(size, n) <= ADDRESS_LIMIT && 0 < h < ADDRESS_LIMIT
    requires Chain(Link(m, base, size, n, h), size, base, list)
    ensures h in list
    decreases n
  {
    hide Store, Load, Holds;
    var r := Link(m, base, size, n, h);
    Part(m, base, Extent(size, n), base, WORD);
    BlockHoldsPointer(r, base, size);
    if n == 1 {
      PointerRoundTrip(m, base, h);
      assert list[1..] != [] && list[1..][0] == h;
    } else {
      Part(m, base, Extent(size, n), base + size, Extent(size, n - 1));
      var first := Store(m, base, base + size);
      SameKeys(m, first, base + size, Extent(size, n - 1));
      SameKeys(m, first, base, WORD);
      PointerRoundTrip(m, base, base + size);
      LoadDepends(first, r, base, WORD) by { FirstUntouched(m, base, size, n, h); }
      assert Load(r, base) == base + size by { LoadIs(first, r, base); }
      ChainThroughLink(first, base + size, size, n - 1, h, list[1..]);
    }
  }

  lemma LoadIs(m: Memory, n: Memory, a: nat)
    requires Holds(m, a, WORD) && Holds(n, a, WORD) && LoadBytes(m, a, WORD) == LoadBytes(n, a, WORD)
    ensures Load(m, a) == Load(n, a)
  {
  }

  lemma FirstUntouched(m: Memory, base: nat, size: nat, n: nat, h: nat)
    requires n >= 2 && size >= WORD && Holds(m, base, Extent(size, n))
    ensures Holds(m, base, WORD)
    ensures var r := Link(m, base, size, n, h);
            forall x :: Inside(x, base, WORD) ==> x in r && r[x] == Store(m, base, base + size)[x]
  {
    hide Store;
    Part(m, base, Extent(size, n), base, WORD);
    Part(m, base, Extent(size, n), base + size, Extent(size, n - 1));
  }

  /* ---- the moment the head is written ---- */

  /** The published list is the chunk followed by what hangs on the old head by now. */
  lemma PublishedChain(p: Pool, g: Grant, n: nat, h: nat, tail: seq<nat>)
    requires g.Granted? && Fresh(p, g, n) && n >= 1 && p.size >= WORD
    requires Chain(p.mem, p.size, h, tail)
    ensures Chain(Publish(p, g, n, h).mem, p.size, g.base, Blocks(g.base, p.size, n) + tail)
  {
    hide Holds, Link, Chain;
    var m := p.mem + g.bytes;
    ChunkHolds(p, g, n);
    ChainBlocks(p.mem, p.size, h, tail);
    assert h < ADDRESS_LIMIT by { assert tail != [] ==> Block(p.mem, tail[0], p.size); }
    ChainDepends(p.mem, m, p.size, h, tail);
    forall b | b in tail
      ensures b + p.size <= g.base || g.base + Extent(p.size, n) <= b
    {
      BlockIsOld(p, g, n, b);
    }
    LinkMakesChain(m, g.base, p.size, n, h, tail);
  }

  /** If the result is sound, nothing of the list was lost. */
  lemma NothingLost(p: Pool, g: Grant, n: nat, held: set<nat>, list: seq<nat>, h: nat, tail: seq<nat>, after: seq<nat>)
    requires Inv(p, held, list) && g.Granted? && Fresh(p, g, n) && n >= 1
    requires Chain(p.mem, p.size, h, tail) && Inv(Publish(p, g, n, h), held, after)
    ensures |tail| == |list|
  {
    hide Chain, Separate, AllBlocks, Link;
    PublishedChain(p, g, n, h, tail);
    ChainUnique(Publish(p, g, n, h).mem, p.size, g.base, Blocks(g.base, p.size, n) + tail, after);
  }

  lemma ListedIsFree(list: seq<nat>, held: set<nat>, size: nat, h: nat)
    requires Separate(list, held, size) && h in list && size > 0
    ensures h !in held
  {
  }

  lemma StillHead(p: Pool, g: Grant, n: nat, held: set<nat>, list: seq<nat>, h: nat, after: seq<nat>)
    requires Inv(p, held, list) && g.Granted? && Fresh(p, g, n) && n >= 1
    requires h == 0 || h in list || h in held
    requires Inv(Publish(p, g, n, h), held, after)
    ensures h == p.head
  {
    hide Chain, Separate, Link, Holds;
    ChainBlocks(p.mem, p.size, p.head, list);
    if h == 0 {
      EmptyChain(p.mem, p.size);
      NothingLost(p, g, n, held, list, 0, [], after);
    } else if h in list {
      var i :| 0 <= i < |list| && list[i] == h;
      ChainFrom(p.mem, p.size, p.head, list, i);
      NothingLost(p, g, n, held, list, h, list[i..], after);
    } else {
      assert Block(p.mem, h, p.size);
      ChunkHolds(p, g, n);
      ChainThroughLink(p.mem + g.bytes, g.base, p.size, n, h, after);
      ListedIsFree(after, held, p.size, h);
    }
  }

  /** The pool is sound after the write iff the head is still the one that was read. */
  lemma PublishSoundIff(p: Pool, g: Grant, n: nat, held: set<nat>, list: seq<nat>, h: nat)
    requires Inv(p, held, list) && g.Granted? && Fresh(p, g, n) && n >= 1
    requires h == 0 || h in list || h in held
    ensures (exists after :: Inv(Publish(p, g, n, h), held, after)) <==> h == p.head
  {
    hide Inv, Fresh, Link;
    assert p.size >= WORD by { SizesOf(p, held, list); }
    if h == p.head {
      BatchKeeps(p, g, n, held, list);
      assert Publish(p, g, n, h) == Batch(p, g, n);
    } else {
      forall after
        ensures !Inv(Publish(p, g, n, h), held, after)
      {
        if Inv(Publish(p, g, n, h), held, after) { StillHead(p, g, n, held, list, h, after); }
      }
    }
  }

  /* ---- whole runs between the read and the write ---- */

  /** A block of the pool: on the free list or outstanding. */
  ghost predicate Known(u: Use, b: nat) {
    exists list :: Inv(u.pool, u.held, list) && (b in list || b in u.held)
  }

  lemma KnownAfterAllocate(u: Use, g: Grant, b: nat, list: seq<nat>)
    requires Sound(u) && Legal(u, Op.Allocate(g)) && Inv(u.pool, u.held, list) && (b in list || b in u.held)
    ensures Known(Next(u, Op.Allocate(g)), b)
  {
    hide Inv, Same;
    var v := Next(u, Op.Allocate(g));
    if u.pool.head != 0 {
      TakeKeeps(u.pool, u.held, list);
      assert list == [list[0]] + list[1..];
      assert Inv(v.pool, v.held, list[1..]);
    } else if g.Granted? {
      NullIsEmpty(u.pool, u.held, list);
      GrowKeeps(u.pool, g, u.held);
      assert Inv(v.pool, v.held, Blocks(g.base + u.pool.size, u.pool.size, u.pool.blockSize - 1));
    }
  }

  lemma KnownStays(u: Use, op: Op, b: nat)
    requires Sound(u) && Legal(u, op) && Known(u, b)
    ensures Known(Next(u, op), b)
  {
    hide Inv, Fresh, Same;
    var list :| Inv(u.pool, u.held, list) && (b in list || b in u.held);
    var v := Next(u, op);
    match op
    case Allocate(g) => KnownAfterAllocate(u, g, b, list);
    case Deallocate(c) =>
      if c != 0 {
        GiveKeeps(u.pool, u.held, list, c);
        assert Inv(v.pool, v.held, [c] + list);
      }
    case Prepare(count, grants) =>
      var l := PreAllocateKeeps(u.pool, count, grants, u.held, list);
      assert Inv(v.pool, v.held, l);
    case Write(a, x) =>
      WriteKeeps(u, list, a, x);
      assert Inv(v.pool, v.held, list);
  }

  lemma {:induction false} KnownInRun(u: Use, ops: seq<Op>, b: nat)
    requires Sound(u) && LegalRun(u, ops) && Known(u, b)
    ensures Known(EndOf(u, ops), b)
    decreases |ops|
  {
    hide Sound, Next, Legal, Known;
    if ops != [] {
      NextKeeps(u, ops[0]);
      KnownStays(u, ops[0], b);
      KnownInRun(Next(u, ops[0]), ops[1..], b);
    }
  }

  lemma HeadIsKnown(u: Use)
    requires Sound(u)
    ensures u.pool.head == 0 || Known(u, u.pool.head)
  {
    hide Separate, AllBlocks;
    var list :| Inv(u.pool, u.held, list);
    ChainBlocks(u.pool.mem, u.pool.size, u.pool.head, list);
  }

  /** A chunk linked to the head of `u` and published after any run of other operations leaves the
      pool sound iff the head is then what it was. */
  lemma UnlockedSoundIff(u: Use, ops: seq<Op>, g: Grant, n: nat)
    requires Sound(u) && LegalRun(u, ops) && g.Granted? && n >= 1
    requires Fresh(EndOf(u, ops).pool, g, n) && EndOf(u, ops).pool.size >= WORD
    ensures var v := EndOf(u, ops);
            (exists after :: Inv(Publish(v.pool, g, n, u.pool.head), v.held, after)) <==> v.pool.head == u.pool.head
  {
    hide Inv, Fresh, Next, Legal, LegalRun, EndOf;
    var v := EndOf(u, ops);
    RunIsSound(u, ops);
    HeadIsKnown(u);
    if u.pool.head != 0 {
      KnownInRun(u, ops, u.pool.head);
      var list :| Inv(v.pool, v.held, list) && (u.pool.head in list || u.pool.head in v.held);
      PublishSoundIff(v.pool, g, n, v.held, list, u.pool.head);
    } else {
      var list :| Inv(v.pool, v.held, list);
      PublishSoundIff(v.pool, g, n, v.held, list, 0);
    }
  }

  lemma {:induction false} LoadOfZeros(m: Memory, a: nat, k: nat)
    requires Holds(m, a, k) && forall x :: Inside(x, a, k) ==> m[x] == 0
    ensures LoadBytes(m, a, k) == 0
    decreases k
  {
    if k > 0 {
      FirstByte(m, a, k);
      LoadOfZeros(m, a + 1, k - 1);
    }
  }

  /** One allocation in between is enough: the block it hands out is on the published list, behind the
      new chunk, and the rest of the old list is gone. */
  lemma HandedOutTwice(p: Pool, held: set<nat>, list: seq<nat>, g: Grant, n: nat)
    requires Inv(p, held, list) && p.head != 0 && g.Granted? && n >= 1
    requires p.free >= 1 && Holds(p.mem, p.head, p.size) && Fresh(Take(p), g, n)
    ensures var q := Publish(Take(p), g, n, p.head);
            Chain(q.mem, p.size, q.head, Blocks(g.base, p.size, n) + [p.head])
    ensures p.head !in held && exists l :: Inv(Take(p), held + {p.head}, l)
  {
    hide Inv, Load, Link;
    assert p.size >= WORD by { SizesOf(p, held, list); }
    TakeKeeps(p, held, list);
    var q, h := Take(p), p.head;
    assert Block(q.mem, h, p.size) by { HeldIsBlock(q, held + {h}, list[1..], h); }
    BlockHoldsPointer(q.mem, h, p.size);
    LoadOfZeros(q.mem, h, WORD);
    assert Load(q.mem, h) == 0 by { LoadIsBytes(q.mem, h); }
    assert [h][1..] == [];
    PublishedChain(q, g, n, h, [h]);
  }

  lemma LoadIsBytes(m: Memory, a: nat)
    requires Holds(m, a, WORD)
    ensures Load(m, a) == LoadBytes(m, a, WORD)
  {
  }

  lemma HeldIsBlock(p: Pool, held: set<nat>, list: seq<nat>, h: nat)
    requires Inv(p, held, list) && h in held
    ensures Block(p.mem, h, p.size)
  {
  }
}
