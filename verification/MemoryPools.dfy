/**
 The fixed-size memory pool: an intrusive free list inside the blocks themselves, grown by
 `malloc`.  The state is the raw memory of all chunks, the head pointer and the two counters.
 */
module MemoryPools {
  import opened PoolMemory

  datatype Pool = Pool(size: nat, blockSize: nat, head: nat, mem: Memory, total: nat, free: nat)

  /** What `malloc` returns: a null pointer, or a region with arbitrary contents. */
  datatype Grant = Null | Granted(base: nat, bytes: Memory)

  /** `malloc` promises a region of `n` blocks that overlaps nothing handed out before. */
  ghost predicate Fresh(p: Pool, g: Grant, n: nat) {
    g.Granted? ==>
      && g.base > 0 && g.base + Extent(p.size, n) <= ADDRESS_LIMIT
      && (forall x :: x in g.bytes <==> Inside(x, g.base, Extent(p.size, n)))
      && g.bytes.Keys !! p.mem.Keys
  }

  /** Free and outstanding blocks, among and between themselves, share no byte. */
  ghost predicate Separate(list: seq<nat>, held: set<nat>, size: nat) {
    && AllApart(list, size)
    && (forall h, k :: h in held && k in held && h != k ==> Apart(h, k, size))
    && (forall b, h :: b in list && h in held ==> Apart(b, h, size))
  }

  ghost predicate AllBlocks(m: Memory, held: set<nat>, size: nat) {
    forall h :: h in held ==> Block(m, h, size)
  }

  /** The pool is sound: `list` is the free list, `held` the outstanding blocks; no two blocks
      share a byte and the counters count them. */
  ghost predicate Inv(p: Pool, held: set<nat>, list: seq<nat>) {
    && p.size >= WORD
    && Chain(p.mem, p.size, p.head, list)
    && AllBlocks(p.mem, held, p.size)
    && Separate(list, held, p.size)
    && p.free == |list| && p.total == |list| + |held|
  }

  lemma SeparateTake(list: seq<nat>, held: set<nat>, size: nat)
    requires Separate(list, held, size) && list != [] && size > 0
    ensures list[0] !in held && Separate(list[1..], held + {list[0]}, size)
    ensures forall c :: c in list[1..] ==> Apart(list[0], c, size)
    ensures forall h :: h in held ==> Apart(list[0], h, size)
  {
    assert list[0] in list;
    forall h | h in held ensures Apart(list[0], h, size) && h != list[0] {}
    forall c | c in list[1..]
      ensures Apart(list[0], c, size) && c in list
    {
      var k :| 0 <= k < |list[1..]| && list[1..][k] == c;
      assert list[k + 1] == c;
    }
  }

  lemma SeparateGive(list: seq<nat>, held: set<nat>, size: nat, b: nat)
    requires Separate(list, held, size) && b in held
    ensures Separate([b] + list, held - {b}, size)
    ensures forall c :: c in list ==> Apart(b, c, size)
    ensures forall h :: h in held - {b} ==> Apart(b, h, size)
  {
    forall c | c in list ensures Apart(b, c, size) { assert Apart(c, b, size); }
  }

  /** New blocks inside a region that no old block touches. */
  lemma SeparateGrow(list: seq<nat>, held: set<nat>, size: nat, added: seq<nat>, taken: set<nat>,
                     base: nat, extent: nat)
    requires Separate(list, held, size) && Separate(added, taken, size)
    requires forall b :: b in list || b in held ==> b + size <= base || base + extent <= b
    requires forall b :: b in added || b in taken ==> base <= b && b + size <= base + extent
    ensures Separate(added + list, held + taken, size)
  {
    var all := added + list;
    forall i, j | 0 <= i < j < |all|
      ensures Apart(all[i], all[j], size)
    {
      if i < |added| {
        assert all[i] in added;
        if j >= |added| { assert all[j] in list; }
      }
    }
  }

  /** Block `b` has the same contents in both memories. */
  ghost predicate Same(m: Memory, n: Memory, b: nat, size: nat) {
    forall x :: Inside(x, b, size) && x in m ==> x in n && n[x] == m[x]
  }

  /* ---- allocate ---- */

  /** Takes the head of the free list and clears it. */
  function Take(p: Pool): Pool
    requires Holds(p.mem, p.head, p.size) && p.size >= WORD && p.free >= 1
  {
    Part(p.mem, p.head, p.size, p.head, WORD);
    p.(head := Load(p.mem, p.head), mem := ZeroFill(p.mem, p.head, p.size), free := p.free - 1)
  }

  /** The free-list links written into a fresh chunk: its blocks from the second on, or the null
      pointer into its only block. */
  function LinkChunk(m: Memory, base: nat, size: nat, n: nat): (r: Memory)
    requires Holds(m, base, Extent(size, n)) && n >= 1 && size >= WORD
    ensures r.Keys == m.Keys
    ensures forall x :: x in m && !Inside(x, base, Extent(size, n)) ==> r[x] == m[x]
  {
    Part(m, base, Extent(size, n), base, WORD);
    Part(m, base, Extent(size, n), base + size, Extent(size, n - 1));
    if n == 1 then Store(m, base, 0) else Link(m, base + size, size, n - 1, 0)
  }

  /** Adds a chunk, links it, clears and keeps its first block. */
  function Grow(p: Pool, g: Grant): Pool
    requires g.Granted? && Fresh(p, g, p.blockSize) && p.blockSize >= 1 && p.size >= WORD
  {
    var m := p.mem + g.bytes;
    ChunkHolds(p, g, p.blockSize);
    var linked := LinkChunk(m, g.base, p.size, p.blockSize);
    Part(m, g.base, Extent(p.size, p.blockSize), g.base, p.size);
    SameKeys(m, linked, g.base, p.size);
    p.(head := g.base + p.size, mem := ZeroFill(linked, g.base, p.size),
       total := p.total + p.blockSize, free := p.free + p.blockSize - 1)
  }

  lemma ChunkHolds(p: Pool, g: Grant, n: nat)
    requires g.Granted? && Fresh(p, g, n)
    ensures Holds(p.mem + g.bytes, g.base, Extent(p.size, n))
  {
  }

  lemma BlockIsOld(p: Pool, g: Grant, n: nat, b: nat)
    requires g.Granted? && Fresh(p, g, n) && Block(p.mem, b, p.size) && n >= 1
    ensures b + p.size <= g.base || g.base + Extent(p.size, n) <= b
    ensures Block(p.mem + g.bytes, b, p.size)
  {
    if b < g.base + Extent(p.size, n) && g.base < b + p.size {
      var x := if b < g.base then g.base else b;
      assert Inside(x, b, p.size) && Inside(x, g.base, Extent(p.size, n));
    }
  }

  lemma ZeroKeepsChain(m: Memory, size: nat, head: nat, list: seq<nat>, b: nat)
    requires Chain(m, size, head, list) && Holds(m, b, size)
    requires forall c :: c in list ==> Apart(b, c, size)
    ensures Chain(ZeroFill(m, b, size), size, head, list)
  {
    ChainDepends(m, ZeroFill(m, b, size), size, head, list);
  }

  /** Taking from the list hands out a cleared block and touches no byte of any other block. */
  lemma TakeKeeps(p: Pool, held: set<nat>, list: seq<nat>)
    requires Inv(p, held, list) && p.head != 0
    ensures list != [] && p.head == list[0] && p.head !in held && p.free >= 1 && Holds(p.mem, p.head, p.size)
    ensures Inv(Take(p), held + {p.head}, list[1..])
    ensures forall h :: h in held ==> Same(p.mem, Take(p).mem, h, p.size)
    ensures forall x :: Inside(x, p.head, p.size) ==> Take(p).mem[x] == 0
  {
    hide Load, Holds, Separate;
    ChainBlocks(p.mem, p.size, p.head, list);
    SeparateTake(list, held, p.size);
    var b, rest := p.head, list[1..];
    assert Chain(p.mem, p.size, Load(p.mem, b), rest) by { BlockHoldsPointer(p.mem, b, p.size); }
    ZeroKeepsChain(p.mem, p.size, Load(p.mem, b), rest, b);
    var m := Take(p).mem;
    forall h | h in held + {b}
      ensures Block(m, h, p.size)
    {
      SameKeys(p.mem, m, h, p.size);
    }
  }

  lemma EmptyChain(m: Memory, size: nat)
    ensures Chain(m, size, 0, [])
  {
  }

  lemma LinkChunkMakesChain(m: Memory, base: nat, size: nat, n: nat)
    requires Holds(m, base, Extent(size, n)) && n >= 2 && size >= WORD
    requires base > 0 && base + Extent(size, n) <= ADDRESS_LIMIT
    ensures Chain(LinkChunk(m, base, size, n), size, base + size, Blocks(base + size, size, n - 1))
  {
    hide Chain, Store, Link, Holds;
    Part(m, base, Extent(size, n), base + size, Extent(size, n - 1));
    EmptyChain(m, size);
    LinkMakesChain(m, base + size, size, n - 1, 0, []);
    assert Blocks(base + size, size, n - 1) + [] == Blocks(base + size, size, n - 1);
  }

  /** The list after growth is the chunk from its second block on. */
  lemma GrowChain(p: Pool, g: Grant)
    requires g.Granted? && Fresh(p, g, p.blockSize) && p.blockSize >= 2 && p.size >= WORD
    ensures Chain(Grow(p, g).mem, p.size, Grow(p, g).head, Blocks(g.base + p.size, p.size, p.blockSize - 1))
  {
    hide Chain, LinkChunk, Holds;
    var m := p.mem + g.bytes;
    ChunkHolds(p, g, p.blockSize);
    LinkChunkMakesChain(m, g.base, p.size, p.blockSize);
    var list, linked := Blocks(g.base + p.size, p.size, p.blockSize - 1), LinkChunk(m, g.base, p.size, p.blockSize);
    forall c | c in list
      ensures Apart(g.base, c, p.size)
    {
      BlocksInside(g.base + p.size, p.size, p.blockSize - 1, c);
    }
    Part(m, g.base, Extent(p.size, p.blockSize), g.base, p.size);
    SameKeys(m, linked, g.base, p.size);
    ZeroKeepsChain(linked, p.size, g.base + p.size, list, g.base);
  }

  /** Growth changes no byte that was in the pool before and clears the block it hands out. */
  lemma GrowMemory(p: Pool, g: Grant)
    requires g.Granted? && Fresh(p, g, p.blockSize) && p.blockSize >= 1 && p.size >= WORD
    ensures Grow(p, g).mem.Keys == p.mem.Keys + g.bytes.Keys
    ensures forall x :: x in p.mem ==> Grow(p, g).mem[x] == p.mem[x]
    ensures forall x :: Inside(x, g.base, p.size) ==> x in Grow(p, g).mem && Grow(p, g).mem[x] == 0
  {
    hide LinkChunk;
    var m := p.mem + g.bytes;
    ChunkHolds(p, g, p.blockSize);
    Part(m, g.base, Extent(p.size, p.blockSize), g.base, p.size);
    forall x | x in p.mem
      ensures Grow(p, g).mem[x] == p.mem[x]
    {
      assert x !in g.bytes;
    }
  }

  lemma OneBlock(b: nat, added: seq<nat>, size: nat)
    requires AllApart(added, size) && forall c :: c in added ==> b + size <= c
    ensures Separate(added, {b}, size)
  {
  }

  /** Growing hands out the first block of the chunk and puts the others on the list. */
  lemma GrowKeeps(p: Pool, g: Grant, held: set<nat>)
    requires Inv(p, held, []) && g.Granted? && Fresh(p, g, p.blockSize) && p.blockSize >= 2
    ensures Inv(Grow(p, g), held + {g.base}, Blocks(g.base + p.size, p.size, p.blockSize - 1)) && g.base !in held
    ensures forall h :: h in held ==> Same(p.mem, Grow(p, g).mem, h, p.size)
    ensures forall x :: Inside(x, g.base, p.size) ==> Grow(p, g).mem[x] == 0
  {
    hide Holds, LinkChunk, Chain, Separate;
    GrowChain(p, g);
    GrowMemory(p, g);
    var q, extent := Grow(p, g), Extent(p.size, p.blockSize);
    var list := Blocks(g.base + p.size, p.size, p.blockSize - 1);
    BlocksApart(g.base + p.size, p.size, p.blockSize - 1);
    forall h | h in held
      ensures Block(q.mem, h, p.size) && (h + p.size <= g.base || g.base + extent <= h)
    {
      BlockIsOld(p, g, p.blockSize, h);
      SameKeys(p.mem, q.mem, h, p.size);
    }
    forall c | c in list
      ensures g.base + p.size <= c && c + p.size <= g.base + extent
    {
      BlocksInside(g.base + p.size, p.size, p.blockSize - 1, c);
    }
    OneBlock(g.base, list, p.size);
    SeparateGrow([], held, p.size, list, {g.base}, g.base, extent);
    assert list + [] == list;
    assert Block(q.mem, g.base, p.size) by {
      ChunkHolds(p, g, p.blockSize);
      Part(p.mem + g.bytes, g.base, extent, g.base, p.size);
      SameKeys(p.mem + g.bytes, q.mem, g.base, p.size);
    }
    assert g.base !in held;
  }

  /** The block that gets the null pointer: `n - 1` in 64-bit arithmetic. */
  function LastIndex(n: nat): nat
    requires n < ADDRESS_LIMIT
  {
    (n + ADDRESS_LIMIT - 1) % ADDRESS_LIMIT
  }

  lemma LastIndexInside(n: nat)
    requires n < ADDRESS_LIMIT
    ensures LastIndex(n) < n <==> n >= 1
  {
  }

  /** Growth writes only inside its chunk and leaves a sound pool. */
  ghost predicate GrowthSound(p: Pool, g: Grant, held: set<nat>)
    requires g.Granted? && Fresh(p, g, p.blockSize) && p.size >= WORD && p.blockSize < ADDRESS_LIMIT
  {
    LastIndex(p.blockSize) < p.blockSize && exists list :: Inv(Grow(p, g), held + {g.base}, list)
  }

  /** The growth path is sound iff a chunk has at least two blocks: with one, the new list head
      points behind the chunk; with none, the last link is stored outside it. */
  lemma GrowthSoundIff(p: Pool, g: Grant, held: set<nat>)
    requires Inv(p, held, []) && g.Granted? && Fresh(p, g, p.blockSize) && p.blockSize < ADDRESS_LIMIT
    ensures GrowthSound(p, g, held) <==> p.blockSize >= 2
  {
    LastIndexInside(p.blockSize);
    if p.blockSize >= 2 {
      GrowKeeps(p, g, held);
    } else if p.blockSize == 1 {
      forall list
        ensures !Inv(Grow(p, g), held + {g.base}, list)
      {
        OnlyBlock(Grow(p, g), held + {g.base}, list);
      }
    }
  }

  /** A pool with chunks of one block, empty, that is granted eight bytes. */
  lemma OneBlockFails()
    ensures var p, g := Pool(8, 1, 0, map[], 0, 0), Granted(8, ZeroBytes(8, 8));
            Inv(p, {}, []) && Fresh(p, g, 1) && !GrowthSound(p, g, {})
  {
    var p, g := Pool(8, 1, 0, map[], 0, 0), Granted(8, ZeroBytes(8, 8));
    assert Extent(8, 1) == 8 + Extent(8, 0);
    GrowthSoundIff(p, g, {});
  }

  function ZeroBytes(base: nat, n: nat): (m: Memory)
    ensures forall x :: x in m <==> Inside(x, base, n)
    decreases n
  {
    if n == 0 then map[] else ZeroBytes(base, n - 1)[base + n - 1 := 0]
  }

  /** An empty free list has a null head. */
  lemma OnlyBlock(q: Pool, held: set<nat>, list: seq<nat>)
    requires q.free == 0 && q.head != 0
    ensures !Inv(q, held, list)
  {
  }

  /* ---- deallocate ---- */

  function Give(p: Pool, b: nat): Pool
    requires Holds(p.mem, b, WORD)
  {
    p.(head := b, mem := Store(p.mem, b, p.head), free := p.free + 1)
  }

  /** Returning an outstanding block puts it in front of the list and touches no other block. */
  lemma GiveKeeps(p: Pool, held: set<nat>, list: seq<nat>, b: nat)
    requires Inv(p, held, list) && b in held
    ensures Holds(p.mem, b, WORD) && Inv(Give(p, b), held - {b}, [b] + list)
    ensures forall h :: h in held - {b} ==> Same(p.mem, Give(p, b).mem, h, p.size)
  {
    hide Store, Holds, Separate;
    BlockHoldsPointer(p.mem, b, p.size);
    ChainBlocks(p.mem, p.size, p.head, list);
    assert p.head < ADDRESS_LIMIT by { assert list != [] ==> Block(p.mem, list[0], p.size); }
    SeparateGive(list, held, p.size, b);
    ChainPush(p.mem, p.size, p.head, list, b);
    var m := Give(p, b).mem;
    forall h | h in held - {b}
      ensures Block(m, h, p.size)
    {
      SameKeys(p.mem, m, h, p.size);
    }
    assert |held - {b}| == |held| - 1;
  }

  /* ---- pre_allocate ---- */

  /** Links one fresh chunk of `n` blocks in front of the list. */
  function Batch(p: Pool, g: Grant, n: nat): Pool
    requires g.Granted? && Fresh(p, g, n) && n >= 1 && p.size >= WORD
  {
    ChunkHolds(p, g, n);
    p.(head := g.base, mem := Link(p.mem + g.bytes, g.base, p.size, n, p.head),
       total := p.total + n, free := p.free + n)
  }

  lemma BatchKeeps(p: Pool, g: Grant, n: nat, held: set<nat>, list: seq<nat>)
    requires Inv(p, held, list) && g.Granted? && Fresh(p, g, n) && n >= 1
    ensures Inv(Batch(p, g, n), held, Blocks(g.base, p.size, n) + list)
    ensures forall h :: h in held ==> Same(p.mem, Batch(p, g, n).mem, h, p.size)
  {
    hide Holds, Link, Chain, Separate;
    var m, extent := p.mem + g.bytes, Extent(p.size, n);
    ChunkHolds(p, g, n);
    ChainBlocks(p.mem, p.size, p.head, list);
    assert p.head < ADDRESS_LIMIT by { assert list != [] ==> Block(p.mem, list[0], p.size); }
    ChainDepends(p.mem, m, p.size, p.head, list);
    forall b | b in list || b in held
      ensures (b + p.size <= g.base || g.base + extent <= b) && Block(m, b, p.size)
    {
      BlockIsOld(p, g, n, b);
    }
    LinkMakesChain(m, g.base, p.size, n, p.head, list);
    var q, added := Batch(p, g, n), Blocks(g.base, p.size, n);
    forall c | c in added
      ensures g.base <= c && c + p.size <= g.base + extent
    {
      BlocksInside(g.base, p.size, n, c);
    }
    BlocksApart(g.base, p.size, n);
    assert Separate(added, {}, p.size) by { NoneHeld(added, p.size); }
    SeparateGrow(list, held, p.size, added, {}, g.base, extent);
    assert held + {} == held;
    forall h | h in held
      ensures Block(q.mem, h, p.size)
    {
      SameKeys(m, q.mem, h, p.size);
    }
  }

  lemma NoneHeld(added: seq<nat>, size: nat)
    requires AllApart(added, size)
    ensures Separate(added, {}, size)
  {
  }
}
