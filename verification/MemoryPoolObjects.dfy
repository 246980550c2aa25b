/**
 The pool object, whose loops write the links, and the manager that keeps one pool per size class.
 */
module MemoryPoolObjects {
  import opened Bytes
  import opened PoolMemory
  import opened MemoryPools
  import opened MemoryPoolRuns

  lemma NextBlock(base: nat, size: nat, i: nat)
    ensures base + (i + 1) * size == base + i * size + size
  {
  }

  /** The linking loop of both growth paths: block i points to block i + 1, the last one to `tail`. */
  method LinkLoop(m: Memory, base: nat, size: nat, n: nat, tail: nat) returns (r: Memory)
    requires n >= 1 && size >= WORD && Holds(m, base, Extent(size, n))
    ensures r == Link(m, base, size, n, tail)
  {
    hide Holds, Store;
    r := m;
    assert base + 0 * size == base;
    for i := 0 to n - 1
      invariant Holds(r, base + i * size, Extent(size, n - i))
      invariant Link(r, base + i * size, size, n - i, tail) == Link(m, base, size, n, tail)
    {
      NextBlock(base, size, i);
      Part(r, base + i * size, Extent(size, n - i), base + i * size, WORD);
      Part(r, base + i * size, Extent(size, n - i), base + i * size + size, Extent(size, n - i - 1));
      var q := Store(r, base + i * size, base + (i + 1) * size);
      SameKeys(r, q, base + i * size + size, Extent(size, n - i - 1));
      r := q;
    }
    Part(r, base + (n - 1) * size, Extent(size, 1), base + (n - 1) * size, WORD);
    r := Store(r, base + (n - 1) * size, tail);
  }

  /** Links a fresh chunk from its second block on; its only block gets the null pointer. */
  method LinkRest(m: Memory, base: nat, size: nat, n: nat) returns (r: Memory)
    requires n >= 1 && size >= WORD && Holds(m, base, Extent(size, n))
    ensures r == LinkChunk(m, base, size, n)
  {
    hide Holds, Link, Store;
    Part(m, base, Extent(size, n), base, WORD);
    Part(m, base, Extent(size, n), base + size, Extent(size, n - 1));
    if n == 1 {
      r := Store(m, base, 0);
    } else {
      r := LinkLoop(m, base + size, size, n - 1, 0);
    }
  }

  class MemoryPool {
    const itemSize: nat
    const blockSize: nat
    var freeList: nat
    var mem: Memory
    var totalBlocks: nat
    var freeBlocks: nat
    var undefined: bool       // set where the behaviour of the code is undefined
    ghost var held: set<nat>
    ghost var list: seq<nat>

    ghost function State(): Pool
      reads this
    {
      Pool(itemSize, blockSize, freeList, mem, totalBlocks, freeBlocks)
    }

    ghost predicate Valid()
      reads this
    {
      Inv(State(), held, list)
    }

    constructor (size: nat, preAlloc: nat, perChunk: nat, grants: seq<Grant>)
      requires GrantsFresh(NewPool(size, perChunk), preAlloc, grants)
      ensures Valid() && held == {} && freeBlocks == totalBlocks <= preAlloc
      ensures itemSize == (if size < 8 then 8 else size) && blockSize == perChunk
      ensures perChunk >= 1 ==> totalBlocks == Added(preAlloc, perChunk, grants)
      ensures undefined <==> !PreAllocateDefined(NewPool(size, perChunk), preAlloc, grants)
      ensures State() == MemoryPoolRuns.PreAllocate(NewPool(size, perChunk), preAlloc, grants)
    {
      itemSize := if size < WORD then WORD else size;
      blockSize := perChunk;
      freeList, mem, totalBlocks, freeBlocks, undefined := 0, map[], 0, 0, false;
      held, list := {}, [];
      new;
      NewIsSound(size, perChunk);
      PreAllocate(preAlloc, grants);
    }

    /** Chunks of at most `blockSize` blocks; nothing outstanding changes. */
    method PreAllocate(count: nat, grants: seq<Grant>)
      requires Valid() && GrantsFresh(State(), count, grants)
      modifies this
      ensures Valid() && held == old(held)
      ensures undefined <==> old(undefined) || !PreAllocateDefined(old(State()), count, grants)
      ensures State() == MemoryPoolRuns.PreAllocate(old(State()), count, grants)
      ensures totalBlocks - freeBlocks == old(totalBlocks - freeBlocks) && totalBlocks <= old(totalBlocks) + count
      ensures blockSize >= 1 ==> totalBlocks == old(totalBlocks) + Added(count, blockSize, grants)
      ensures forall h :: h in held ==> Same(old(mem), mem, h, itemSize)
    {
      hide Inv, Same, Link, Fresh;
      SizesOf(State(), held, list);
      Counters(State(), held, list);
      ghost var longer := PreAllocateKeeps(State(), count, grants, held, list);
      if blockSize == 0 {
        undefined := undefined || (count > 0 && grants != [] && grants[0].Granted?);
      } else {
        PreAllocateCount(State(), count, grants);
        AddChunks(count, grants);
      }
      list := longer;
      Counters(State(), held, list);
    }

    /** The loop of a pre-allocation. */
    method AddChunks(count: nat, grants: seq<Grant>)
      requires itemSize >= WORD && blockSize >= 1 && GrantsFresh(State(), count, grants)
      modifies this`freeList, this`mem, this`totalBlocks, this`freeBlocks
      ensures State() == MemoryPoolRuns.PreAllocate(old(State()), count, grants)
    {
      hide Link, Fresh;
      var done, k := 0, 0;
      assert grants[0..] == grants;
      while done < count && k < |grants|
        invariant 0 <= done <= count && 0 <= k <= |grants|
        invariant State().size == old(State()).size && State().blockSize == old(State()).blockSize
        invariant GrantsFresh(State(), count - done, grants[k..])
        invariant MemoryPoolRuns.PreAllocate(State(), count - done, grants[k..])
                  == MemoryPoolRuns.PreAllocate(old(State()), count, grants)
        decreases |grants| - k
      {
        var batch := if count - done < blockSize then count - done else blockSize;
        assert grants[k..][0] == grants[k] && grants[k..][1..] == grants[k + 1..];
        if grants[k].Null? { break; }
        assert Fresh(State(), grants[k], batch);
        ChunkHolds(State(), grants[k], batch);
        var base := grants[k].base;
        var linked := LinkLoop(mem + grants[k].bytes, base, itemSize, batch, freeList);
        mem, freeList := linked, base;
        totalBlocks, freeBlocks := totalBlocks + batch, freeBlocks + batch;
        done, k := done + batch, k + 1;
      }
    }

    /** Hands out a cleared block that overlaps no other outstanding block, or null when `malloc`
        fails; every other outstanding block keeps its contents.  The pool stays sound unless it grows
        with fewer than two blocks in a chunk: with one, the head is left pointing behind the chunk;
        with none, the code is undefined. */
    method Allocate(g: Grant) returns (ptr: nat, sound: bool)
      requires Valid()
      requires freeList == 0 && g.Granted? ==> Fresh(State(), g, blockSize)
      modifies this
      ensures sound <==> old(freeList) != 0 || g.Null? || blockSize >= 2
      ensures undefined <==> old(undefined) || (!sound && blockSize == 0)
      ensures sound ==> Valid() && (ptr == 0 <==> old(freeList) == 0 && g.Null?)
      ensures sound && ptr == 0 ==> State() == old(State()) && held == old(held)
      ensures old(freeList) != 0 ==> ptr == old(freeList) && totalBlocks == old(totalBlocks)
      ensures old(freeList) == 0 && g.Granted? && sound ==> ptr == g.base && totalBlocks == old(totalBlocks) + blockSize
      ensures sound && ptr != 0 ==> ptr !in old(held) && held == old(held) + {ptr}
      ensures sound && ptr != 0 ==> forall x :: Inside(x, ptr, itemSize) ==> x in mem && mem[x] == 0
      ensures sound ==> forall h :: h in old(held) ==> Same(old(mem), mem, h, itemSize)
      ensures !sound && blockSize == 1 ==>
                ptr == g.base && State() == (SizesOf(old(State()), old(held), old(list)); Grow(old(State()), g))
    {
      hide Inv, Fresh, Same;
      sound := freeList != 0 || g.Null? || blockSize >= 2;
      if freeList != 0 {
        ptr := TakeFirst();
      } else if g.Null? {
        ptr := 0;
        forall h | h in held ensures Same(mem, mem, h, itemSize) { SameSelf(mem, h, itemSize); }
      } else if blockSize >= 2 {
        ptr := Expand(g);
      } else if blockSize == 1 {
        SizesOf(State(), held, list);
        ptr := AddChunk(g);
      } else {
        ptr, undefined := 0, true;
      }
    }

    method TakeFirst() returns (ptr: nat)
      requires Valid() && freeList != 0
      modifies this
      ensures Valid() && ptr != 0 && ptr !in old(held) && held == old(held) + {ptr} && undefined == old(undefined)
      ensures ptr == old(freeList)
      ensures State() == (TakeKeeps(old(State()), old(held), old(list)); Take(old(State())))
      ensures forall x :: Inside(x, ptr, itemSize) ==> x in mem && mem[x] == 0
      ensures forall h :: h in old(held) ==> Same(old(mem), mem, h, itemSize)
    {
      hide Load, Holds, Inv, Same;
      SizesOf(State(), held, list);
      TakeKeeps(State(), held, list);
      Part(mem, freeList, itemSize, freeList, WORD);
      HoldsAll(mem, freeList, itemSize);
      ptr := freeList;
      held, list := held + {ptr}, list[1..];
      freeList := Load(mem, ptr);
      freeBlocks := freeBlocks - 1;
      mem := ZeroFill(mem, ptr, itemSize);
    }

    /** The growth path as the code runs it. */
    method AddChunk(g: Grant) returns (ptr: nat)
      requires itemSize >= WORD && blockSize >= 1 && g.Granted? && Fresh(State(), g, blockSize)
      modifies this`freeList, this`mem, this`totalBlocks, this`freeBlocks
      ensures ptr == g.base && State() == Grow(old(State()), g)
    {
      hide LinkChunk, Holds;
      ChunkHolds(State(), g, blockSize);
      var base, all := g.base, mem + g.bytes;
      Part(all, base, Extent(itemSize, blockSize), base, itemSize);
      totalBlocks, freeBlocks := totalBlocks + blockSize, freeBlocks + blockSize;
      freeList := base + itemSize;
      var linked := LinkRest(all, base, itemSize, blockSize);
      SameKeys(all, linked, base, itemSize);
      mem := ZeroFill(linked, base, itemSize);
      freeBlocks := freeBlocks - 1;
      ptr := base;
    }

    method Expand(g: Grant) returns (ptr: nat)
      requires Valid() && blockSize >= 2 && freeList == 0 && g.Granted? && Fresh(State(), g, blockSize)
      modifies this
      ensures Valid() && ptr != 0 && ptr !in old(held) && held == old(held) + {ptr} && undefined == old(undefined)
      ensures ptr == g.base
      ensures State() == (SizesOf(old(State()), old(held), old(list)); Grow(old(State()), g))
      ensures forall x :: Inside(x, ptr, itemSize) ==> x in mem && mem[x] == 0
      ensures forall h :: h in old(held) ==> Same(old(mem), mem, h, itemSize)
    {
      hide LinkChunk, Holds, Inv, Same, Grow;
      SizesOf(State(), held, list);
      NullIsEmpty(State(), held, list);
      GrowKeeps(State(), g, held);
      GrowMemory(State(), g);
      ptr := AddChunk(g);
      held, list := held + {ptr}, Blocks(ptr + itemSize, itemSize, blockSize - 1);
    }

    /** Takes back an outstanding block; null is ignored. */
    method Deallocate(ptr: nat)
      requires Valid() && (ptr != 0 ==> ptr in held)
      modifies this
      ensures Valid() && held == old(held) - {ptr} && freeBlocks == old(freeBlocks) + (if ptr == 0 then 0 else 1)
      ensures totalBlocks == old(totalBlocks) && undefined == old(undefined)
      ensures ptr == 0 ==> State() == old(State())
      ensures ptr != 0 ==> freeList == ptr
      ensures forall h :: h in held ==> Same(old(mem), mem, h, itemSize)
    {
      hide Store, Chain, Separate;
      if ptr == 0 {
        assert 0 !in held;
        return;
      }
      GiveKeeps(State(), held, list, ptr);
      mem := Store(mem, ptr, freeList);
      freeList := ptr;
      freeBlocks := freeBlocks + 1;
      held, list := held - {ptr}, [ptr] + list;
    }
  }

  lemma Counters(p: Pool, held: set<nat>, list: seq<nat>)
    requires Inv(p, held, list)
    ensures p.free == |list| && p.total == |list| + |held|
  {
  }

  lemma HoldsAll(m: Memory, b: nat, size: nat)
    requires Holds(m, b, size)
    ensures forall x :: Inside(x, b, size) ==> x in m
  {
  }

  /* ---- size classes ---- */

  const CLASS_LIMIT: nat := 0x8000_0000_0000_0000

  /** `a` is the least 64 * 2^k that is not smaller than `size`. */
  ghost predicate LeastClass(a: nat, k: nat, size: nat) {
    a == 64 * Pow2(k) && a >= size && (k > 0 ==> 64 * Pow2(k - 1) < size)
  }

  lemma LeastClassIsUnique(a: nat, k: nat, b: nat, l: nat, size: nat)
    requires LeastClass(a, k, size) && LeastClass(b, l, size)
    ensures a == b && k == l
  {
    if k < l { Pow2Monotone(k, l - 1); }
    if l < k { Pow2Monotone(l, k - 1); }
  }

  /** The doubling loop: never exceeds 2^63, so nothing overflows. */
  method SizeClass(size: nat) returns (a: nat, ghost k: nat)
    requires size <= CLASS_LIMIT
    ensures LeastClass(a, k, size) && a <= CLASS_LIMIT
  {
    a, k := 64, 0;
    while a < size
      invariant a == 64 * Pow2(k) && (k > 0 ==> 64 * Pow2(k - 1) < size) && k <= 57
      invariant a <= CLASS_LIMIT
      decreases 57 - k
    {
      assert k < 57 by { if k == 57 { TopClass(); } }
      Pow2Monotone(k + 1, 57);
      TopClass();
      a, k := a * 2, k + 1;
    }
  }

  lemma TopClass()
    ensures 64 * Pow2(57) == CLASS_LIMIT
  {
    Pow2Of32();
    assert Pow2(40) == 256 * Pow2(32);
    assert Pow2(48) == 256 * Pow2(40);
    assert Pow2(56) == 256 * Pow2(48);
  }

  /** The loop variable after `n` rounds in 64-bit arithmetic. */
  function Doubled(n: nat): nat {
    if n == 0 then 64 else (2 * Doubled(n - 1)) % ADDRESS_LIMIT
  }

  lemma Doubling(a: nat)
    requires 2 * a <= CLASS_LIMIT
    ensures (2 * a) % ADDRESS_LIMIT == 2 * a
  {
  }

  lemma Pow2Step(n: nat)
    requires n > 0
    ensures Pow2(n) == 2 * Pow2(n - 1)
  {
  }

  /** One doubling of a class below the top one, and of the top one. */
  lemma DoublingClass(n: nat)
    ensures n < 57 ==> (2 * (64 * Pow2(n))) % ADDRESS_LIMIT == 64 * Pow2(n + 1) <= CLASS_LIMIT
    ensures n == 57 ==> (2 * (64 * Pow2(n))) % ADDRESS_LIMIT == 0
  {
    hide Pow2;
    TopClass();
    if n < 57 {
      Pow2Step(n + 1);
      Pow2Monotone(n + 1, 57);
      Doubling(64 * Pow2(n));
    }
  }

  lemma {:induction false} DoubledValue(n: nat)
    ensures Doubled(n) == if n <= 57 then 64 * Pow2(n) else 0
    ensures Doubled(n) <= CLASS_LIMIT
  {
    if n == 0 {
      assert Pow2(0) == 1;
    } else {
      DoubledValue(n - 1);
      DoublingClass(n - 1);
    }
  }

  /** The loop of `get_pool` ends iff the request is at most 2^63: beyond that the variable wraps
      to zero before it is large enough. */
  lemma LoopEndsIff(size: nat)
    requires size < ADDRESS_LIMIT
    ensures (exists n :: Doubled(n) >= size) <==> size <= CLASS_LIMIT
  {
    if size <= CLASS_LIMIT {
      DoubledValue(57);
      TopClass();
    } else {
      forall n: nat ensures Doubled(n) < size { DoubledValue(n); }
    }
  }

  const CHUNK_LIMIT: nat := 0x200_0000_0000_0000

  lemma LargestFit()
    ensures 64 * Pow2(51) == CHUNK_LIMIT && 64 * (64 * Pow2(51)) < ADDRESS_LIMIT == 64 * (64 * Pow2(52))
  {
    Pow2Of32();
    assert Pow2(40) == 256 * Pow2(32);
    assert Pow2(48) == 256 * Pow2(40);
    assert Pow2(52) == 16 * Pow2(48);
  }

  /** A new pool asks `malloc` for 64 blocks of its class.  In 64-bit arithmetic that product is the
      extent of the chunk iff the request is at most 2^57: for the larger requests that `get_pool`
      still answers, the size wraps and the chunk that is linked is larger than the one obtained. */
  lemma ChunkFitsIff(size: nat, a: nat, k: nat)
    requires LeastClass(a, k, size)
    ensures (a * 64) % ADDRESS_LIMIT == Extent(a, 64) <==> size <= CHUNK_LIMIT
  {
    hide Pow2, Extent;
    ExtentIsProduct(a, 64);
    LargestFit();
    if k <= 51 {
      Pow2Monotone(k, 51);
    } else {
      Pow2Monotone(51, k - 1);
      Pow2Monotone(52, k);
    }
  }

  datatype Entry = Entry(size: nat, pool: Pool)

  /** Sums over the pools, in order. */
  function Totals(es: seq<Entry>): nat {
    if es == [] then 0 else Totals(es[..|es| - 1]) + es[|es| - 1].pool.total
  }

  function Frees(es: seq<Entry>): nat {
    if es == [] then 0 else Frees(es[..|es| - 1]) + es[|es| - 1].pool.free
  }

  ghost predicate SoundPool(p: Pool) {
    exists held, list :: Inv(p, held, list)
  }

  /** A sound pool whose items have the size of its class. */
  ghost predicate SoundEntry(e: Entry) {
    SoundPool(e.pool) && e.pool.size == e.size
  }

  ghost predicate AllSound(es: seq<Entry>) {
    forall i :: 0 <= i < |es| ==> SoundEntry(es[i])
  }

  lemma OneMore(es: seq<Entry>, e: Entry, held: set<nat>, list: seq<nat>)
    requires AllSound(es) && Inv(e.pool, held, list) && e.pool.size == e.size
    ensures AllSound(es + [e])
  {
    assert SoundEntry(e);
  }

  /** The numbers of blocks outstanding and free in each pool. */
  ghost predicate CountsOf(es: seq<Entry>, held: seq<set<nat>>, lists: seq<seq<nat>>) {
    |held| == |lists| == |es| && forall i :: 0 <= i < |es| ==> Inv(es[i].pool, held[i], lists[i])
  }

  function Outstanding(held: seq<set<nat>>): nat {
    if held == [] then 0 else Outstanding(held[..|held| - 1]) + |held[|held| - 1]|
  }

  function Listed(lists: seq<seq<nat>>): nat {
    if lists == [] then 0 else Listed(lists[..|lists| - 1]) + |lists[|lists| - 1]|
  }

  /** The sums count the blocks: total is outstanding and free ones together. */
  lemma {:induction false} SumsCount(es: seq<Entry>, held: seq<set<nat>>, lists: seq<seq<nat>>)
    requires CountsOf(es, held, lists)
    ensures Frees(es) == Listed(lists) && Totals(es) == Listed(lists) + Outstanding(held)
    decreases |es|
  {
    hide Inv;
    if es != [] {
      var n := |es| - 1;
      Counters(es[n].pool, held[n], lists[n]);
      SumsCount(es[..n], held[..n], lists[..n]);
    }
  }

  class MemoryPoolManager {
    var pools: seq<Entry>

    constructor ()
      ensures pools == []
    {
      pools := [];
    }

    /** The pool of the request's size class: the first existing one, or a new one with items of that
        size, 64 to a chunk, and 64 of them ready if `malloc` grants the chunk. */
    method GetPool(size: nat, grants: seq<Grant>) returns (index: nat, ghost k: nat)
      requires size <= CLASS_LIMIT && AllSound(pools)
      requires forall a, k :: LeastClass(a, k, size) ==> GrantsFresh(NewPool(a, 64), 64, grants)
      modifies this
      ensures AllSound(pools) && index < |pools|
      ensures LeastClass(pools[index].size, k, size) && pools[index].pool.size == pools[index].size
      ensures forall j :: 0 <= j < index ==> pools[j].size != pools[index].size
      ensures pools == old(pools) || (index == |old(pools)| && pools[..index] == old(pools))
      ensures forall j, l :: 0 <= j < |old(pools)| && LeastClass(old(pools)[j].size, l, size) ==> pools == old(pools)
      ensures pools != old(pools) ==>
                var p := pools[index].pool;
                p.blockSize == 64 && p.total == p.free == if GrantedCount(grants) > 0 then 64 else 0
    {
      hide LeastClass, Inv, GrantsFresh, Fresh;
      var a;
      a, k := SizeClass(size);
      for i := 0 to |pools|
        invariant pools == old(pools)
        invariant forall j :: 0 <= j < i ==> pools[j].size != a
      {
        assert SoundEntry(pools[i]);
        if pools[i].size == a { return i, k; }
      }
      forall j, l | 0 <= j < |pools| && LeastClass(pools[j].size, l, size)
        ensures pools[j].size == a
      {
        LeastClassIsUnique(pools[j].size, l, a, k, size);
      }
      var p := NewPool(a, 64);
      assert p.size == a by { ClassIsWide(a, k, size); }
      NewIsSound(a, 64);
      PreAllocateCount(p, 64, grants);
      ghost var longer := PreAllocateKeeps(p, 64, grants, {}, []);
      var q := MemoryPoolRuns.PreAllocate(p, 64, grants);
      OneMore(pools, Entry(a, q), {}, longer);
      pools := pools + [Entry(a, q)];
      index := |pools| - 1;
    }

    /** The sums of the counters; the difference never underflows. */
    method Stats() returns (total: nat, free: nat, used: nat)
      requires AllSound(pools)
      ensures total == Totals(pools) && free == Frees(pools) && used == total - free
    {
      total, free := 0, 0;
      for i := 0 to |pools|
        invariant total == Totals(pools[..i]) && free == Frees(pools[..i]) && free <= total
      {
        assert SoundEntry(pools[i]);
        ghost var held, list :| Inv(pools[i].pool, held, list);
        assert pools[..i + 1][..i] == pools[..i];
        total := total + pools[i].pool.total;
        free := free + pools[i].pool.free;
      }
      assert pools[..|pools|] == pools;
      used := total - free;
    }
  }

  lemma ClassIsWide(a: nat, k: nat, size: nat)
    requires LeastClass(a, k, size)
    ensures a >= 64
  {
  }
}
