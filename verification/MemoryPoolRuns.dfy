/**
 Every sequence of allocations, returns of outstanding blocks, pre-allocations and writes of the
 clients into their own blocks.
 */
module MemoryPoolRuns {
  import opened PoolMemory
  import opened MemoryPools

  /* ---- whole operations ---- */

  function BatchSize(p: Pool, count: nat): nat {
    if count < p.blockSize then count else p.blockSize
  }

  /** What `malloc` must promise for each chunk of a pre-allocation in turn. */
  ghost predicate GrantsFresh(p: Pool, count: nat, grants: seq<Grant>)
    requires p.size >= WORD
    decreases |grants|
  {
    count == 0 || p.blockSize == 0 || grants == [] || grants[0].Null?
    || (Fresh(p, grants[0], BatchSize(p, count))
        && GrantsFresh(Batch(p, grants[0], BatchSize(p, count)), count - BatchSize(p, count), grants[1..]))
  }

  /** With no blocks in a chunk, the links of a chunk that is granted go outside it. */
  predicate PreAllocateDefined(p: Pool, count: nat, grants: seq<Grant>) {
    count == 0 || p.blockSize >= 1 || grants == [] || grants[0].Null?
  }

  /** Chunks of at most `blockSize` blocks until `count` blocks are added or `malloc` fails. */
  function PreAllocate(p: Pool, count: nat, grants: seq<Grant>): Pool
    requires p.size >= WORD && GrantsFresh(p, count, grants)
    decreases |grants|
  {
    if count == 0 || p.blockSize == 0 || grants == [] || grants[0].Null? then p
    else
      var n := BatchSize(p, count);
      PreAllocate(Batch(p, grants[0], n), count - n, grants[1..])
  }

  lemma {:induction false} PreAllocateKeeps(p: Pool, count: nat, grants: seq<Grant>, held: set<nat>, list: seq<nat>)
    returns (longer: seq<nat>)
    requires Inv(p, held, list) && GrantsFresh(p, count, grants)
    ensures Inv(PreAllocate(p, count, grants), held, longer) && |list| <= |longer| <= |list| + count
    ensures forall b :: b in list ==> b in longer
    ensures PreAllocate(p, count, grants).size == p.size && PreAllocate(p, count, grants).blockSize == p.blockSize
    ensures forall h :: h in held ==> Same(p.mem, PreAllocate(p, count, grants).mem, h, p.size)
    decreases |grants|
  {
    hide Inv, Fresh, Same;
    assert p.size >= WORD by { SizesOf(p, held, list); }
    if count == 0 || p.blockSize == 0 || grants == [] || grants[0].Null? {
      longer := list;
      forall h | h in held ensures Same(p.mem, p.mem, h, p.size) { SameSelf(p.mem, h, p.size); }
    } else {
      var n := BatchSize(p, count);
      var q := Batch(p, grants[0], n);
      BatchKeeps(p, grants[0], n, held, list);
      longer := PreAllocateKeeps(q, count - n, grants[1..], held, Blocks(grants[0].base, p.size, n) + list);
      var r := PreAllocate(p, count, grants);
      forall h | h in held
        ensures Same(p.mem, r.mem, h, p.size)
      {
        SameThrough(p.mem, q.mem, r.mem, h, p.size);
      }
    }
  }

  /** How many chunks `malloc` grants before it first fails. */
  function GrantedCount(grants: seq<Grant>): nat {
    if grants == [] || grants[0].Null? then 0 else 1 + GrantedCount(grants[1..])
  }

  function Least(a: nat, b: nat): nat { if a < b then a else b }

  /** The blocks a pre-allocation adds: as many as requested, or as the granted chunks hold. */
  function Added(count: nat, blockSize: nat, grants: seq<Grant>): nat {
    Least(count, blockSize * GrantedCount(grants))
  }

  lemma OneMoreChunk(blockSize: nat, n: nat)
    ensures blockSize * (1 + n) == blockSize + blockSize * n
  {
  }

  /** Exactly the requested number of blocks is added, or as many as the granted chunks hold. */
  lemma {:induction false} PreAllocateCount(p: Pool, count: nat, grants: seq<Grant>)
    requires p.size >= WORD && p.blockSize >= 1 && GrantsFresh(p, count, grants)
    ensures var added, q := Added(count, p.blockSize, grants), PreAllocate(p, count, grants);
            q.total == p.total + added && q.free == p.free + added
    decreases |grants|
  {
    hide Fresh, Link;
    if count > 0 && grants != [] && grants[0].Granted? {
      var n := BatchSize(p, count);
      OneMoreChunk(p.blockSize, GrantedCount(grants[1..]));
      PreAllocateCount(Batch(p, grants[0], n), count - n, grants[1..]);
    }
  }

  lemma SizesOf(p: Pool, held: set<nat>, list: seq<nat>)
    requires Inv(p, held, list)
    ensures p.size >= WORD
  {
  }

  lemma SameSelf(m: Memory, b: nat, size: nat)
    ensures Same(m, m, b, size)
  {
  }

  lemma SameThrough(m: Memory, n: Memory, r: Memory, b: nat, size: nat)
    requires Same(m, n, b, size) && Same(n, r, b, size)
    ensures Same(m, r, b, size)
  {
  }

  /* ---- runs ---- */

  datatype Use = Use(pool: Pool, held: set<nat>)

  datatype Op =
    | Allocate(grant: Grant)
    | Deallocate(block: nat)
    | Prepare(count: nat, grants: seq<Grant>)
    | Write(address: nat, value: octet)

  ghost predicate Sound(u: Use) {
    exists list :: Inv(u.pool, u.held, list)
  }

  /** Clients return only outstanding blocks (or null) and write only into them; the pool grows only
      with at least two blocks in a chunk, since growth is unsound otherwise. */
  ghost predicate Legal(u: Use, op: Op) {
    match op
    case Allocate(g) => u.pool.head == 0 && g.Granted? ==> u.pool.blockSize >= 2 && Fresh(u.pool, g, u.pool.blockSize)
    case Deallocate(b) => b == 0 || b in u.held
    case Prepare(count, grants) =>
      PreAllocateDefined(u.pool, count, grants) && u.pool.size >= WORD && GrantsFresh(u.pool, count, grants)
    case Write(a, v) => exists h :: h in u.held && Inside(a, h, u.pool.size)
  }

  ghost function Next(u: Use, op: Op): Use
    requires Sound(u) && Legal(u, op)
  {
    var list :| Inv(u.pool, u.held, list);
    match op
    case Allocate(g) =>
      if u.pool.head != 0 then
        TakeKeeps(u.pool, u.held, list);
        Use(Take(u.pool), u.held + {u.pool.head})
      else if g.Null? then u
      else Use(Grow(u.pool, g), u.held + {g.base})
    case Deallocate(b) =>
      if b == 0 then u
      else
        GiveKeeps(u.pool, u.held, list, b);
        Use(Give(u.pool, b), u.held - {b})
    case Prepare(count, grants) => u.(pool := PreAllocate(u.pool, count, grants))
    case Write(a, v) => u.(pool := u.pool.(mem := u.pool.mem[a := v]))
  }

  /** The operation leaves block `h` alone: it stays outstanding and is not written by its owner. */
  ghost predicate Spares(u: Use, op: Op, h: nat)
    requires Sound(u) && Legal(u, op)
  {
    h in u.held && h in Next(u, op).held && (op.Write? ==> !Inside(op.address, h, u.pool.size))
  }

  lemma WriteKeeps(u: Use, list: seq<nat>, a: nat, v: octet)
    requires Inv(u.pool, u.held, list) && Legal(u, Write(a, v))
    ensures Inv(u.pool.(mem := u.pool.mem[a := v]), u.held, list)
  {
    hide Separate;
    var p, m := u.pool, u.pool.mem[a := v];
    var o :| o in u.held && Inside(a, o, p.size);
    assert Block(p.mem, o, p.size) && a in p.mem;
    forall b, x | b in list && Inside(x, b, p.size) && x in p.mem
      ensures m[x] == p.mem[x]
    {
      assert Apart(b, o, p.size) by { ApartOf(list, u.held, p.size, b, o); }
    }
    ChainDepends(p.mem, m, p.size, p.head, list);
    forall h | h in u.held
      ensures Block(m, h, p.size)
    {
      SameKeys(p.mem, m, h, p.size);
    }
  }

  lemma ApartOf(list: seq<nat>, held: set<nat>, size: nat, b: nat, h: nat)
    requires Separate(list, held, size) && b in list && h in held
    ensures Apart(b, h, size)
  {
  }

  lemma AllocateStep(u: Use, g: Grant, list: seq<nat>) returns (l: seq<nat>)
    requires Sound(u) && Legal(u, Allocate(g)) && Inv(u.pool, u.held, list)
    ensures Inv(Next(u, Allocate(g)).pool, Next(u, Allocate(g)).held, l)
    ensures Next(u, Allocate(g)).pool.size == u.pool.size && Next(u, Allocate(g)).pool.blockSize == u.pool.blockSize
    ensures forall h :: h in u.held ==> Same(u.pool.mem, Next(u, Allocate(g)).pool.mem, h, u.pool.size)
  {
    hide Inv, Same;
    if u.pool.head != 0 {
      TakeKeeps(u.pool, u.held, list);
      l := list[1..];
    } else if g.Null? {
      l := list;
      forall h | h in u.held
        ensures Same(u.pool.mem, u.pool.mem, h, u.pool.size)
      {
        SameSelf(u.pool.mem, h, u.pool.size);
      }
    } else {
      NullIsEmpty(u.pool, u.held, list);
      GrowKeeps(u.pool, g, u.held);
      l := Blocks(g.base + u.pool.size, u.pool.size, u.pool.blockSize - 1);
    }
  }

  lemma NullIsEmpty(p: Pool, held: set<nat>, list: seq<nat>)
    requires Inv(p, held, list) && p.head == 0
    ensures list == []
  {
  }

  /** Every operation keeps the pool sound and changes no byte of a block it spares. */
  lemma NextKeeps(u: Use, op: Op)
    requires Sound(u) && Legal(u, op)
    ensures Sound(Next(u, op)) && Next(u, op).pool.size == u.pool.size
    ensures forall h :: Spares(u, op, h) ==> Same(u.pool.mem, Next(u, op).pool.mem, h, u.pool.size)
  {
    hide Inv, Fresh;
    var list :| Inv(u.pool, u.held, list);
    var v := Next(u, op);
    match op
    case Allocate(g) =>
      var l := AllocateStep(u, g, list);
      assert Inv(v.pool, v.held, l);
    case Deallocate(b) =>
      if b != 0 {
        GiveKeeps(u.pool, u.held, list, b);
        assert Inv(v.pool, v.held, [b] + list);
      }
    case Prepare(count, grants) =>
      var l := PreAllocateKeeps(u.pool, count, grants, u.held, list);
      assert Inv(v.pool, v.held, l);
    case Write(a, x) =>
      WriteKeeps(u, list, a, x);
      assert Inv(v.pool, v.held, list);
  }

  ghost predicate LegalRun(u: Use, ops: seq<Op>)
    requires Sound(u)
    decreases |ops|
  {
    ops == [] || (Legal(u, ops[0]) && (NextKeeps(u, ops[0]); LegalRun(Next(u, ops[0]), ops[1..])))
  }

  ghost function EndOf(u: Use, ops: seq<Op>): Use
    requires Sound(u) && LegalRun(u, ops)
    decreases |ops|
  {
    if ops == [] then u
    else
      NextKeeps(u, ops[0]);
      EndOf(Next(u, ops[0]), ops[1..])
  }

  /** Block `h` stays outstanding during the run and its owner does not write it. */
  ghost predicate SparedBy(u: Use, ops: seq<Op>, h: nat)
    requires Sound(u) && LegalRun(u, ops)
    decreases |ops|
  {
    ops == [] || (Spares(u, ops[0], h) && (NextKeeps(u, ops[0]); SparedBy(Next(u, ops[0]), ops[1..], h)))
  }

  function NewPool(itemSize: nat, blockSize: nat): Pool {
    Pool(if itemSize < WORD then WORD else itemSize, blockSize, 0, map[], 0, 0)
  }

  lemma NewIsSound(itemSize: nat, blockSize: nat)
    ensures Inv(NewPool(itemSize, blockSize), {}, [])
  {
  }

  /** In every run from a sound pool, such as a new one, the free list stays acyclic, its blocks are
      byte-disjoint from each other and from every outstanding block, and the counters are exact. */
  lemma {:induction false} RunIsSound(u: Use, ops: seq<Op>)
    requires Sound(u) && LegalRun(u, ops)
    ensures Sound(EndOf(u, ops)) && EndOf(u, ops).pool.size == u.pool.size
    decreases |ops|
  {
    hide Sound, Next, Legal;
    if ops != [] {
      NextKeeps(u, ops[0]);
      RunIsSound(Next(u, ops[0]), ops[1..]);
    }
  }

  /** Over any run, no pool operation changes a byte of a block that stays outstanding. */
  lemma {:induction false} OutstandingIsSafe(u: Use, ops: seq<Op>, h: nat)
    requires Sound(u) && LegalRun(u, ops) && SparedBy(u, ops, h)
    ensures Same(u.pool.mem, EndOf(u, ops).pool.mem, h, u.pool.size)
    decreases |ops|
  {
    hide Sound, Next, Legal, Same, Spares;
    if ops == [] {
      SameSelf(u.pool.mem, h, u.pool.size);
    } else {
      var v := Next(u, ops[0]);
      NextKeeps(u, ops[0]);
      OutstandingIsSafe(v, ops[1..], h);
      SameThrough(u.pool.mem, v.pool.mem, EndOf(u, ops).pool.mem, h, u.pool.size);
    }
  }

  /* ---- what each operation does to the outstanding blocks and to the counters ---- */

  /** An allocation takes the head of the list, or else the first block of a granted chunk. */
  lemma AllocateCounts(u: Use, g: Grant)
    requires Sound(u) && Legal(u, Allocate(g))
    ensures var p, v := u.pool, Next(u, Allocate(g));
            if p.head == 0 && g.Null? then v == u
            else
              && v.held == u.held + {if p.head != 0 then p.head else g.base} && |v.held| == |u.held| + 1
              && v.pool.total == if p.head != 0 then p.total else p.total + p.blockSize
  {
    hide Same, Link, LinkChunk, Separate, Fresh, Chain, AllBlocks;
    var list :| Inv(u.pool, u.held, list);
    if u.pool.head != 0 {
      TakeKeeps(u.pool, u.held, list);
    } else if g.Granted? {
      NullIsEmpty(u.pool, u.held, list);
      GrowKeeps(u.pool, g, u.held);
    }
  }

  /** A returned block is the new head; returning null changes nothing. */
  lemma DeallocateCounts(u: Use, b: nat)
    requires Sound(u) && Legal(u, Deallocate(b))
    ensures var p, v := u.pool, Next(u, Deallocate(b));
            if b == 0 then v == u
            else v.held == u.held - {b} && v.pool.free == p.free + 1 && v.pool.head == b && v.pool.total == p.total
  {
    hide Same, Link, Separate, Chain, AllBlocks;
    var list :| Inv(u.pool, u.held, list);
    if b != 0 { GiveKeeps(u.pool, u.held, list, b); }
  }

  lemma PrepareCounts(u: Use, count: nat, grants: seq<Grant>)
    requires Sound(u) && Legal(u, Prepare(count, grants)) && u.pool.blockSize >= 1
    ensures var p, v := u.pool, Next(u, Prepare(count, grants));
            v.held == u.held && v.pool.total == p.total + Added(count, p.blockSize, grants)
  {
    hide Inv, Fresh, Added;
    PreAllocateCount(u.pool, count, grants);
  }

  /** The block returned last is handed out first. */
  lemma LastReturnedIsNext(u: Use, b: nat, g: Grant)
    requires Sound(u) && b in u.held
    ensures Legal(u, Deallocate(b)) && Sound(Next(u, Deallocate(b))) && Legal(Next(u, Deallocate(b)), Allocate(g))
    ensures Next(Next(u, Deallocate(b)), Allocate(g)).held == u.held
  {
    hide Inv, Same, Next;
    assert b > 0 by { HeldIsUsable(u, b); }
    NextKeeps(u, Deallocate(b));
    DeallocateCounts(u, b);
    AllocateCounts(Next(u, Deallocate(b)), g);
  }

  lemma HeldIsUsable(u: Use, b: nat)
    requires Sound(u) && b in u.held
    ensures b > 0
  {
  }
}
