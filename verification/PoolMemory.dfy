/**
 Raw memory as the fixed-size pool uses it: bytes at addresses, pointers stored in eight bytes,
 and chains of blocks linked through their own first bytes.
 */
module PoolMemory {

  type octet = x: int | 0 <= x < 256

  type Memory = map<nat, octet>

  const WORD: nat := 8
  const ADDRESS_LIMIT: nat := 0x1_0000_0000_0000_0000

  predicate Inside(x: nat, a: nat, n: nat) {
    a <= x < a + n
  }

  /** The `n` bytes from address `a` belong to the memory. */
  ghost predicate Holds(m: Memory, a: nat, n: nat) {
    forall x :: Inside(x, a, n) ==> x in m
  }

  lemma Part(m: Memory, a: nat, n: nat, b: nat, k: nat)
    requires Holds(m, a, n) && a <= b && b + k <= a + n
    ensures Holds(m, b, k) && forall x :: Inside(x, b, k) ==> Inside(x, a, n)
  {
  }

  lemma SameKeys(m: Memory, n: Memory, a: nat, k: nat)
    requires Holds(m, a, k) && m.Keys <= n.Keys
    ensures Holds(n, a, k)
  {
  }

  lemma FirstByte(m: Memory, a: nat, k: nat)
    requires Holds(m, a, k) && k > 0
    ensures a in m && Holds(m, a + 1, k - 1) && Inside(a, a, k)
  {
    assert Inside(a, a, k);
    Part(m, a, k, a + 1, k - 1);
  }

  /* ---- pointers in memory ---- */

  /** The number stored in `k` bytes at `a`, least significant byte first. */
  function LoadBytes(m: Memory, a: nat, k: nat): (p: nat)
    requires Holds(m, a, k)
    decreases k
  {
    if k == 0 then 0
    else
      FirstByte(m, a, k);
      m[a] + 256 * LoadBytes(m, a + 1, k - 1)
  }

  function StoreBytes(m: Memory, a: nat, p: nat, k: nat): (r: Memory)
    requires Holds(m, a, k)
    ensures r.Keys == m.Keys
    ensures forall x :: x in m && !Inside(x, a, k) ==> r[x] == m[x]
    decreases k
  {
    if k == 0 then m
    else
      FirstByte(m, a, k);
      StoreBytes(m[a := p % 256], a + 1, p / 256, k - 1)
  }

  function Pow256(k: nat): nat {
    if k == 0 then 1 else 256 * Pow256(k - 1)
  }

  lemma {:induction false} LoadDepends(m: Memory, n: Memory, a: nat, k: nat)
    requires Holds(m, a, k) && Holds(n, a, k)
    requires forall x :: Inside(x, a, k) ==> m[x] == n[x]
    ensures LoadBytes(m, a, k) == LoadBytes(n, a, k)
    decreases k
  {
    if k > 0 {
      FirstByte(m, a, k);
      FirstByte(n, a, k);
      LoadDepends(m, n, a + 1, k - 1);
    }
  }

  lemma {:induction false} LoadStored(m: Memory, a: nat, p: nat, k: nat)
    requires Holds(m, a, k) && p < Pow256(k)
    ensures LoadBytes(StoreBytes(m, a, p, k), a, k) == p
    decreases k
  {
    if k > 0 {
      FirstByte(m, a, k);
      LoadStored(m[a := p % 256], a + 1, p / 256, k - 1);
    }
  }

  function Load(m: Memory, a: nat): nat
    requires Holds(m, a, WORD)
  {
    LoadBytes(m, a, WORD)
  }

  function Store(m: Memory, a: nat, p: nat): (r: Memory)
    requires Holds(m, a, WORD)
    ensures r.Keys == m.Keys
    ensures forall x :: x in m && !Inside(x, a, WORD) ==> r[x] == m[x]
  {
    StoreBytes(m, a, p, WORD)
  }

  lemma PointerRoundTrip(m: Memory, a: nat, p: nat)
    requires Holds(m, a, WORD) && p < ADDRESS_LIMIT
    ensures Load(Store(m, a, p), a) == p
  {
    assert Pow256(4) == 0x1_0000_0000;
    assert Pow256(8) == 0x1_0000_0000 * Pow256(4);
    LoadStored(m, a, p, WORD);
  }

  function ZeroFill(m: Memory, a: nat, n: nat): (r: Memory)
    requires Holds(m, a, n)
    ensures r.Keys == m.Keys
    ensures forall x :: x in m && !Inside(x, a, n) ==> r[x] == m[x]
    ensures forall x :: Inside(x, a, n) ==> r[x] == 0
  {
    map x | x in m :: if Inside(x, a, n) then 0 else m[x]
  }

  /* ---- chains of blocks ---- */

  /** Block `b` of `size` bytes lies in memory, at a usable address. */
  ghost predicate Block(m: Memory, b: nat, size: nat) {
    b > 0 && b + size <= ADDRESS_LIMIT && size >= WORD && Holds(m, b, size)
  }

  lemma BlockHoldsPointer(m: Memory, b: nat, size: nat)
    requires Block(m, b, size)
    ensures Holds(m, b, WORD)
  {
    Part(m, b, size, b, WORD);
  }

  /** Following the stored pointers from `head` visits exactly `list` and then the null pointer. */
  ghost predicate Chain(m: Memory, size: nat, head: nat, list: seq<nat>)
    decreases |list|
  {
    if list == [] then head == 0
    else
      && head == list[0] && Block(m, head, size)
      && (BlockHoldsPointer(m, head, size);
          Chain(m, size, Load(m, head), list[1..]))
  }

  predicate Apart(a: nat, b: nat, size: nat) {
    a + size <= b || b + size <= a
  }

  /** Different blocks share no byte, and no block occurs twice. */
  ghost predicate AllApart(s: seq<nat>, size: nat) {
    forall i, j :: 0 <= i < j < |s| ==> Apart(s[i], s[j], size)
  }

  /** A chain survives any change outside its blocks. */
  lemma {:induction false} ChainDepends(m: Memory, n: Memory, size: nat, head: nat, list: seq<nat>)
    requires Chain(m, size, head, list) && m.Keys <= n.Keys
    requires forall b, x :: b in list && Inside(x, b, size) && x in m ==> n[x] == m[x]
    ensures Chain(n, size, head, list)
    decreases |list|
  {
    if list != [] {
      BlockHoldsPointer(m, head, size);
      assert head in list;
      LoadDepends(m, n, head, WORD);
      ChainDepends(m, n, size, Load(m, head), list[1..]);
    }
  }

  lemma {:induction false} ChainBlocks(m: Memory, size: nat, head: nat, list: seq<nat>)
    requires Chain(m, size, head, list)
    ensures forall b :: b in list ==> Block(m, b, size)
    ensures head == if list == [] then 0 else list[0]
    decreases |list|
  {
    if list != [] {
      BlockHoldsPointer(m, head, size);
      ChainBlocks(m, size, Load(m, head), list[1..]);
      assert list == [list[0]] + list[1..];
    }
  }

  /** Writing the head of a chain into a block that is not part of it makes a longer chain. */
  lemma ChainPush(m: Memory, size: nat, head: nat, list: seq<nat>, b: nat)
    requires Chain(m, size, head, list) && Block(m, b, size) && head < ADDRESS_LIMIT
    requires forall c :: c in list ==> Apart(b, c, size)
    ensures Holds(m, b, WORD) && Chain(Store(m, b, head), size, b, [b] + list)
  {
    BlockHoldsPointer(m, b, size);
    var n := Store(m, b, head);
    PointerRoundTrip(m, b, head);
    ChainDepends(m, n, size, head, list);
    assert ([b] + list)[1..] == list;
  }

  /* ---- linking a fresh chunk ---- */

  /** The addresses of `n` consecutive blocks. */
  function Blocks(base: nat, size: nat, n: nat): (s: seq<nat>)
    ensures |s| == n
    decreases n
  {
    if n == 0 then [] else [base] + Blocks(base + size, size, n - 1)
  }

  function Extent(size: nat, n: nat): nat {
    if n == 0 then 0 else size + Extent(size, n - 1)
  }

  lemma {:induction false} ExtentIsProduct(size: nat, n: nat)
    ensures Extent(size, n) == size * n
  {
    if n > 0 { ExtentIsProduct(size, n - 1); }
  }

  /** Each of `n` consecutive blocks points to the next one, the last one to `tail`. */
  function Link(m: Memory, base: nat, size: nat, n: nat, tail: nat): (r: Memory)
    requires n >= 1 && size >= WORD && Holds(m, base, Extent(size, n))
    ensures r.Keys == m.Keys
    ensures forall x :: x in m && !Inside(x, base, Extent(size, n)) ==> r[x] == m[x]
    decreases n
  {
    Part(m, base, Extent(size, n), base, WORD);
    if n == 1 then Store(m, base, tail)
    else
      Part(m, base, Extent(size, n), base + size, Extent(size, n - 1));
      Link(Store(m, base, base + size), base + size, size, n - 1, tail)
  }

  lemma {:induction false} BlocksInside(base: nat, size: nat, n: nat, b: nat)
    requires b in Blocks(base, size, n)
    ensures base <= b && b + size <= base + Extent(size, n)
    decreases n
  {
    if b != base { BlocksInside(base + size, size, n - 1, b); }
  }

  lemma {:induction false} BlocksApart(base: nat, size: nat, n: nat)
    ensures AllApart(Blocks(base, size, n), size)
    decreases n
  {
    if n > 0 {
      BlocksApart(base + size, size, n - 1);
      var s := Blocks(base, size, n);
      forall j | 0 < j < |s|
        ensures Apart(s[0], s[j], size)
      {
        assert s[j] in Blocks(base + size, size, n - 1);
        BlocksInside(base + size, size, n - 1, s[j]);
      }
    }
  }

  /** The first block of a run points to the rest of it. */
  lemma ChainExtend(m: Memory, r: Memory, base: nat, size: nat, next: nat, list: seq<nat>)
    requires Block(m, base, size) && next < ADDRESS_LIMIT && Holds(m, base, WORD)
    requires r.Keys == m.Keys && forall x :: Inside(x, base, WORD) ==> r[x] == Store(m, base, next)[x]
    requires Chain(r, size, next, list)
    ensures Chain(r, size, base, [base] + list)
  {
    PointerRoundTrip(m, base, next);
    LoadDepends(Store(m, base, next), r, base, WORD);
    assert ([base] + list)[1..] == list;
  }

  lemma {:induction false} LinkMakesChain(m: Memory, base: nat, size: nat, n: nat, tail: nat, list: seq<nat>)
    requires n >= 1 && size >= WORD && Holds(m, base, Extent(size, n))
    requires base > 0 && base + Extent(size, n) <= ADDRESS_LIMIT
    requires Chain(m, size, tail, list) && tail < ADDRESS_LIMIT
    requires forall c :: c in list ==> c + size <= base || base + Extent(size, n) <= c
    ensures Chain(Link(m, base, size, n, tail), size, base, Blocks(base, size, n) + list)
    decreases n
  {
    hide Store, Load, Chain, Holds;
    Part(m, base, Extent(size, n), base, size);
    Part(m, base, Extent(size, n), base, WORD);
    if n == 1 {
      assert Blocks(base, size, 1) == [base];
      ChainPush(m, size, tail, list, base);
    } else {
      Part(m, base, Extent(size, n), base + size, Extent(size, n - 1));
      var first := Store(m, base, base + size);
      ChainDepends(m, first, size, tail, list);
      assert Holds(first, base + size, Extent(size, n - 1)) by { SameKeys(m, first, base + size, Extent(size, n - 1)); }
      LinkMakesChain(first, base + size, size, n - 1, tail, list);
      var rest := Blocks(base + size, size, n - 1) + list;
      ChainExtend(m, Link(m, base, size, n, tail), base, size, base + size, rest);
      assert Blocks(base, size, n) + list == [base] + rest;
    }
  }
}
