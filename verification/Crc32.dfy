/**
 The table-driven CRC-32 of the codec and the algebra of its register: the register step
 is linear and bijective, and one table look-up is eight single-bit steps.
 */
module Crc32 {
  import opened Bytes

  const ONES: bv32 := 0xFFFF_FFFF
  const POLY: bv32 := 0xEDB8_8320

  /* ---- word operations, named so that proofs can treat them as symbols ---- */

  function Xor(a: bv32, b: bv32): bv32 { a ^ b }

  function Half(a: bv32): bv32 { a >> 1 }

  predicate Odd(a: bv32) { a & 1 == 1 }

  function Low8(a: bv32): bv32 { a & 0xFF }

  function High24(a: bv32): bv32 { a & 0xFFFF_FF00 }

  function Shr8(a: bv32): bv32 { a >> 8 }

  function Widen(b: byte): bv32 { b as bv32 }

  /* ---- the algorithm ---- */

  /** One round of the inner loop that fills the table. */
  function Shift(c: bv32): bv32 {
    if Odd(c) then Xor(POLY, Half(c)) else Half(c)
  }

  function Shifts(c: bv32, n: nat): bv32
    decreases n
  {
    if n == 0 then c else Shifts(Shift(c), n - 1)
  }

  function TableEntry(i: nat): bv32
    requires i < 256
  {
    Shifts(Word(i), 8)
  }

  function TableIndex(c: bv32, b: byte): (i: nat)
    ensures i < 256
  {
    LowByteRange(Xor(c, Widen(b)));
    Low8(Xor(c, Widen(b))) as int
  }

  lemma LowByteRange(w: bv32)
    ensures 0 <= Low8(w) as int < 256
  {
  }

  /** The register after one more message byte: one table look-up. */
  function Feed(c: bv32, b: byte): bv32 {
    Xor(TableEntry(TableIndex(c, b)), Shr8(c))
  }

  function Register(c: bv32, s: seq<byte>): bv32
    decreases |s|
  {
    if s == [] then c else Register(Feed(c, s[0]), s[1..])
  }

  function Crc(s: seq<byte>): bv32 {
    Xor(Register(ONES, s), ONES)
  }

  lemma ShiftBits(c: bv32)
    ensures Shift(c) == if c & 1 == 1 then 0xEDB8_8320 ^ (c >> 1) else c >> 1
  {
  }

  /** The eight rounds that compute one entry of the table. */
  method EightRounds(i: nat) returns (c: bv32)
    requires i < 256
    ensures c == TableEntry(i)
  {
    hide Word, Xor, Half, Odd, Shift;
    c := Word(i);
    for j := 0 to 8
      invariant Shifts(c, 8 - j) == TableEntry(i)
    {
      ShiftBits(c);
      c := if c & 1 == 1 then 0xEDB8_8320 ^ (c >> 1) else c >> 1;
    }
  }

  /** The static table, filled on first use, and the checksum loop over it. */
  class Calculator {
    var table: array<bv32>
    var initialised: bool

    ghost predicate Valid()
      reads this, table
    {
      table.Length == 256 && (initialised ==> forall i :: 0 <= i < 256 ==> table[i] == TableEntry(i))
    }

    constructor ()
      ensures Valid() && fresh(table)
    {
      table := new bv32[256];
      initialised := false;
    }

    method InitTable()
      requires table.Length == 256
      modifies table
      ensures forall i :: 0 <= i < 256 ==> table[i] == TableEntry(i)
    {
      hide TableEntry;
      for i := 0 to 256
        invariant forall k :: 0 <= k < i ==> table[k] == TableEntry(k)
      {
        var c := EightRounds(i);
        table[i] := c;
      }
    }

    /** The loop computes `Crc`, whatever state the lazily filled table is in. */
    method Calculate(data: seq<byte>) returns (r: bv32)
      requires Valid()
      modifies this, table
      ensures Valid() && initialised && table == old(table)
      ensures r == Crc(data)
    {
      hide TableEntry, TableIndex, Xor;
      if !initialised {
        InitTable();
        initialised := true;
      }
      var crc := ONES;
      for i := 0 to |data|
        invariant Valid() && initialised && table == old(table)
        invariant Register(crc, data[i..]) == Register(ONES, data)
      {
        assert data[i..][0] == data[i] && data[i..][1..] == data[i + 1..];
        crc := Xor(table[TableIndex(crc, data[i])], Shr8(crc));
      }
      r := Xor(crc, ONES);
    }
  }

  /* ---- the register step is linear ---- */

  lemma XorCommutes(a: bv32, b: bv32)
    ensures Xor(a, b) == Xor(b, a)
  {
  }

  lemma XorAssociates(a: bv32, b: bv32, c: bv32)
    ensures Xor(Xor(a, b), c) == Xor(a, Xor(b, c))
  {
  }

  lemma XorSwap(p: bv32, a: bv32, b: bv32)
    ensures Xor(Xor(p, a), b) == Xor(p, Xor(a, b)) && Xor(a, Xor(p, b)) == Xor(p, Xor(a, b))
  {
    hide Xor;
    XorAssociates(p, a, b);
    XorAssociates(a, p, b);
    XorCommutes(a, p);
  }

  lemma XorTwice(p: bv32, a: bv32, b: bv32)
    ensures Xor(Xor(p, a), Xor(p, b)) == Xor(a, b)
  {
    hide Xor;
    XorSwap(p, a, Xor(p, b));
    XorSwap(p, a, b);
    XorUndo(p, Xor(a, b));
  }

  lemma XorUndo(a: bv32, b: bv32)
    ensures Xor(a, Xor(a, b)) == b && Xor(Xor(b, a), a) == b && Xor(a, 0) == a
  {
  }

  lemma XorInjective(a: bv32, b: bv32, x: bv32)
    requires Xor(a, x) == Xor(b, x) || Xor(x, a) == Xor(x, b)
    ensures a == b
  {
  }

  lemma XorOdd(a: bv32, b: bv32)
    ensures Odd(Xor(a, b)) <==> Odd(a) != Odd(b)
  {
  }

  lemma XorHalf(a: bv32, b: bv32)
    ensures Half(Xor(a, b)) == Xor(Half(a), Half(b))
  {
  }

  lemma ShiftLinear(a: bv32, b: bv32)
    ensures Shift(Xor(a, b)) == Xor(Shift(a), Shift(b))
  {
    hide Xor, Half, Odd;
    XorOdd(a, b);
    XorHalf(a, b);
    XorSwap(POLY, Half(a), Half(b));
    XorTwice(POLY, Half(a), Half(b));
  }

  lemma {:induction false} ShiftsLinear(a: bv32, b: bv32, n: nat)
    ensures Shifts(Xor(a, b), n) == Xor(Shifts(a, n), Shifts(b, n))
    decreases n
  {
    hide Xor, Shift;
    if n > 0 {
      ShiftLinear(a, b);
      ShiftsLinear(Shift(a), Shift(b), n - 1);
    }
  }

  lemma ShiftsAdd(c: bv32, m: nat, n: nat)
    ensures Shifts(c, m + n) == Shifts(Shifts(c, m), n)
    decreases m
  {
    hide Shift;
    if m > 0 { ShiftsAdd(Shift(c), m - 1, n); }
  }

  /* ---- and has an inverse ---- */

  function Unshift(c: bv32): bv32 {
    if c & 0x8000_0000 == 0 then c << 1 else ((c ^ 0xEDB8_8320) << 1) | 1
  }

  lemma EvenShift(a: bv32)
    requires !Odd(a)
    ensures (a >> 1) & 0x8000_0000 == 0 && (a >> 1) << 1 == a
  {
  }

  lemma OddShift(a: bv32)
    requires Odd(a)
    ensures var c := 0xEDB8_8320 ^ (a >> 1); c & 0x8000_0000 != 0 && ((c ^ 0xEDB8_8320) << 1) | 1 == a
  {
  }

  lemma LowUnshift(a: bv32)
    requires a & 0x8000_0000 == 0
    ensures !Odd(a << 1) && (a << 1) >> 1 == a
  {
  }

  lemma HighUnshift(a: bv32)
    requires a & 0x8000_0000 != 0
    ensures var c := ((a ^ 0xEDB8_8320) << 1) | 1; Odd(c) && 0xEDB8_8320 ^ (c >> 1) == a
  {
  }

  lemma UnshiftShift(a: bv32)
    ensures Unshift(Shift(a)) == a
  {
    if Odd(a) { OddShift(a); } else { EvenShift(a); }
  }

  lemma ShiftUnshift(a: bv32)
    ensures Shift(Unshift(a)) == a
  {
    if a & 0x8000_0000 == 0 { LowUnshift(a); } else { HighUnshift(a); }
  }

  function Unshifts(c: bv32, n: nat): bv32
    decreases n
  {
    if n == 0 then c else Unshift(Unshifts(c, n - 1))
  }

  lemma {:induction false} ShiftsUnshifts(c: bv32, n: nat)
    ensures Shifts(Unshifts(c, n), n) == c && Unshifts(Shifts(c, n), n) == c
    decreases n
  {
    hide Shift, Unshift;
    if n > 0 {
      ShiftUnshift(Unshifts(c, n - 1));
      ShiftsUnshifts(c, n - 1);
      ShiftsUnshifts(Shift(c), n - 1);
      UnshiftShift(c);
    }
  }

  lemma ShiftsInjective(a: bv32, b: bv32, n: nat)
    requires Shifts(a, n) == Shifts(b, n)
    ensures a == b
  {
    ShiftsUnshifts(a, n);
    ShiftsUnshifts(b, n);
  }

  /* ---- one table look-up is eight shifts ---- */

  predicate LowZeros(c: bv32, n: nat)
    decreases n
  {
    n == 0 || (!Odd(c) && LowZeros(Half(c), n - 1))
  }

  function Halves(c: bv32, n: nat): bv32
    decreases n
  {
    if n == 0 then c else Halves(Half(c), n - 1)
  }

  lemma {:induction false} ShiftsOfZeros(c: bv32, n: nat)
    requires LowZeros(c, n)
    ensures Shifts(c, n) == Halves(c, n)
    decreases n
  {
    hide Half, Odd;
    if n > 0 { ShiftsOfZeros(Half(c), n - 1); }
  }

  lemma HalvesOf8(c: bv32)
    ensures Halves(c, 8) == Shr8(c)
  {
  }

  lemma LowZeros8(c: bv32)
    ensures LowZeros(High24(c), 8)
  {
  }

  lemma SplitWord(w: bv32)
    ensures w == Xor(Low8(w), High24(w)) && Shr8(High24(w)) == Shr8(w)
  {
  }

  lemma ByteXorHigh(c: bv32, b: byte)
    ensures Shr8(Xor(c, Widen(b))) == Shr8(c)
  {
  }

  lemma FeedIsShifts(c: bv32, b: byte)
    ensures Feed(c, b) == Shifts(Xor(c, Widen(b)), 8)
  {
    hide Shifts, Xor, Widen, Low8, High24, Shr8;
    var w := Xor(c, Widen(b));
    SplitWord(w);
    ByteXorHigh(c, b);
    WordOfValue(Low8(w));
    ShiftsLinear(Low8(w), High24(w), 8);
    LowZeros8(w);
    ShiftsOfZeros(High24(w), 8);
    HalvesOf8(High24(w));
  }
}
