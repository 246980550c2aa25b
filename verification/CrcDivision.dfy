/**
 The meaning of the checksum: the table-driven loop computes the remainder of the message
 polynomial under long division by the CRC-32 generator over GF(2).
 */
module CrcDivision {
  import opened Bytes
  import opened Crc32

  /* ---- reference: schoolbook long division of polynomials over GF(2) ---- */

  /** Coefficients of x^32 + x^26 + x^23 + x^22 + x^16 + x^12 + x^11 + x^10 + x^8 + x^7 + x^5 + x^4 + x^2 + x + 1. */
  const GENERATOR: seq<bool> :=
    [true]
    + [false, false, false, false, false, true, false, false]
    + [true, true, false, false, false, false, false, true]
    + [false, false, false, true, true, true, false, true]
    + [true, false, true, true, false, true, true, true]

  /** Cancels the leading coefficient of `d` by subtracting the generator, aligned with it. */
  function Subtract(d: seq<bool>): (r: seq<bool>)
    requires |d| > 32
    ensures |r| == |d| - 1
  {
    seq(|d| - 1, k requires 0 <= k < |d| - 1 => if k < 32 then d[k + 1] != GENERATOR[k + 1] else d[k + 1])
  }

  function Remainder(d: seq<bool>): (r: seq<bool>)
    ensures |d| >= 32 ==> |r| == 32
    decreases |d|
  {
    if |d| <= 32 then d else Remainder(if d[0] then Subtract(d) else d[1..])
  }

  function ByteBits(b: byte): (m: seq<bool>)
    ensures |m| == 8
  {
    LowBits(Widen(b), 8)
  }

  /** Message bits in transmission order: each byte starts with its least significant bit. */
  function MessageBits(s: seq<byte>): seq<bool> {
    if s == [] then [] else ByteBits(s[0]) + MessageBits(s[1..])
  }

  function Falses(n: nat): (m: seq<bool>)
    ensures |m| == n
  {
    seq(n, _ => false)
  }

  function FlipHead(d: seq<bool>): (r: seq<bool>)
    ensures |r| == |d|
  {
    seq(|d|, k requires 0 <= k < |d| => if k < 32 then !d[k] else d[k])
  }

  function Complement(d: seq<bool>): (r: seq<bool>)
    ensures |r| == |d|
  {
    seq(|d|, k requires 0 <= k < |d| => !d[k])
  }

  /** The checksum as coefficients: complement of the remainder of the message, shifted up
      by 32 places and with its first 32 coefficients complemented. */
  function Checksum(s: seq<byte>): (r: seq<bool>)
    ensures |r| == 32
  {
    Complement(Remainder(FlipHead(MessageBits(s) + Falses(32))))
  }

  /* ---- bits of words ---- */

  predicate Bit(c: bv32, k: nat) { Odd(Halves(c, k)) }

  function LowBits(c: bv32, n: nat): (m: seq<bool>)
    ensures |m| == n && forall k :: 0 <= k < n ==> m[k] == Bit(c, k)
  {
    seq(n, k requires k >= 0 => Bit(c, k))
  }

  lemma {:induction false} HalvesLinear(a: bv32, b: bv32, k: nat)
    ensures Halves(Xor(a, b), k) == Xor(Halves(a, k), Halves(b, k))
    decreases k
  {
    hide Xor, Half;
    if k > 0 {
      XorHalf(a, b);
      HalvesLinear(Half(a), Half(b), k - 1);
    }
  }

  lemma BitXor(a: bv32, b: bv32, k: nat)
    ensures Bit(Xor(a, b), k) == (Bit(a, k) != Bit(b, k))
  {
    hide Xor, Halves, Odd;
    HalvesLinear(a, b, k);
    XorOdd(Halves(a, k), Halves(b, k));
  }

  lemma {:induction false} HalvesAdd(c: bv32, m: nat, n: nat)
    ensures Halves(c, m + n) == Halves(Halves(c, m), n)
    decreases m
  {
    hide Half;
    if m > 0 { HalvesAdd(Half(c), m - 1, n); }
  }

  lemma HalvesBy8(c: bv32, n: nat)
    ensures Halves(c, 8 + n) == Halves(Shr8(c), n)
  {
    hide Half, Shr8;
    HalvesAdd(c, 8, n);
    HalvesOf8(c);
  }

  lemma FourOctets(c: bv32)
    ensures !Odd(Shr8(Shr8(Shr8(Shr8(c)))))
  {
  }

  lemma TopBit(c: bv32)
    ensures !Bit(Half(c), 31)
  {
    hide Half, Shr8, Odd;
    HalvesBy8(c, 24);
    HalvesBy8(Shr8(c), 16);
    HalvesBy8(Shr8(Shr8(c)), 8);
    HalvesBy8(Shr8(Shr8(Shr8(c))), 0);
    FourOctets(c);
  }

  /** The low coefficients of `c`, one halving at a time. */
  function Peel(c: bv32, n: nat): (m: seq<bool>)
    ensures |m| == n
    decreases n
  {
    if n == 0 then [] else [Odd(c)] + Peel(Half(c), n - 1)
  }

  lemma LowBitsTail(c: bv32, n: nat)
    requires n > 0
    ensures LowBits(c, n)[0] == Odd(c) && LowBits(c, n)[1..] == LowBits(Half(c), n - 1)
  {
    hide Half, Odd;
    var m := LowBits(c, n);
    assert forall k :: 0 <= k < n - 1 ==> m[1..][k] == Bit(c, k + 1) == Bit(Half(c), k);
  }

  lemma {:induction false} LowBitsArePeeled(c: bv32, n: nat)
    ensures LowBits(c, n) == Peel(c, n)
    decreases n
  {
    hide Half, Odd, Bit;
    if n > 0 {
      LowBitsTail(c, n);
      LowBitsArePeeled(Half(c), n - 1);
      assert LowBits(c, n) == [Odd(c)] + LowBits(c, n)[1..];
    }
  }

  lemma ZeroHalves(c: bv32)
    ensures Halves(c, 0) == c
  {
  }

  lemma PolyOctets()
    ensures LowBits(POLY, 8) == GENERATOR[1..9]
    ensures LowBits(Shr8(POLY), 8) == GENERATOR[9..17]
    ensures LowBits(Shr8(Shr8(POLY)), 8) == GENERATOR[17..25]
    ensures LowBits(Shr8(Shr8(Shr8(POLY))), 8) == GENERATOR[25..]
  {
    hide Bit, Halves;
    LowBitsArePeeled(POLY, 8);
    LowBitsArePeeled(Shr8(POLY), 8);
    LowBitsArePeeled(Shr8(Shr8(POLY)), 8);
    LowBitsArePeeled(Shr8(Shr8(Shr8(POLY))), 8);
  }

  /** The reflected constant of the loop holds the generator's coefficients below x^32. */
  lemma PolyIsGenerator(k: nat)
    requires k < 32
    ensures Bit(POLY, k) == GENERATOR[k + 1]
  {
    hide Half, Shr8, Odd, Halves;
    PolyOctets();
    var p1, p2, p3 := Shr8(POLY), Shr8(Shr8(POLY)), Shr8(Shr8(Shr8(POLY)));
    if k < 8 {
      assert LowBits(POLY, 8)[k] == GENERATOR[1..9][k];
    } else if k < 16 {
      HalvesBy8(POLY, k - 8);
      assert LowBits(p1, 8)[k - 8] == GENERATOR[9..17][k - 8];
    } else if k < 24 {
      HalvesBy8(POLY, k - 8);
      HalvesBy8(p1, k - 16);
      assert LowBits(p2, 8)[k - 16] == GENERATOR[17..25][k - 16];
    } else {
      HalvesBy8(POLY, k - 8);
      HalvesBy8(p1, k - 16);
      HalvesBy8(p2, k - 24);
      assert LowBits(p3, 8)[k - 24] == GENERATOR[25..][k - 24];
    }
  }

  /* ---- the bit-serial register ---- */

  function InBit(c: bv32, b: bool): bv32 {
    if Odd(c) != b then Xor(POLY, Half(c)) else Half(c)
  }

  function Serial(c: bv32, m: seq<bool>): bv32
    decreases |m|
  {
    if m == [] then c else Serial(InBit(c, m[0]), m[1..])
  }

  lemma {:induction false} SerialConcat(c: bv32, m: seq<bool>, n: seq<bool>)
    ensures Serial(c, m + n) == Serial(Serial(c, m), n)
    decreases |m|
  {
    hide InBit;
    if m == [] {
      assert m + n == n;
    } else {
      assert (m + n)[0] == m[0] && (m + n)[1..] == m[1..] + n;
      SerialConcat(InBit(c, m[0]), m[1..], n);
    }
  }

  lemma AbsorbBit(c: bv32, w: bv32)
    ensures Shift(Xor(c, w)) == Xor(InBit(c, Odd(w)), Half(w))
  {
    hide Xor, Half, Odd;
    XorOdd(c, w);
    XorHalf(c, w);
    XorSwap(POLY, Half(c), Half(w));
  }

  lemma {:induction false} SerialIsShifts(c: bv32, w: bv32, n: nat)
    requires Halves(w, n) == 0
    ensures Serial(c, LowBits(w, n)) == Shifts(Xor(c, w), n)
    decreases n
  {
    hide Xor, Half, Odd, InBit, Shift;
    if n == 0 {
      XorUndo(c, 0);
    } else {
      LowBitsTail(w, n);
      SerialIsShifts(InBit(c, Odd(w)), Half(w), n - 1);
      AbsorbBit(c, w);
    }
  }

  lemma OctetVanishes(b: byte)
    ensures Shr8(Widen(b)) == 0
  {
  }

  lemma FeedIsSerial(c: bv32, b: byte)
    ensures Feed(c, b) == Serial(c, ByteBits(b))
  {
    hide Xor, Widen, Shr8, Feed, Serial, Shifts;
    HalvesOf8(Widen(b));
    OctetVanishes(b);
    SerialIsShifts(c, Widen(b), 8);
    FeedIsShifts(c, b);
  }

  lemma {:induction false} RegisterIsSerial(c: bv32, s: seq<byte>)
    ensures Register(c, s) == Serial(c, MessageBits(s))
    decreases |s|
  {
    hide Feed, ByteBits, Serial;
    if s == [] {
      assert Serial(c, []) == c by { SerialNil(c); }
    } else {
      FeedIsSerial(c, s[0]);
      RegisterIsSerial(Feed(c, s[0]), s[1..]);
      SerialConcat(c, ByteBits(s[0]), MessageBits(s[1..]));
    }
  }

  lemma SerialNil(c: bv32)
    ensures Serial(c, []) == c
  {
  }

  /* ---- the register holds the running remainder ---- */

  /** What is left to divide once the register holds `c` and the bits `m` are still to come. */
  function Dividend(c: bv32, m: seq<bool>): (d: seq<bool>)
    ensures |d| == |m| + 32
  {
    var t := m + Falses(32);
    seq(|m| + 32, k requires 0 <= k < |m| + 32 => if k < 32 then t[k] != Bit(c, k) else t[k])
  }

  lemma InBitBits(c: bv32, b: bool, k: nat)
    requires k < 32
    ensures Bit(InBit(c, b), k) == ((k < 31 && Bit(c, k + 1)) != (Odd(c) != b && GENERATOR[k + 1]))
  {
    hide Xor, Half, Odd;
    TopBit(c);
    BitXor(POLY, Half(c), k);
    PolyIsGenerator(k);
    assert Bit(Half(c), k) == Bit(c, k + 1);
  }

  lemma DividendStep(c: bv32, m: seq<bool>)
    requires m != []
    ensures var d := Dividend(c, m);
            d[0] == (Odd(c) != m[0]) && Dividend(InBit(c, m[0]), m[1..]) == if d[0] then Subtract(d) else d[1..]
  {
    hide InBit, Odd, Halves;
    var d, e := Dividend(c, m), Dividend(InBit(c, m[0]), m[1..]);
    var next := if d[0] then Subtract(d) else d[1..];
    assert Bit(c, 0) == Odd(c) by { ZeroHalves(c); }
    assert m[1..] + Falses(32) == (m + Falses(32))[1..];
    forall k | 0 <= k < |e|
      ensures e[k] == next[k]
    {
      if k < 32 { InBitBits(c, m[0], k); }
    }
    assert e == next;
  }

  lemma {:induction false} DivisionInvariant(c: bv32, m: seq<bool>)
    ensures Remainder(Dividend(c, m)) == LowBits(Serial(c, m), 32)
    decreases |m|
  {
    hide InBit, Odd, Halves, Subtract;
    if m == [] {
      assert Dividend(c, m) == LowBits(c, 32);
    } else {
      DividendStep(c, m);
      DivisionInvariant(InBit(c, m[0]), m[1..]);
    }
  }

  lemma OnesOctets()
    ensures forall k :: 0 <= k < 8 ==> LowBits(ONES, 8)[k] && LowBits(Shr8(ONES), 8)[k]
    ensures forall k :: 0 <= k < 8 ==> LowBits(Shr8(Shr8(ONES)), 8)[k] && LowBits(Shr8(Shr8(Shr8(ONES))), 8)[k]
  {
    hide Bit, Halves;
    LowBitsArePeeled(ONES, 8);
    LowBitsArePeeled(Shr8(ONES), 8);
    LowBitsArePeeled(Shr8(Shr8(ONES)), 8);
    LowBitsArePeeled(Shr8(Shr8(Shr8(ONES))), 8);
  }

  lemma OnesBits(k: nat)
    requires k < 32
    ensures Bit(ONES, k)
  {
    hide Half, Odd, Halves, Shr8;
    var o1, o2, o3 := Shr8(ONES), Shr8(Shr8(ONES)), Shr8(Shr8(Shr8(ONES)));
    OnesOctets();
    if k < 8 {
      assert LowBits(ONES, 8)[k];
    } else if k < 16 {
      HalvesBy8(ONES, k - 8);
      assert LowBits(o1, 8)[k - 8];
    } else if k < 24 {
      HalvesBy8(ONES, k - 8);
      HalvesBy8(o1, k - 16);
      assert LowBits(o2, 8)[k - 16];
    } else {
      HalvesBy8(ONES, k - 8);
      HalvesBy8(o1, k - 16);
      HalvesBy8(o2, k - 24);
      assert LowBits(o3, 8)[k - 24];
    }
  }

  /** Main result: bit k of the computed checksum is coefficient k of the reference. */
  lemma CrcIsDivision(s: seq<byte>)
    ensures LowBits(Crc(s), 32) == Checksum(s)
  {
    hide Xor, Register, Serial, Halves, Odd, Remainder;
    var m := MessageBits(s);
    RegisterIsSerial(ONES, s);
    DivisionInvariant(ONES, m);
    assert FlipHead(m + Falses(32)) == Dividend(ONES, m) by {
      forall k | 0 <= k < 32 ensures Bit(ONES, k) { OnesBits(k); }
    }
    forall k | 0 <= k < 32
      ensures LowBits(Crc(s), 32)[k] == Checksum(s)[k]
    {
      BitXor(Register(ONES, s), ONES, k);
      OnesBits(k);
    }
  }
}
