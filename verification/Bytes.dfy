/**
 Bytes, 32-bit words and the big-endian fields of the two wire formats.
 */
module Bytes {

  type byte = bv8

  const U32_LIMIT: nat := 0x1_0000_0000

  /* ---- conversion of sizes to 32-bit words ---- */

  function Pow2(k: nat): (p: nat)
    ensures p >= 1
  {
    if k == 0 then 1 else 2 * Pow2(k - 1)
  }

  lemma Pow2Of32()
    ensures Pow2(32) == U32_LIMIT
  {
    assert Pow2(8) == 0x100;
    assert Pow2(16) == 0x100 * Pow2(8);
    assert Pow2(24) == 0x100 * Pow2(16);
    assert Pow2(32) == 0x100 * Pow2(24);
  }

  lemma DoubleWord(w: bv32)
    requires w < 0x8000_0000
    ensures (w << 1) as int == 2 * (w as int)
  {
  }

  lemma DoubleWordPlusOne(w: bv32)
    requires w < 0x8000_0000
    ensures ((w << 1) | 1) as int == (w << 1) as int + 1
  {
  }

  lemma SmallWord(w: bv32)
    requires w as int < 0x8000_0000
    ensures w < 0x8000_0000
  {
  }

  /** The word with value `n`, built from the `k` binary digits of `n`. */
  function WordOfBits(n: nat, k: nat): (w: bv32)
    requires k <= 32 && n < Pow2(k)
    ensures w as int == n
  {
    if k == 0 then 0
    else
      var h := WordOfBits(n / 2, k - 1);
      assert h < 0x8000_0000 by {
        HalfBelow(k);
        SmallWord(h);
      }
      DoubleWord(h);
      DoubleWordPlusOne(h);
      if n % 2 == 1 then (h << 1) | 1 else h << 1
  }

  lemma HalfBelow(k: nat)
    requires 1 <= k <= 32
    ensures Pow2(k - 1) <= 0x8000_0000
  {
    Pow2Of32();
    Pow2Monotone(k, 32);
  }

  lemma Pow2Monotone(i: nat, j: nat)
    requires i <= j
    ensures Pow2(i) <= Pow2(j)
  {
    if i < j { Pow2Monotone(i, j - 1); }
  }

  function Word(n: nat): (w: bv32)
    requires n < U32_LIMIT
    ensures w as int == n
  {
    Pow2Of32();
    WordOfBits(n, 32)
  }

  lemma WordIsItsValue(w: bv32)
    ensures (w as int) as bv32 == w
  {
  }

  lemma WordRange(w: bv32)
    ensures 0 <= w as int < U32_LIMIT
  {
  }

  lemma WordOfValue(w: bv32)
    ensures 0 <= w as int < U32_LIMIT && Word(w as int) == w
  {
    WordRange(w);
    WordIsItsValue(w);
    WordIsItsValue(Word(w as int));
  }

  /* ---- big-endian fields ---- */

  function WordBytes(w: bv32): (s: seq<byte>)
    ensures |s| == 4
  {
    [(w >> 24) as bv8, ((w >> 16) & 0xFF) as bv8, ((w >> 8) & 0xFF) as bv8, (w & 0xFF) as bv8]
  }

  function ReadWord(s: seq<byte>): bv32
    requires |s| == 4
  {
    (s[0] as bv32 << 24) | (s[1] as bv32 << 16) | (s[2] as bv32 << 8) | s[3] as bv32
  }

  function HalfBytes(h: bv16): (s: seq<byte>)
    ensures |s| == 2
  {
    [(h >> 8) as bv8, (h & 0xFF) as bv8]
  }

  function ReadHalf(s: seq<byte>): bv16
    requires |s| == 2
  {
    (s[0] as bv16 << 8) | s[1] as bv16
  }

  lemma WordBits(w: bv32)
    ensures (((w >> 24) as bv8) as bv32 << 24) | ((((w >> 16) & 0xFF) as bv8) as bv32 << 16)
            | ((((w >> 8) & 0xFF) as bv8) as bv32 << 8) | ((w & 0xFF) as bv8) as bv32 == w
  {
  }

  lemma WordOfBytes(a: byte, b: byte, c: byte, d: byte)
    ensures var w := (a as bv32 << 24) | (b as bv32 << 16) | (c as bv32 << 8) | d as bv32;
            (w >> 24) as bv8 == a && ((w >> 16) & 0xFF) as bv8 == b && ((w >> 8) & 0xFF) as bv8 == c
            && (w & 0xFF) as bv8 == d
  {
  }

  lemma HalfBits(h: bv16)
    ensures (((h >> 8) as bv8) as bv16 << 8) | ((h & 0xFF) as bv8) as bv16 == h
  {
  }

  lemma HalfOfBytes(a: byte, b: byte)
    ensures var h := (a as bv16 << 8) | b as bv16;
            (h >> 8) as bv8 == a && (h & 0xFF) as bv8 == b
  {
  }

  lemma WordRoundTrip(w: bv32)
    ensures ReadWord(WordBytes(w)) == w
  {
    WordBits(w);
  }

  lemma HalfRoundTrip(h: bv16)
    ensures ReadHalf(HalfBytes(h)) == h
  {
    HalfBits(h);
  }

  lemma WordIsCanonical(s: seq<byte>)
    requires |s| == 4
    ensures WordBytes(ReadWord(s)) == s
  {
    WordOfBytes(s[0], s[1], s[2], s[3]);
  }

  lemma HalfIsCanonical(s: seq<byte>)
    requires |s| == 2
    ensures HalfBytes(ReadHalf(s)) == s
  {
    HalfOfBytes(s[0], s[1]);
  }

  function Append(w: bv32, b: byte): bv32 { (w << 8) | b as bv32 }

  lemma AppendBits(w: bv32, b: byte)
    requires w < 0x100_0000
    ensures ((w << 8) | b as bv32) as int == 256 * (w as int) + b as int
  {
  }

  lemma AppendByte(w: bv32, b: byte)
    requires w < 0x100_0000
    ensures Append(w, b) as int == 256 * (w as int) + b as int
  {
    calc {
      Append(w, b) as int;
      ((w << 8) | b as bv32) as int;
      { AppendBits(w, b); }
      256 * (w as int) + b as int;
    }
  }

  lemma AppendToByte(a: byte, b: byte)
    ensures ((a as bv16 << 8) | b as bv16) as int == 256 * (a as int) + b as int
  {
  }

  lemma Horner(a: byte, b: byte, c: byte, d: byte)
    ensures var w := Append(0, a);
            w < 0x100_0000 && Append(w, b) < 0x100_0000 && Append(Append(w, b), c) < 0x100_0000
            && (a as bv32 << 24) | (b as bv32 << 16) | (c as bv32 << 8) | d as bv32
               == Append(Append(Append(w, b), c), d)
  {
  }

  lemma ReadIsHorner(s: seq<byte>)
    requires |s| == 4
    ensures var w := Append(0, s[0]);
            w < 0x100_0000 && Append(w, s[1]) < 0x100_0000 && Append(Append(w, s[1]), s[2]) < 0x100_0000
            && ReadWord(s) == Append(Append(Append(w, s[1]), s[2]), s[3])
  {
    hide Append;
    Horner(s[0], s[1], s[2], s[3]);
  }

  /** Fields are big-endian: the first byte weighs most. */
  lemma BigEndianWord(s: seq<byte>)
    requires |s| == 4
    ensures ReadWord(s) as int
            == 0x100_0000 * (s[0] as int) + 0x1_0000 * (s[1] as int) + 0x100 * (s[2] as int) + s[3] as int
  {
    hide Append, ReadWord;
    ReadIsHorner(s);
    AppendByte(0, s[0]);
    AppendByte(Append(0, s[0]), s[1]);
    AppendByte(Append(Append(0, s[0]), s[1]), s[2]);
    AppendByte(Append(Append(Append(0, s[0]), s[1]), s[2]), s[3]);
  }

  lemma BigEndianHalf(s: seq<byte>)
    requires |s| == 2
    ensures ReadHalf(s) as int == 0x100 * (s[0] as int) + s[1] as int
  {
    AppendToByte(s[0], s[1]);
  }

  /** And so are the fields written. */
  lemma WrittenBigEndian(w: bv32, h: bv16)
    ensures var s := WordBytes(w);
            w as int == 0x100_0000 * (s[0] as int) + 0x1_0000 * (s[1] as int) + 0x100 * (s[2] as int) + s[3] as int
    ensures var t := HalfBytes(h);
            h as int == 0x100 * (t[0] as int) + t[1] as int
  {
    hide WordBytes, HalfBytes, ReadWord, ReadHalf;
    WordRoundTrip(w);
    HalfRoundTrip(h);
    BigEndianWord(WordBytes(w));
    BigEndianHalf(HalfBytes(h));
  }

  /* ---- the length field ---- */

  function LengthBytes(n: nat): (s: seq<byte>)
    requires n < U32_LIMIT
    ensures |s| == 4
  {
    WordBytes(Word(n))
  }

  function ReadLength(s: seq<byte>): (n: nat)
    requires |s| == 4
    ensures n < U32_LIMIT
  {
    WordRange(ReadWord(s));
    ReadWord(s) as int
  }

  lemma LengthRoundTrip(n: nat)
    requires n < U32_LIMIT
    ensures ReadLength(LengthBytes(n)) == n
  {
    WordRoundTrip(Word(n));
  }

  lemma LengthIsCanonical(s: seq<byte>)
    requires |s| == 4
    ensures LengthBytes(ReadLength(s)) == s
  {
    WordOfValue(ReadWord(s));
    WordIsCanonical(s);
  }

  function Zeros(n: nat): (s: seq<byte>)
    ensures |s| == n && forall i :: 0 <= i < n ==> s[i] == 0
  {
    seq(n, _ => 0)
  }
}
