/**
 What the CRC register does to whole messages: it is injective in its start value, four
 message bytes act on it like one word, and so no change confined to four consecutive
 bytes goes unnoticed.
 */
module CrcBursts {
  import opened Bytes
  import opened Crc32

  lemma {:induction false} RegisterConcat(c: bv32, s: seq<byte>, t: seq<byte>)
    ensures Register(c, s + t) == Register(Register(c, s), t)
    decreases |s|
  {
    hide Feed;
    if s == [] {
      assert s + t == t;
    } else {
      assert (s + t)[0] == s[0] && (s + t)[1..] == s[1..] + t;
      RegisterConcat(Feed(c, s[0]), s[1..], t);
    }
  }

  /* ---- stepping the register back ---- */

  function Unfeed(c: bv32, b: byte): bv32 {
    Xor(Unshifts(c, 8), Widen(b))
  }

  function Unregister(c: bv32, s: seq<byte>): bv32
    decreases |s|
  {
    if s == [] then c else Unfeed(Unregister(c, s[1..]), s[0])
  }

  lemma FeedUnfeed(c: bv32, b: byte)
    ensures Feed(Unfeed(c, b), b) == c
  {
    hide Xor, Widen, Shifts, Unshifts, Feed;
    FeedIsShifts(Unfeed(c, b), b);
    XorUndo(Widen(b), Unshifts(c, 8));
    ShiftsUnshifts(c, 8);
  }

  lemma FeedInjective(c: bv32, d: bv32, b: byte)
    requires Feed(c, b) == Feed(d, b)
    ensures c == d
  {
    hide Xor, Widen, Shifts, Feed;
    FeedIsShifts(c, b);
    FeedIsShifts(d, b);
    ShiftsInjective(Xor(c, Widen(b)), Xor(d, Widen(b)), 8);
    XorInjective(c, d, Widen(b));
  }

  lemma {:induction false} RegisterUnregister(c: bv32, s: seq<byte>)
    ensures Register(Unregister(c, s), s) == c
    decreases |s|
  {
    hide Feed, Unfeed;
    if s != [] {
      FeedUnfeed(Unregister(c, s[1..]), s[0]);
      RegisterUnregister(c, s[1..]);
    }
  }

  lemma {:induction false} RegisterInjective(c: bv32, d: bv32, s: seq<byte>)
    requires Register(c, s) == Register(d, s)
    ensures c == d
    decreases |s|
  {
    hide Feed;
    if s != [] {
      RegisterInjective(Feed(c, s[0]), Feed(d, s[0]), s[1..]);
      FeedInjective(c, d, s[0]);
    }
  }

  /* ---- up to four bytes act like one word ---- */

  function Up(w: bv32): bv32 { w << 8 }

  /** The first byte is the least significant. */
  function LittleWord(s: seq<byte>): bv32
    requires |s| <= 4
  {
    if s == [] then 0 else Xor(Widen(s[0]), Up(LittleWord(s[1..])))
  }

  predicate Below(w: bv32, k: nat) {
    (k == 0 ==> w == 0) && (k == 1 ==> w < 0x100) && (k == 2 ==> w < 0x1_0000) && (k == 3 ==> w < 0x100_0000)
  }

  lemma BelowUp(w: bv32, b: byte, k: nat)
    requires Below(w, k) && k < 3
    ensures Below(Xor(Widen(b), Up(w)), k + 1)
  {
  }

  lemma {:induction false} LittleWordBelow(s: seq<byte>)
    requires |s| <= 3
    ensures Below(LittleWord(s), |s|)
    decreases |s|
  {
    hide Xor, Up, Widen;
    if s != [] {
      LittleWordBelow(s[1..]);
      BelowUp(LittleWord(s[1..]), s[0], |s| - 1);
    }
  }

  lemma RoomToShift(w: bv32)
    requires w < 0x100_0000
    ensures High24(Up(w)) == Up(w) && Shr8(Up(w)) == w
  {
  }

  lemma SmallWordFits(w: bv32, k: nat)
    requires Below(w, k) && k <= 3
    ensures w < 0x100_0000
  {
  }

  lemma ShiftsUp(w: bv32)
    requires w < 0x100_0000
    ensures Shifts(Up(w), 8) == w
  {
    hide Up, Shr8, High24, Shifts;
    RoomToShift(w);
    LowZeros8(Up(w));
    ShiftsOfZeros(Up(w), 8);
    HalvesOf8(Up(w));
  }

  lemma {:induction false} RegisterIsShifts(c: bv32, s: seq<byte>)
    requires |s| <= 4
    ensures Register(c, s) == Shifts(Xor(c, LittleWord(s)), 8 * |s|)
    decreases |s|
  {
    hide Xor, Up, Widen, Feed, Shift, LowZeros, Below;
    if s == [] {
      XorUndo(c, 0);
    } else {
      var w, t := LittleWord(s[1..]), Xor(c, Widen(s[0]));
      LittleWordBelow(s[1..]);
      SmallWordFits(w, |s| - 1);
      RegisterIsShifts(Feed(c, s[0]), s[1..]);
      calc {
        Xor(Feed(c, s[0]), w);
        { FeedIsShifts(c, s[0]); ShiftsUp(w); }
        Xor(Shifts(t, 8), Shifts(Up(w), 8));
        { ShiftsLinear(t, Up(w), 8); }
        Shifts(Xor(t, Up(w)), 8);
        { XorSwap(c, Widen(s[0]), Up(w)); }
        Shifts(Xor(c, LittleWord(s)), 8);
      }
      ShiftsAdd(Xor(c, LittleWord(s)), 8, 8 * (|s| - 1));
    }
  }

  lemma UnpackByte(w: bv32, b: byte)
    requires w < 0x100_0000
    ensures Low8(Xor(Widen(b), Up(w))) == Widen(b) && Shr8(Xor(Widen(b), Up(w))) == w
  {
  }

  lemma WidenInjective(b: byte, d: byte)
    requires Widen(b) == Widen(d)
    ensures b == d
  {
  }

  lemma LowByteOf(w: bv32, b: byte, v: bv32, d: byte)
    requires w < 0x100_0000 && v < 0x100_0000
    requires Xor(Widen(b), Up(w)) == Xor(Widen(d), Up(v))
    ensures b == d && w == v
  {
    hide Xor, Widen, Up, Low8, Shr8;
    UnpackByte(w, b);
    UnpackByte(v, d);
    WidenInjective(b, d);
  }

  lemma {:induction false} LittleWordInjective(s: seq<byte>, t: seq<byte>)
    requires |s| == |t| <= 4 && LittleWord(s) == LittleWord(t)
    ensures s == t
    decreases |s|
  {
    hide Xor, Up, Widen, Below;
    if s != [] {
      LittleWordBelow(s[1..]);
      LittleWordBelow(t[1..]);
      SmallWordFits(LittleWord(s[1..]), |s| - 1);
      SmallWordFits(LittleWord(t[1..]), |s| - 1);
      LowByteOf(LittleWord(s[1..]), s[0], LittleWord(t[1..]), t[0]);
      LittleWordInjective(s[1..], t[1..]);
      assert s == [s[0]] + s[1..] && t == [t[0]] + t[1..];
    }
  }

  /** From one register value, different strings of at most four bytes lead to different values. */
  lemma ShortInjective(c: bv32, s: seq<byte>, t: seq<byte>)
    requires |s| == |t| <= 4 && Register(c, s) == Register(c, t)
    ensures s == t
  {
    hide Xor, LittleWord, Shifts, Register;
    RegisterIsShifts(c, s);
    RegisterIsShifts(c, t);
    ShiftsInjective(Xor(c, LittleWord(s)), Xor(c, LittleWord(t)), 8 * |s|);
    XorInjective(LittleWord(s), LittleWord(t), c);
    LittleWordInjective(s, t);
  }

  lemma WindowDetected(pre: seq<byte>, s: seq<byte>, t: seq<byte>, post: seq<byte>)
    requires |s| == |t| <= 4 && s != t
    ensures Crc(pre + s + post) != Crc(pre + t + post)
  {
    hide Xor, Register;
    var c := Register(ONES, pre);
    RegisterConcat(ONES, pre + s, post);
    RegisterConcat(ONES, pre + t, post);
    RegisterConcat(ONES, pre, s);
    RegisterConcat(ONES, pre, t);
    if Crc(pre + s + post) == Crc(pre + t + post) {
      XorInjective(Register(ONES, pre + s + post), Register(ONES, pre + t + post), ONES);
      RegisterInjective(Register(c, s), Register(c, t), post);
      ShortInjective(c, s, t);
    }
  }

  /** Burst detection: a change confined to four consecutive bytes always changes the CRC. */
  lemma BurstDetected(a: seq<byte>, b: seq<byte>, i: nat)
    requires |a| == |b| && a != b && i <= |a|
    requires forall k :: 0 <= k < |a| && a[k] != b[k] ==> i <= k < i + 4
    ensures Crc(a) != Crc(b)
  {
    hide Crc;
    var j := if i + 4 <= |a| then i + 4 else |a|;
    assert a == a[..i] + a[i..j] + a[j..];
    assert b[..i] == a[..i] && b[j..] == a[j..];
    assert b == a[..i] + b[i..j] + a[j..];
    WindowDetected(a[..i], a[i..j], b[i..j], a[j..]);
  }
}
