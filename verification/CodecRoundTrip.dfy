/**
 When does a frame survive encode and decode?  The encoder takes the checksum while ten header
 bytes are still zero, the decoder takes it after they are filled in, so the round trip holds
 exactly for the payloads whose checksum equals one value determined by `seq` and `cmd`.
 */
module CodecRoundTrip {
  import opened Bytes
  import opened Crc32
  import opened CrcBursts
  import opened Codec

  /** The one stored checksum that makes the filled header look like zeros to the register. */
  function RequiredCrc(seqNo: bv32, cmd: bv16): bv32 {
    var target := Register(ONES, Zeros(10));
    Swap(Xor(ONES, Unshifts(Unregister(target, WordBytes(seqNo) + HalfBytes(cmd)), 32)))
  }

  lemma PackedBytes(w: bv32)
    ensures Xor(Widen((w >> 24) as bv8), Up(Xor(Widen(((w >> 16) & 0xFF) as bv8),
              Up(Xor(Widen(((w >> 8) & 0xFF) as bv8), Up(Xor(Widen((w & 0xFF) as bv8), Up(0)))))))) == Swap(w)
  {
  }

  lemma LittleWordOf(a: byte, b: byte, c: byte, d: byte)
    ensures LittleWord([a, b, c, d]) == Xor(Widen(a), Up(Xor(Widen(b), Up(Xor(Widen(c), Up(Xor(Widen(d), Up(0))))))))
  {
    hide Xor, Up, Widen;
    assert [a, b, c, d][1..] == [b, c, d] && [b, c, d][1..] == [c, d] && [c, d][1..] == [d];
    assert [d][1..] == [];
    assert LittleWord([d]) == Xor(Widen(d), Up(0));
    assert LittleWord([c, d]) == Xor(Widen(c), Up(Xor(Widen(d), Up(0))));
  }

  lemma LittleWordIsSwap(w: bv32)
    ensures LittleWord(WordBytes(w)) == Swap(w)
  {
    hide Swap, Xor, Up, Widen, LittleWord;
    PackedBytes(w);
    LittleWordOf((w >> 24) as bv8, ((w >> 16) & 0xFF) as bv8, ((w >> 8) & 0xFF) as bv8, (w & 0xFF) as bv8);
  }

  lemma SwapEquals(a: bv32, b: bv32)
    ensures Swap(a) == b <==> a == Swap(b)
  {
    hide Swap;
    SwapTwice(a);
    SwapTwice(b);
  }

  lemma XorEquals(a: bv32, b: bv32, x: bv32)
    ensures Xor(a, b) == x <==> b == Xor(a, x)
  {
    hide Xor;
    XorUndo(a, b);
    XorUndo(a, x);
  }

  /** The filled header drives the register where ten zero bytes do iff it stores that checksum. */
  lemma FilledLikeZeros(crc: bv32, seqNo: bv32, cmd: bv16)
    ensures Register(ONES, Filled(crc, seqNo, cmd)) == Register(ONES, Zeros(10)) <==> crc == RequiredCrc(seqNo, cmd)
  {
    hide Register, Unregister, Shifts, Unshifts, LittleWord, Xor, Swap, WordBytes, HalfBytes;
    var target := Register(ONES, Zeros(10));
    var tail := WordBytes(seqNo) + HalfBytes(cmd);
    var start := Unregister(target, tail);
    var word := Xor(ONES, Swap(crc));
    RegisterConcat(ONES, WordBytes(crc), tail);
    RegisterIsShifts(ONES, WordBytes(crc));
    LittleWordIsSwap(crc);
    assert Register(ONES, Filled(crc, seqNo, cmd)) == Register(Shifts(word, 32), tail);
    RegisterUnregister(target, tail);
    assert Register(ONES, Filled(crc, seqNo, cmd)) == target <==> Shifts(word, 32) == start by {
      if Register(ONES, Filled(crc, seqNo, cmd)) == target { RegisterInjective(Shifts(word, 32), start, tail); }
    }
    ShiftsUnshifts(start, 32);
    ShiftsUnshifts(word, 32);
    assert Shifts(word, 32) == start <==> word == Unshifts(start, 32);
    XorEquals(ONES, Swap(crc), Unshifts(start, 32));
    SwapEquals(crc, Xor(ONES, Unshifts(start, 32)));
  }

  /** The decoder recomputes the stored checksum exactly when it is the required one. */
  lemma ChecksumAgrees(cmd: bv16, data: seq<byte>, seqNo: bv32)
    ensures Crc(Filled(BodyCrc(data), seqNo, cmd) + data) == BodyCrc(data) <==> BodyCrc(data) == RequiredCrc(seqNo, cmd)
  {
    hide Register, RequiredCrc, Filled, Xor;
    var crc := BodyCrc(data);
    var filled := Filled(crc, seqNo, cmd);
    RegisterConcat(ONES, filled, data);
    RegisterConcat(ONES, Zeros(10), data);
    FilledLikeZeros(crc, seqNo, cmd);
    if Crc(filled + data) == crc {
      XorInjective(Register(ONES, filled + data), Register(ONES, Zeros(10) + data), ONES);
      RegisterInjective(Register(ONES, filled), Register(ONES, Zeros(10)), data);
    }
  }

  /** Every header field of a frame of any size reads back as it was written. */
  lemma FrameFields(cmd: bv16, data: seq<byte>, seqNo: bv32)
    ensures var f := Frame(cmd, data, seqNo);
            && ReadLength(f[..4]) == (15 + |data|) % 0x1_0000_0000 && f[4] == 1
            && ReadWord(f[5..9]) == StoredCrc(data)
            && StoredCrc(data) == Crc((Zeros(10) + data)[..(10 + |data|) % 0x1_0000_0000])
            && ReadWord(f[9..13]) == seqNo && ReadHalf(f[13..15]) == cmd
            && f[5..] == Filled(StoredCrc(data), seqNo, cmd) + data && f[15..] == data
  {
    hide WordBytes, HalfBytes, LengthBytes, ReadWord, ReadHalf, ReadLength, Crc, TotalLength;
    var f := Frame(cmd, data, seqNo);
    LengthRoundTrip(TotalLength(data));
    WordRoundTrip(StoredCrc(data));
    WordRoundTrip(seqNo);
    HalfRoundTrip(cmd);
    assert f[..4] == LengthBytes(TotalLength(data));
    assert f[5..9] == WordBytes(StoredCrc(data));
    assert f[9..13] == WordBytes(seqNo);
    assert f[13..15] == HalfBytes(cmd);
    assert f[5..] == Filled(StoredCrc(data), seqNo, cmd) + data;
  }

  lemma ShiftedLength(w: bv32)
    requires w < 0x100_0000
    ensures (((w >> 16) & 0xFF) as bv8 as bv32 << 24) | (((w >> 8) & 0xFF) as bv8 as bv32 << 16)
            | ((w & 0xFF) as bv8 as bv32 << 8) | (1 as bv8) as bv32 == (w << 8) | 1
  {
  }

  lemma ShiftedValue(w: bv32)
    requires w < 0x100_0000
    ensures ((w << 8) | 1) as int == 256 * (w as int) + 1
  {
  }

  lemma SmallValue(w: bv32)
    requires w as int < 0x100_0000
    ensures w < 0x100_0000
  {
  }

  lemma WordOneByteIn(w: bv32)
    requires w < 0x100_0000
    ensures ReadWord(WordBytes(w)[1..] + [PROTOCOL_VERSION]) == (w << 8) | 1
  {
    var s := WordBytes(w)[1..] + [PROTOCOL_VERSION];
    assert s == [((w >> 16) & 0xFF) as bv8, ((w >> 8) & 0xFF) as bv8, (w & 0xFF) as bv8, 1];
    ShiftedLength(w);
  }

  /** One byte into a frame, the length field reads 256 times the frame's length plus one. */
  lemma LengthOneByteIn(n: nat)
    requires n < 0x100_0000
    ensures ReadLength(LengthBytes(n)[1..] + [PROTOCOL_VERSION]) == 256 * n + 1
  {
    hide Word, ReadWord, WordBytes;
    var w := Word(n);
    SmallValue(w);
    WordOneByteIn(w);
    ShiftedValue(w);
  }

  /** What happens one byte into a rejected frame. */
  lemma AfterRejection(cmd: bv16, data: seq<byte>, seqNo: bv32)
    requires HEADER_SIZE + |data| <= MAX_PACKET_SIZE
    ensures var f := Frame(cmd, data, seqNo);
            TryDecode(f[1..]) == if |f| < 40960 then Outcome(None, f[1..], false) else Outcome(None, [], true)
  {
    hide ReadLength, LengthBytes, ReadWord, ReadHalf, Crc, StoredCrc;
    var f := Frame(cmd, data, seqNo);
    LengthOneByteIn(|f|);
    assert f[1..][..4] == LengthBytes(|f|)[1..] + [PROTOCOL_VERSION];
  }

  /** What the decoder makes of a frame whose length does not wrap: the packet unchanged if the frame
      fits and its checksum is the required one.  Any other frame yields nothing: an oversized one
      clears the buffer; one of 40960 bytes or more is dropped; a shorter one stays in the buffer,
      minus its first byte, waiting for a frame of 256 times its length. */
  lemma FrameDecodes(cmd: bv16, data: seq<byte>, seqNo: bv32)
    requires HEADER_SIZE + |data| < U32_LIMIT
    ensures var f := Frame(cmd, data, seqNo);
            if HEADER_SIZE + |data| > MAX_PACKET_SIZE then TryDecode(f) == Outcome(None, [], true)
            else if BodyCrc(data) == RequiredCrc(seqNo, cmd)
            then TryDecode(f) == Outcome(Some(Packet(seqNo, cmd, data)), [], false)
            else TryDecode(f) == if |f| < 40960 then Outcome(None, f[1..], false) else Outcome(None, [], true)
  {
    hide ReadLength, ReadWord, ReadHalf, BodyCrc, StoredCrc, RequiredCrc, Filled, Frame, Crc;
    var f := Frame(cmd, data, seqNo);
    StoredIsBody(data);
    FrameFields(cmd, data, seqNo);
    ChecksumAgrees(cmd, data, seqNo);
    if HEADER_SIZE + |data| <= MAX_PACKET_SIZE { AfterRejection(cmd, data, seqNo); }
    assert f[5..|f|] == f[5..] && f[15..|f|] == f[15..] && f[|f|..] == [];
  }

  /** No packet comes out with more data than the largest frame holds. */
  lemma {:induction false} DecodedIsSmall(buf: seq<byte>)
    ensures TryDecode(buf).pkt.Some? ==> |TryDecode(buf).pkt.value.data| <= MAX_PACKET_SIZE - HEADER_SIZE
    decreases |buf|
  {
    hide ReadLength, ReadWord, ReadHalf, Crc;
    if Look(buf).Skip? { DecodedIsSmall(buf[1..]); }
  }

  /** Round trip, for every command, sequence number and payload: the packet comes back iff its
      frame is at most 10 MB and its checksum is the required one. */
  lemma RoundTripIff(cmd: bv16, data: seq<byte>, seqNo: bv32)
    ensures TryDecode(Frame(cmd, data, seqNo)).pkt == Some(Packet(seqNo, cmd, data))
            <==> HEADER_SIZE + |data| <= MAX_PACKET_SIZE && BodyCrc(data) == RequiredCrc(seqNo, cmd)
  {
    hide BodyCrc, RequiredCrc, Frame, TryDecode;
    if HEADER_SIZE + |data| < U32_LIMIT {
      FrameDecodes(cmd, data, seqNo);
    } else {
      DecodedIsSmall(Frame(cmd, data, seqNo));
    }
  }

  /** With `seq` and `cmd` zero only a payload with checksum zero survives. */
  lemma RequiredCrcOfZero()
    ensures RequiredCrc(0, 0) == 0
  {
    hide RequiredCrc, Register;
    assert WordBytes(0) == Zeros(4) && HalfBytes(0) == Zeros(2);
    assert Filled(0, 0, 0) == Zeros(10);
    FilledLikeZeros(0, 0, 0);
  }

  /** Two payloads that differ only inside four consecutive bytes never both survive. */
  lemma NeighboursExclude(cmd: bv16, seqNo: bv32, a: seq<byte>, b: seq<byte>, i: nat)
    requires |a| == |b| && a != b && i <= |a|
    requires forall k :: 0 <= k < |a| && a[k] != b[k] ==> i <= k < i + 4
    ensures !(BodyCrc(a) == RequiredCrc(seqNo, cmd) && BodyCrc(b) == RequiredCrc(seqNo, cmd))
  {
    hide Crc, RequiredCrc;
    var x, y := Zeros(10) + a, Zeros(10) + b;
    assert x[10..] == a && y[10..] == b;
    assert forall k :: 10 <= k < |x| ==> x[k] == a[k - 10] && y[k] == b[k - 10];
    BurstDetected(x, y, i + 10);
  }

  /** Whatever surrounds them, four bytes can be chosen so that the payload survives; with the lemma
      above, exactly one of the 2^32 choices does. */
  lemma SurvivorExists(cmd: bv16, seqNo: bv32, pre: seq<byte>, post: seq<byte>) returns (w: seq<byte>)
    ensures |w| == 4 && BodyCrc(pre + w + post) == RequiredCrc(seqNo, cmd)
  {
    hide Register, Unregister, Shifts, Unshifts, LittleWord, Xor, Swap, WordBytes, RequiredCrc;
    var goal := RequiredCrc(seqNo, cmd);
    var start := Register(ONES, Zeros(10) + pre);
    var end := Unregister(Xor(ONES, goal), post);
    var word := Xor(start, Unshifts(end, 32));
    w := WordBytes(Swap(word));
    LittleWordIsSwap(Swap(word));
    SwapTwice(word);
    RegisterIsShifts(start, w);
    XorUndo(start, Unshifts(end, 32));
    ShiftsUnshifts(end, 32);
    assert Register(start, w) == end;
    RegisterConcat(ONES, Zeros(10) + pre, w);
    RegisterConcat(ONES, Zeros(10) + pre + w, post);
    RegisterUnregister(Xor(ONES, goal), post);
    assert Zeros(10) + (pre + w + post) == Zeros(10) + pre + w + post;
    XorBack(ONES, goal);
  }

  lemma XorBack(a: bv32, b: bv32)
    ensures Xor(Xor(a, b), a) == b
  {
  }

  /* ---- a concrete frame that does not survive ---- */

  function Step8(c: bv32): bv32 {
    Shift(Shift(Shift(Shift(Shift(Shift(Shift(Shift(c))))))))
  }

  lemma ZeroByte(c: bv32, n: nat)
    ensures Register(c, Zeros(n + 1)) == Register(Step8(c), Zeros(n))
  {
    hide Shift, Feed, Xor;
    FeedIsShifts(c, 0);
    assert Xor(c, Widen(0)) == c by { XorUndo(c, 0); }
    assert Shifts(c, 8) == Shifts(Shift(Shift(Shift(Shift(c)))), 4);
    assert Zeros(n + 1)[1..] == Zeros(n);
  }

  lemma ZeroStepsA()
    ensures Step8(0xFFFF_FFFF) == 0x2DFD_1072 && Step8(0x2DFD_1072) == 0xBE26_ED00 && Step8(0xBE26_ED00) == 0x00BE_26ED
  {
  }

  lemma ZeroStepsB()
    ensures Step8(0x00BE_26ED) == 0xDEBB_20E3 && Step8(0xDEBB_20E3) == 0x39DD_08E2 && Step8(0x39DD_08E2) == 0x4E3D_5E5C
  {
  }

  lemma ZeroStepsC()
    ensures Step8(0x4E3D_5E5C) == 0x6293_2081 && Step8(0x6293_2081) == 0x9ADD_2096
  {
  }

  lemma ZeroStepsD()
    ensures Step8(0x9ADD_2096) == 0x19F6_EB51 && Step8(0x19F6_EB51) == 0x1C75_9789
  {
  }

  lemma RegisterOfTenZeros()
    ensures Register(ONES, Zeros(10)) == 0x1C75_9789
  {
    hide Step8, Register;
    ZeroStepsA();
    ZeroStepsB();
    ZeroStepsC();
    ZeroStepsD();
    ZeroByte(0xFFFF_FFFF, 9);
    ZeroByte(0x2DFD_1072, 8);
    ZeroByte(0xBE26_ED00, 7);
    ZeroByte(0x00BE_26ED, 6);
    ZeroByte(0xDEBB_20E3, 5);
    ZeroByte(0x39DD_08E2, 4);
    ZeroByte(0x4E3D_5E5C, 3);
    ZeroByte(0x6293_2081, 2);
    ZeroByte(0x9ADD_2096, 1);
    ZeroByte(0x19F6_EB51, 0);
    assert Register(0x1C75_9789, Zeros(0)) == 0x1C75_9789 by { RegisterOfNothing(0x1C75_9789); }
  }

  lemma RegisterOfNothing(c: bv32)
    ensures Register(c, Zeros(0)) == c
  {
  }

  /** The empty packet with `seq` and `cmd` zero is encoded, but the decoder returns nothing for it. */
  lemma EmptyPacketIsLost()
    ensures TryDecode(Frame(0, [], 0)) == Outcome(None, Frame(0, [], 0)[1..], false)
  {
    hide RequiredCrc, Register, Frame;
    RegisterOfTenZeros();
    RequiredCrcOfZero();
    assert Zeros(10) + [] == Zeros(10);
    assert BodyCrc([]) != 0;
    FrameDecodes(0, [], 0);
  }
}
