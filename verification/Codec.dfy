/**
 The checksummed frame format
   [length: 4][version: 1][crc: 4][seq: 4][cmd: 2][data]
 its encoder, and the decoder that scans a growing buffer: it waits for more bytes, takes a
 frame, skips one byte after a checksum mismatch, or drops everything on a bad length.
 */
module Codec {
  import opened Bytes
  import opened Crc32
  import opened Sequences

  datatype Option<T> = None | Some(value: T)

  datatype Packet = Packet(seqNo: bv32, cmd: bv16, data: seq<byte>)

  const PROTOCOL_VERSION: byte := 1
  const HEADER_SIZE: nat := 15
  const MAX_PACKET_SIZE: nat := 10 * 1024 * 1024

  /* ---- host byte order ---- */

  function Swap(w: bv32): bv32 {
    ((w & 0xFF00_0000) >> 24) | ((w & 0x00FF_0000) >> 8) | ((w & 0x0000_FF00) << 8) | ((w & 0x0000_00FF) << 24)
  }

  function Htonl(littleEndian: bool, w: bv32): bv32 {
    if littleEndian then Swap(w) else w
  }

  function Htons(littleEndian: bool, h: bv16): bv16 {
    if littleEndian then (h >> 8) | (h << 8) else h
  }

  /** The bytes of a word in the memory of the host. */
  function Memory32(littleEndian: bool, w: bv32): (s: seq<byte>)
    ensures |s| == 4
  {
    var s := WordBytes(w);
    if littleEndian then [s[3], s[2], s[1], s[0]] else s
  }

  function Memory16(littleEndian: bool, h: bv16): (s: seq<byte>)
    ensures |s| == 2
  {
    var s := HalfBytes(h);
    if littleEndian then [s[1], s[0]] else s
  }

  /** The word or half word that the host loads from its memory. */
  function Load32(littleEndian: bool, s: seq<byte>): bv32
    requires |s| == 4
  {
    ReadWord(if littleEndian then [s[3], s[2], s[1], s[0]] else s)
  }

  function Load16(littleEndian: bool, s: seq<byte>): bv16
    requires |s| == 2
  {
    ReadHalf(if littleEndian then [s[1], s[0]] else s)
  }

  function Pack(a: byte, b: byte, c: byte, d: byte): bv32 {
    (a as bv32 << 24) | (b as bv32 << 16) | (c as bv32 << 8) | d as bv32
  }

  lemma SwapRead(a: byte, b: byte, c: byte, d: byte)
    ensures Swap(Pack(d, c, b, a)) == Pack(a, b, c, d)
  {
  }

  lemma ReadIsPack(s: seq<byte>)
    requires |s| == 4
    ensures ReadWord(s) == Pack(s[0], s[1], s[2], s[3])
  {
  }

  lemma SwapReadHalf(a: byte, b: byte)
    ensures ((((b as bv16 << 8) | a as bv16) >> 8) | (((b as bv16 << 8) | a as bv16) << 8))
            == (a as bv16 << 8) | b as bv16
  {
  }

  lemma HostOrder32(littleEndian: bool, s: seq<byte>)
    requires |s| == 4
    ensures Htonl(littleEndian, Load32(littleEndian, s)) == ReadWord(s)
  {
    hide Swap, Pack, ReadWord;
    if littleEndian {
      SwapRead(s[0], s[1], s[2], s[3]);
      ReadIsPack(s);
      ReadIsPack([s[3], s[2], s[1], s[0]]);
    }
  }

  lemma HostOrder16(littleEndian: bool, s: seq<byte>)
    requires |s| == 2
    ensures Htons(littleEndian, Load16(littleEndian, s)) == ReadHalf(s)
  {
    if littleEndian { SwapReadHalf(s[0], s[1]); }
  }

  /** What `ntohl` and `ntohs` make of loaded fields is their big-endian value on either kind of
      host. */
  lemma HostOrder(littleEndian: bool, s: seq<byte>, t: seq<byte>)
    requires |s| == 4 && |t| == 2
    ensures Htonl(littleEndian, Load32(littleEndian, s)) == ReadWord(s)
    ensures Htons(littleEndian, Load16(littleEndian, t)) == ReadHalf(t)
  {
    hide Htonl, Htons, Load32, Load16, ReadWord, ReadHalf;
    HostOrder32(littleEndian, s);
    HostOrder16(littleEndian, t);
  }

  /** The length field at the front of a buffer. */
  method LoadLength(littleEndian: bool, buf: seq<byte>) returns (total: nat)
    requires |buf| >= 4
    ensures total == ReadLength(buf[..4])
  {
    hide Htonl, Load32, ReadWord;
    HostOrder32(littleEndian, buf[..4]);
    var w := Htonl(littleEndian, Load32(littleEndian, buf[..4]));
    WordRange(w);
    total := w as int;
  }

  /** The header fields behind the version. */
  method LoadHeader(littleEndian: bool, buf: seq<byte>) returns (sum: bv32, seqNo: bv32, cmd: bv16)
    requires |buf| >= HEADER_SIZE
    ensures sum == ReadWord(buf[5..9]) && seqNo == ReadWord(buf[9..13]) && cmd == ReadHalf(buf[13..15])
  {
    hide Htonl, Htons, Load32, Load16, ReadWord, ReadHalf;
    HostOrder(littleEndian, buf[5..9], buf[13..15]);
    HostOrder32(littleEndian, buf[9..13]);
    sum := Htonl(littleEndian, Load32(littleEndian, buf[5..9]));
    seqNo := Htonl(littleEndian, Load32(littleEndian, buf[9..13]));
    cmd := Htons(littleEndian, Load16(littleEndian, buf[13..15]));
  }

  lemma SwapBytes(w: bv32)
    ensures (Swap(w) >> 24) as bv8 == (w & 0xFF) as bv8
    ensures ((Swap(w) >> 16) & 0xFF) as bv8 == ((w >> 8) & 0xFF) as bv8
    ensures ((Swap(w) >> 8) & 0xFF) as bv8 == ((w >> 16) & 0xFF) as bv8
    ensures (Swap(w) & 0xFF) as bv8 == (w >> 24) as bv8
  {
  }

  lemma SwapHalves(h: bv16)
    ensures (((h >> 8) | (h << 8)) >> 8) as bv8 == (h & 0xFF) as bv8
    ensures (((h >> 8) | (h << 8)) & 0xFF) as bv8 == (h >> 8) as bv8
  {
  }

  lemma SwapTwice(w: bv32)
    ensures Swap(Swap(w)) == w
  {
  }

  /** What `htonl` stores is big-endian on either kind of host. */
  lemma NetworkOrder(littleEndian: bool, w: bv32, h: bv16)
    ensures Memory32(littleEndian, Htonl(littleEndian, w)) == WordBytes(w)
    ensures Memory16(littleEndian, Htons(littleEndian, h)) == HalfBytes(h)
  {
    hide Swap;
    SwapBytes(w);
    SwapHalves(h);
  }

  /* ---- encoding ---- */

  /** The checksum the encoder stores: the header bytes behind the version are still zero
      when it is computed. */
  function BodyCrc(data: seq<byte>): bv32 {
    Crc(Zeros(10) + data)
  }

  /** The ten header bytes behind the version, once filled in. */
  function Filled(crc: bv32, seqNo: bv32, cmd: bv16): (s: seq<byte>)
    ensures |s| == 10
  {
    WordBytes(crc) + (WordBytes(seqNo) + HalfBytes(cmd))
  }

  /** The 32-bit length of a frame. */
  function TotalLength(data: seq<byte>): (n: nat)
    ensures n < U32_LIMIT && n == (15 + |data|) % 0x1_0000_0000
  {
    (HEADER_SIZE + |data|) % U32_LIMIT
  }

  /** How many bytes behind the version the encoder's checksum covers: the length less five, in
      32-bit arithmetic, which is everything unless the length wraps. */
  function Covered(data: seq<byte>): (n: nat)
    ensures n <= 10 + |data| && n == (10 + |data|) % 0x1_0000_0000
  {
    var total := TotalLength(data);
    if total >= 5 then total - 5 else total + U32_LIMIT - 5
  }

  function StoredCrc(data: seq<byte>): bv32 {
    Crc((Zeros(10) + data)[..Covered(data)])
  }

  lemma StoredIsBody(data: seq<byte>)
    requires HEADER_SIZE + |data| < U32_LIMIT
    ensures StoredCrc(data) == BodyCrc(data)
  {
    hide Crc;
    assert (Zeros(10) + data)[..10 + |data|] == Zeros(10) + data;
  }

  function Frame(cmd: bv16, data: seq<byte>, seqNo: bv32): (f: seq<byte>)
    ensures |f| == HEADER_SIZE + |data|
  {
    LengthBytes(TotalLength(data)) + [PROTOCOL_VERSION] + Filled(StoredCrc(data), seqNo, cmd) + data
  }

  function Patch(s: seq<byte>, at: nat, p: seq<byte>): (r: seq<byte>)
    requires at + |p| <= |s|
    ensures |r| == |s|
  {
    s[..at] + p + s[at + |p|..]
  }

  /** The header fields written over the placeholder, in the encoder's order. */
  function Fill(out: seq<byte>, l: seq<byte>, c: seq<byte>, n: seq<byte>, h: seq<byte>): (r: seq<byte>)
    requires |out| >= HEADER_SIZE && |l| == |c| == |n| == 4 && |h| == 2
    ensures |r| == |out|
  {
    Patch(Patch(Patch(Patch(Patch(out, 0, l), 4, [PROTOCOL_VERSION]), 5, c), 9, n), 13, h)
  }

  method FillHeader(littleEndian: bool, out: seq<byte>, total: nat, sum: bv32, seqNo: bv32, cmd: bv16)
    returns (r: seq<byte>)
    requires |out| >= HEADER_SIZE && total < U32_LIMIT
    ensures r == Fill(out, LengthBytes(total), WordBytes(sum), WordBytes(seqNo), HalfBytes(cmd))
  {
    hide WordBytes, HalfBytes, Patch, Htonl, Htons, Memory32, Memory16, Word;
    NetworkOrder(littleEndian, Word(total), cmd);
    NetworkOrder(littleEndian, sum, cmd);
    NetworkOrder(littleEndian, seqNo, cmd);
    r := Patch(out, 0, Memory32(littleEndian, Htonl(littleEndian, Word(total))));
    r := Patch(r, 4, [PROTOCOL_VERSION]);
    r := Patch(r, 5, Memory32(littleEndian, Htonl(littleEndian, sum)));
    r := Patch(r, 9, Memory32(littleEndian, Htonl(littleEndian, seqNo)));
    r := Patch(r, 13, Memory16(littleEndian, Htons(littleEndian, cmd)));
  }

  lemma FilledFrame(cmd: bv16, data: seq<byte>, seqNo: bv32)
    ensures var out := Zeros(HEADER_SIZE) + data;
            && out[5..] == Zeros(10) + data
            && Fill(out, LengthBytes(TotalLength(data)), WordBytes(StoredCrc(data)), WordBytes(seqNo), HalfBytes(cmd))
               == Frame(cmd, data, seqNo)
  {
    hide WordBytes, HalfBytes, LengthBytes, StoredCrc, TotalLength;
    var l, c, n, h := LengthBytes(TotalLength(data)), WordBytes(StoredCrc(data)), WordBytes(seqNo), HalfBytes(cmd);
    var v := [PROTOCOL_VERSION];
    var out := Zeros(HEADER_SIZE) + data;
    assert out[5..] == Zeros(10) + data;
    assert [] + Zeros(15) + data == out;
    PatchZeros([], 15, l, data);
    PatchZeros(l, 11, v, data);
    PatchZeros(l + v, 10, c, data);
    PatchZeros(l + v + c, 6, n, data);
    PatchZeros(l + v + c + n, 2, h, data);
    assert [] + l == l;
    assert l + v + c + n + h + Zeros(0) + data == l + v + (c + (n + h)) + data;
  }

  /** Writing a field over the first of the `k` placeholder bytes that are left. */
  lemma PatchZeros(done: seq<byte>, k: nat, p: seq<byte>, data: seq<byte>)
    requires |p| <= k
    ensures Patch(done + Zeros(k) + data, |done|, p) == done + p + Zeros(k - |p|) + data
  {
  }

  /* ---- one look at the front of the buffer ---- */

  datatype Verdict = Wait | Clear | Skip | Take(pkt: Packet, size: nat)

  function Look(buf: seq<byte>): (v: Verdict)
    ensures v.Take? ==> HEADER_SIZE <= v.size <= |buf|
    ensures v.Skip? || v.Clear? ==> |buf| >= HEADER_SIZE
  {
    if |buf| < HEADER_SIZE then Wait
    else
      var total := ReadLength(buf[..4]);
      if total < HEADER_SIZE || total > MAX_PACKET_SIZE then Clear
      else if |buf| < total then Wait
      else if Crc(buf[5..total]) != ReadWord(buf[5..9]) then Skip
      else Take(Packet(ReadWord(buf[9..13]), ReadHalf(buf[13..15]), buf[15..total]), total)
  }

  datatype Outcome = Outcome(pkt: Option<Packet>, rest: seq<byte>, cleared: bool)

  /** One call of the decoder on a buffer. */
  function TryDecode(buf: seq<byte>): (o: Outcome)
    ensures o.pkt.Some? ==> |o.rest| < |buf| && !o.cleared
    decreases |buf|
  {
    match Look(buf)
    case Wait => Outcome(None, buf, false)
    case Clear => Outcome(None, [], true)
    case Skip => TryDecode(buf[1..])
    case Take(p, n) => Outcome(Some(p), buf[n..], false)
  }

  datatype Sweep = Sweep(pkts: seq<Packet>, rest: seq<byte>, cleared: bool)

  /** All packets of a buffer, scanned in one go until it waits or clears. */
  function ScanAll(buf: seq<byte>): Sweep
    decreases |buf|
  {
    var o := TryDecode(buf);
    if o.pkt.None? then Sweep([], o.rest, o.cleared)
    else
      var s := ScanAll(o.rest);
      Sweep([o.pkt.value] + s.pkts, s.rest, s.cleared)
  }

  /** The decoder object. */
  class Decoder {
    const littleEndian: bool
    const crc: Calculator
    var buffer: seq<byte>

    ghost predicate Valid()
      reads this, crc, crc.table
    {
      crc.Valid()
    }

    constructor (hostIsLittleEndian: bool)
      ensures Valid() && buffer == [] && fresh(crc) && fresh(crc.table)
    {
      littleEndian := hostIsLittleEndian;
      crc := new Calculator();
      buffer := [];
    }

    method Encode(cmd: bv16, data: seq<byte>, seqNo: bv32) returns (out: seq<byte>)
      requires Valid()
      modifies crc, crc.table
      ensures Valid() && crc.table == old(crc.table)
      ensures out == Frame(cmd, data, seqNo)
    {
      hide TableEntry, Crc, Fill, Frame, WordBytes, HalfBytes, LengthBytes;
      out := Zeros(HEADER_SIZE) + data;
      FilledFrame(cmd, data, seqNo);
      var total := TotalLength(data);
      var sum := crc.Calculate(out[5..][..Covered(data)]);
      out := FillHeader(littleEndian, out, total, sum, seqNo, cmd);
    }

    /** The tests of one round of the decoding loop. */
    method Inspect() returns (v: Verdict)
      requires Valid() && |buffer| >= HEADER_SIZE
      modifies crc, crc.table
      ensures Valid() && crc.table == old(crc.table)
      ensures v == Look(buffer)
    {
      hide TableEntry, Crc, ReadLength, ReadWord, ReadHalf;
      var total := LoadLength(littleEndian, buffer);
      if total < HEADER_SIZE || total > MAX_PACKET_SIZE { return Clear; }
      if |buffer| < total { return Wait; }
      var stored, seqNo, cmd := LoadHeader(littleEndian, buffer);
      var sum := crc.Calculate(buffer[5..total]);
      if sum != stored { return Skip; }
      return Take(Packet(seqNo, cmd, buffer[15..total]), total);
    }

    method Decode(input: seq<byte>) returns (r: Option<Packet>)
      requires Valid()
      modifies this, crc, crc.table
      ensures Valid() && crc.table == old(crc.table)
      ensures r == TryDecode(old(buffer) + input).pkt
      ensures buffer == TryDecode(old(buffer) + input).rest
    {
      buffer := buffer + input;
      while |buffer| >= HEADER_SIZE
        invariant Valid() && crc.table == old(crc.table)
        invariant TryDecode(buffer) == TryDecode(old(buffer) + input)
        decreases |buffer|
      {
        hide Look, TableEntry;
        var v := Inspect();
        match v {
          case Wait => return None;
          case Clear => buffer := []; return None;
          case Skip => buffer := buffer[1..];
          case Take(pkt, n) => buffer := buffer[n..]; return Some(pkt);
        }
      }
      assert Look(buffer) == Wait;
      return None;
    }
  }

  /* ---- how more input changes the view ---- */

  lemma LookExtend(buf: seq<byte>, more: seq<byte>)
    requires !Look(buf).Wait?
    ensures Look(buf + more) == Look(buf)
  {
    hide ReadLength, ReadWord, ReadHalf, Crc;
    var all := buf + more;
    assert all[..4] == buf[..4] && all[5..9] == buf[5..9] && all[9..13] == buf[9..13] && all[13..15] == buf[13..15];
    var total := ReadLength(buf[..4]);
    if HEADER_SIZE <= total <= |buf| {
      assert all[5..total] == buf[5..total] && all[15..total] == buf[15..total];
    }
  }

  lemma {:induction false} TryExtend(buf: seq<byte>, more: seq<byte>)
    ensures var o := TryDecode(buf);
            TryDecode(buf + more) ==
            if o.pkt.Some? then Outcome(o.pkt, o.rest + more, false)
            else if o.cleared then o
            else TryDecode(o.rest + more)
    decreases |buf|
  {
    hide Look;
    if !Look(buf).Wait? { LookExtend(buf, more); }
    match Look(buf)
    case Wait =>
    case Clear =>
    case Skip =>
      TryExtend(buf[1..], more);
      assert (buf + more)[1..] == buf[1..] + more;
    case Take(p, n) =>
      assert (buf + more)[n..] == buf[n..] + more;
  }

  lemma ScanAfter(buf: seq<byte>, more: seq<byte>)
    ensures var o := TryDecode(buf);
            ScanAll(buf + more) ==
            if o.cleared then Sweep([], [], true)
            else
              var s := ScanAll(o.rest + more);
              Sweep((if o.pkt.Some? then [o.pkt.value] else []) + s.pkts, s.rest, s.cleared)
  {
    hide Look;
    TryExtend(buf, more);
    ClearLeavesNothing(buf);
  }

  lemma {:induction false} ClearLeavesNothing(buf: seq<byte>)
    ensures TryDecode(buf).cleared ==> TryDecode(buf).rest == [] && TryDecode(buf).pkt == None
    decreases |buf|
  {
    hide Look;
    if Look(buf).Skip? { ClearLeavesNothing(buf[1..]); }
  }

  /* ---- feeding a stream in pieces ---- */

  /** The result of successive calls, up to and including the first that clears the buffer. */
  datatype Feeding = Feeding(pkts: seq<Packet>, buffer: seq<byte>, cleared: bool, calls: nat)

  function FeedAll(buffer: seq<byte>, chunks: seq<seq<byte>>): (r: Feeding)
    ensures r.calls <= |chunks| && (!r.cleared ==> r.calls == |chunks|)
    decreases |chunks|
  {
    if chunks == [] then Feeding([], buffer, false, 0)
    else
      var o := TryDecode(buffer + chunks[0]);
      if o.cleared then Feeding([], o.rest, true, 1)
      else
        var r := FeedAll(o.rest, chunks[1..]);
        Feeding((if o.pkt.Some? then [o.pkt.value] else []) + r.pkts, r.buffer, r.cleared, 1 + r.calls)
  }

  /** Stream-decoder invariant: for every split of the input into calls, the packets returned
      so far followed by a scan of what is buffered are the one-shot scan of all bytes fed. */
  lemma {:induction false} SplitInvariance(buffer: seq<byte>, chunks: seq<seq<byte>>)
    ensures var r := FeedAll(buffer, chunks);
            var rest := ScanAll(r.buffer);
            ScanAll(buffer + Flatten(chunks[..r.calls])) ==
            if r.cleared then Sweep(r.pkts, [], true) else Sweep(r.pkts + rest.pkts, rest.rest, rest.cleared)
    decreases |chunks|
  {
    hide TryDecode, ScanAll;
    var r := FeedAll(buffer, chunks);
    if chunks == [] {
      assert buffer + Flatten(chunks[..0]) == buffer;
    } else {
      var front := buffer + chunks[0];
      var o := TryDecode(front);
      var more := if o.cleared then [] else Flatten(chunks[1..][..r.calls - 1]);
      assert chunks[..r.calls][0] == chunks[0] && chunks[..r.calls][1..] == chunks[1..r.calls];
      assert o.cleared ==> Flatten(chunks[..1]) == chunks[0];
      assert !o.cleared ==> chunks[1..r.calls] == chunks[1..][..r.calls - 1];
      assert buffer + Flatten(chunks[..r.calls]) == front + more;
      ScanAfter(front, more);
      if !o.cleared { SplitInvariance(o.rest, chunks[1..]); }
    }
  }

  /** Calls without new input hand out everything that is already complete in the buffer. */
  lemma {:induction false} EmptyCallsDrain(buffer: seq<byte>, k: nat)
    ensures k >= |ScanAll(buffer).pkts| ==> FeedAll(buffer, seq(k, _ => [])).pkts == ScanAll(buffer).pkts
    decreases k
  {
    hide Look;
    var calls := seq(k, _ => []);
    if k > 0 {
      var o := TryDecode(buffer);
      assert buffer + calls[0] == buffer;
      assert calls[1..] == seq(k - 1, _ => []);
      if o.pkt.Some? {
        EmptyCallsDrain(o.rest, k - 1);
      } else if !o.cleared {
        WaitingIsStable(buffer);
        EmptyCallsDrain(o.rest, k - 1);
      }
    }
  }

  lemma {:induction false} WaitingIsStable(buffer: seq<byte>)
    requires TryDecode(buffer).pkt.None? && !TryDecode(buffer).cleared
    ensures TryDecode(TryDecode(buffer).rest) == TryDecode(buffer)
    decreases |buffer|
  {
    hide Look;
    if Look(buffer).Skip? { WaitingIsStable(buffer[1..]); }
  }

  /* ---- the decoder in terms of the bytes ---- */

  /** The length field is complete and out of range. */
  predicate Refused(s: seq<byte>) {
    |s| >= 15 && (ReadLength(s[..4]) < 15 || ReadLength(s[..4]) > 10485760)
  }

  /** A frame whose length is in range and which is there in full. */
  predicate Complete(s: seq<byte>) {
    |s| >= 15 && 15 <= ReadLength(s[..4]) <= 10485760 && ReadLength(s[..4]) <= |s|
  }

  /** The checksum stored at byte 5 is that of everything behind the version. */
  predicate Matched(s: seq<byte>) {
    Complete(s) && Crc(s[5..ReadLength(s[..4])]) == ReadWord(s[5..9])
  }

  predicate Mismatched(s: seq<byte>) {
    Complete(s) && Crc(s[5..ReadLength(s[..4])]) != ReadWord(s[5..9])
  }

  function Content(s: seq<byte>): Packet
    requires Complete(s)
  {
    Packet(ReadWord(s[9..13]), ReadHalf(s[13..15]), s[15..ReadLength(s[..4])])
  }

  /** What one look decides, in terms of the bytes. */
  lemma LookOnBytes(s: seq<byte>)
    ensures Look(s).Clear? <==> Refused(s)
    ensures Look(s).Skip? <==> Mismatched(s)
    ensures Look(s).Take? <==> Matched(s)
    ensures Matched(s) ==> Look(s) == Take(Content(s), ReadLength(s[..4]))
  {
    hide Crc, ReadLength, ReadWord, ReadHalf;
  }

  /** A length field out of range, too small or too large, costs the whole buffer. */
  lemma RefusedClears(buf: seq<byte>)
    requires |buf| >= 15 && (ReadLength(buf[..4]) < 15 || ReadLength(buf[..4]) > 10485760)
    ensures TryDecode(buf) == Outcome(None, [], true)
  {
    hide Look;
    LookOnBytes(buf);
  }

  /** The decoder passes over the offsets at which a complete frame has a wrong checksum.  At the first
      other offset it takes a complete frame with the right one, gives up on a length out of range,
      or waits with everything from there on. */
  lemma {:induction false} FirstFrame(buf: seq<byte>) returns (k: nat)
    ensures k <= |buf| && (forall j :: 0 <= j < k ==> Mismatched(buf[j..])) && !Mismatched(buf[k..])
    ensures Matched(buf[k..]) ==>
              var n := ReadLength(buf[k..][..4]);
              TryDecode(buf) == Outcome(Some(Content(buf[k..])), buf[k + n..], false)
    ensures Refused(buf[k..]) ==> TryDecode(buf) == Outcome(None, [], true)
    ensures !Matched(buf[k..]) && !Refused(buf[k..]) ==> TryDecode(buf) == Outcome(None, buf[k..], false)
    decreases |buf|
  {
    hide Look, Mismatched, Matched, Refused, ReadLength;
    assert buf[0..] == buf;
    LookOnBytes(buf);
    if Mismatched(buf) {
      var m := FirstFrame(buf[1..]);
      k := m + 1;
      assert buf[1..][m..] == buf[k..];
      forall j | 0 <= j < k
        ensures Mismatched(buf[j..])
      {
        if j > 0 { assert buf[1..][j - 1..] == buf[j..]; }
      }
      if Matched(buf[k..]) {
        MatchedIsLong(buf[k..]);
        var n := ReadLength(buf[k..][..4]);
        assert buf[1..][m + n..] == buf[k + n..];
      }
    } else {
      k := 0;
    }
  }

  lemma MatchedIsLong(s: seq<byte>)
    requires Matched(s)
    ensures |s| >= 15 && ReadLength(s[..4]) <= |s|
  {
  }
}
