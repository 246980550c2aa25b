/**
 Length-prefixed packets  [length: 4][cmd: 2][data]  where the length counts the whole packet.
 The server cuts its read buffer with `decode_from`; the client has an inline parser of its own.
 */
module Packets {
  import opened Bytes

  datatype Packet = Packet(cmd: bv16, data: seq<byte>)

  const PREFIX: nat := 6

  /** The packets whose length fits the 32-bit length field. */
  predicate Encodable(p: Packet) {
    PREFIX + |p.data| < U32_LIMIT
  }

  /** The length field holds 32 bits of the length. */
  function Encode(p: Packet): (s: seq<byte>)
    ensures |s| == PREFIX + |p.data|
  {
    LengthBytes((PREFIX + |p.data|) % U32_LIMIT) + HalfBytes(p.cmd) + p.data
  }

  /** `NeedMore` is the result false; `Undefined` marks a length of 1 to 5, where the size of the
      data part wraps around and the copy leaves the buffer. */
  datatype Cut = NeedMore | Undefined | Cut(pkt: Packet, consumed: nat)

  function DecodeFrom(buf: seq<byte>): (c: Cut)
    ensures c.Cut? ==> PREFIX <= c.consumed <= |buf| && c.consumed < U32_LIMIT
  {
    if |buf| < 4 then NeedMore
    else
      var total := ReadLength(buf[..4]);
      if total == 0 || |buf| < total then NeedMore
      else if total < PREFIX then Undefined
      else Cut(Packet(ReadHalf(buf[4..6]), buf[6..total]), total)
  }

  lemma EncodedFields(p: Packet, tail: seq<byte>)
    requires Encodable(p)
    ensures var s := Encode(p) + tail;
            s[..4] == LengthBytes(PREFIX + |p.data|) && s[4..6] == HalfBytes(p.cmd)
            && s[6..PREFIX + |p.data|] == p.data && s[PREFIX + |p.data|..] == tail
  {
    hide LengthBytes, HalfBytes;
  }

  /** Decoding undoes encoding, whatever follows in the buffer. */
  lemma EncodedIsCut(p: Packet, tail: seq<byte>)
    requires Encodable(p)
    ensures DecodeFrom(Encode(p) + tail) == Cut(p, PREFIX + |p.data|)
  {
    hide LengthBytes, HalfBytes, ReadLength, ReadHalf;
    EncodedFields(p, tail);
    LengthRoundTrip(PREFIX + |p.data|);
    HalfRoundTrip(p.cmd);
  }

  /** The fields of an encoded packet of any size: 32 bits of its length, the command, the data. */
  lemma EncodedLayout(p: Packet)
    ensures var s := Encode(p);
            && ReadLength(s[..4]) == (6 + |p.data|) % 0x1_0000_0000 && ReadHalf(s[4..6]) == p.cmd
            && s[6..] == p.data
  {
    hide LengthBytes, HalfBytes, ReadLength, ReadHalf;
    LengthRoundTrip((PREFIX + |p.data|) % U32_LIMIT);
    HalfRoundTrip(p.cmd);
    var s := Encode(p);
    assert s[..4] == LengthBytes((PREFIX + |p.data|) % U32_LIMIT) && s[4..6] == HalfBytes(p.cmd);
  }

  /** Decoding undoes encoding exactly for the packets whose length fits the field. */
  lemma EncodableIff(p: Packet, tail: seq<byte>)
    ensures DecodeFrom(Encode(p) + tail) == Cut(p, PREFIX + |p.data|) <==> Encodable(p)
  {
    hide Encode;
    if Encodable(p) { EncodedIsCut(p, tail); }
  }

  /** Encoding undoes decoding: a cut packet is the encoding of what was returned. */
  lemma CutIsEncoded(buf: seq<byte>)
    requires DecodeFrom(buf).Cut?
    ensures var c := DecodeFrom(buf);
            Encodable(c.pkt) && c.consumed == PREFIX + |c.pkt.data| && buf[..c.consumed] == Encode(c.pkt)
  {
    hide LengthBytes, HalfBytes, ReadLength, ReadHalf;
    var c := DecodeFrom(buf);
    LengthIsCanonical(buf[..4]);
    HalfIsCanonical(buf[4..6]);
    assert buf[..c.consumed] == buf[..4] + buf[4..6] + buf[6..c.consumed];
  }

  /** An incomplete packet is left alone. */
  lemma PrefixWaits(p: Packet, k: nat)
    requires Encodable(p) && k < PREFIX + |p.data|
    ensures DecodeFrom(Encode(p)[..k]) == NeedMore
  {
    hide LengthBytes, HalfBytes, ReadLength, ReadHalf;
    EncodedFields(p, []);
    assert Encode(p) + [] == Encode(p);
    LengthRoundTrip(PREFIX + |p.data|);
    if k >= 4 { assert Encode(p)[..k][..4] == Encode(p)[..4]; }
  }

  lemma MoreBytes(buf: seq<byte>, more: seq<byte>)
    requires !DecodeFrom(buf).NeedMore?
    ensures DecodeFrom(buf + more) == DecodeFrom(buf)
  {
    hide ReadLength, ReadHalf;
    var total := ReadLength(buf[..4]);
    assert (buf + more)[..4] == buf[..4];
    if PREFIX <= total {
      assert (buf + more)[4..6] == buf[4..6] && (buf + more)[6..total] == buf[6..total];
    }
  }

  /* ---- streams ---- */

  predicate AllEncodable(ps: seq<Packet>) {
    forall i :: 0 <= i < |ps| ==> Encodable(ps[i])
  }

  function Stream(ps: seq<Packet>): seq<byte> {
    if ps == [] then [] else Encode(ps[0]) + Stream(ps[1..])
  }

  lemma {:induction false} StreamConcat(ps: seq<Packet>, qs: seq<Packet>)
    requires AllEncodable(ps) && AllEncodable(qs)
    ensures AllEncodable(ps + qs) && Stream(ps + qs) == Stream(ps) + Stream(qs)
    decreases |ps|
  {
    hide Encode;
    if ps == [] {
      assert ps + qs == qs;
    } else {
      assert (ps + qs)[0] == ps[0] && (ps + qs)[1..] == ps[1..] + qs;
      StreamConcat(ps[1..], qs);
    }
  }

  datatype Parsed = Parsed(pkts: seq<Packet>, rest: seq<byte>, undefined: bool)

  /** The server's inner loop: cut until nothing complete is left. */
  function ParseAll(buf: seq<byte>): Parsed
    decreases |buf|
  {
    match DecodeFrom(buf)
    case NeedMore => Parsed([], buf, false)
    case Undefined => Parsed([], buf, true)
    case Cut(p, n) =>
      var r := ParseAll(buf[n..]);
      Parsed([p] + r.pkts, r.rest, r.undefined)
  }

  /** No byte is lost or invented: re-encoding what was delivered restores the buffer. */
  lemma {:induction false} ParseConserves(buf: seq<byte>)
    ensures var r := ParseAll(buf);
            AllEncodable(r.pkts) && Stream(r.pkts) + r.rest == buf && !DecodeFrom(r.rest).Cut?
    decreases |buf|
  {
    hide DecodeFrom, Encode, Encodable;
    if DecodeFrom(buf).Cut? {
      var n := DecodeFrom(buf).consumed;
      CutIsEncoded(buf);
      ParseConserves(buf[n..]);
      var p, r := DecodeFrom(buf).pkt, ParseAll(buf[n..]);
      StreamCons(p, r.pkts);
      Regroup(buf, n, Encode(p), Stream(r.pkts), r.rest);
    }
  }

  lemma StreamCons(p: Packet, ps: seq<Packet>)
    requires Encodable(p) && AllEncodable(ps)
    ensures AllEncodable([p] + ps) && Stream([p] + ps) == Encode(p) + Stream(ps)
  {
    hide Encode;
    assert ([p] + ps)[1..] == ps;
  }

  lemma Regroup(buf: seq<byte>, n: nat, a: seq<byte>, b: seq<byte>, c: seq<byte>)
    requires n <= |buf| && buf[..n] == a && buf[n..] == b + c
    ensures (a + b) + c == buf
  {
    assert buf == buf[..n] + buf[n..];
  }

  /** Chunking does not matter: parsing a prefix first and its residue with the rest later
      delivers the same packets as parsing everything at once. */
  lemma {:induction false} ParseSplit(buf: seq<byte>, more: seq<byte>)
    requires !ParseAll(buf).undefined
    ensures var r := ParseAll(buf);
            var s := ParseAll(r.rest + more);
            ParseAll(buf + more) == Parsed(r.pkts + s.pkts, s.rest, s.undefined)
    decreases |buf|
  {
    hide DecodeFrom;
    if DecodeFrom(buf).Cut? {
      var n := DecodeFrom(buf).consumed;
      MoreBytes(buf, more);
      ParseSplit(buf[n..], more);
      assert (buf + more)[n..] == buf[n..] + more;
    }
  }

  lemma {:induction false} ParseStream(ps: seq<Packet>)
    requires AllEncodable(ps)
    ensures ParseAll(Stream(ps)) == Parsed(ps, [], false)
    decreases |ps|
  {
    hide DecodeFrom, Encode;
    if ps == [] {
      assert DecodeFrom([]).NeedMore? by { NothingToCut(); }
    } else {
      EncodedIsCut(ps[0], Stream(ps[1..]));
      ParseStream(ps[1..]);
      assert Stream(ps)[|Encode(ps[0])|..] == Stream(ps[1..]);
      assert [ps[0]] + ps[1..] == ps;
    }
  }

  lemma NothingToCut()
    ensures DecodeFrom([]) == NeedMore
  {
  }

  /* ---- when the server fails ---- */

  /** The front of the buffer is a length field of zero. */
  predicate ZeroLength(buf: seq<byte>) {
    |buf| >= 4 && ReadLength(buf[..4]) == 0
  }

  /** Every length field whose packet is already complete, up to the first zero one, is at least 6. */
  predicate RegularToZero(buf: seq<byte>)
    decreases |buf|
  {
    |buf| < 4
    || (var total := ReadLength(buf[..4]);
        total == 0 || |buf| < total || (total >= PREFIX && RegularToZero(buf[total..])))
  }

  /** The server's behaviour is defined iff no complete length field before a zero one is below 6. */
  lemma {:induction false} ServerDefinedIff(buf: seq<byte>)
    ensures !ParseAll(buf).undefined <==> RegularToZero(buf)
    decreases |buf|
  {
    hide ReadLength, ReadHalf;
    if |buf| >= 4 {
      var total := ReadLength(buf[..4]);
      if PREFIX <= total <= |buf| { ServerDefinedIff(buf[total..]); }
    }
  }

  lemma LastByteCounts(a: byte, b: byte, c: byte)
    ensures (a as bv32 << 24) | (b as bv32 << 16) | (c as bv32 << 8) | (6 as bv8) as bv32 != 0
  {
  }

  lemma NonzeroLength(s: seq<byte>)
    requires |s| == 4 && s[3] == 6
    ensures ReadLength(s) != 0
  {
    LastByteCounts(s[0], s[1], s[2]);
    ReadLengthOfZero(ReadWord(s));
  }

  lemma ReadLengthOfZero(w: bv32)
    ensures w as int == 0 ==> w == 0
  {
  }

  /** Bytes that complete any front part that is not a zero length field. */
  function Completion(rest: seq<byte>): seq<byte> {
    (if |rest| < 4 then Zeros(3 - |rest|) + [6] else []) + Zeros(U32_LIMIT)
  }

  lemma CompletionDecides(rest: seq<byte>)
    requires !ZeroLength(rest)
    ensures !DecodeFrom(rest + Completion(rest)).NeedMore?
  {
    hide ReadLength, ReadHalf;
    var all := rest + Completion(rest);
    if |rest| < 4 {
      assert all[..4] == rest + Zeros(3 - |rest|) + [6];
      NonzeroLength(all[..4]);
    } else {
      assert all[..4] == rest[..4];
    }
  }

  /** A residue from which no further input ever gets the server out begins with a zero length; any
      other one is decided by some continuation. */
  lemma StallIff(rest: seq<byte>)
    ensures (forall more: seq<byte> :: DecodeFrom(rest + more).NeedMore?) <==> ZeroLength(rest)
  {
    hide ReadLength, ReadHalf, Completion;
    if ZeroLength(rest) {
      forall more: seq<byte>
        ensures DecodeFrom(rest + more).NeedMore?
      {
        assert (rest + more)[..4] == rest[..4];
      }
    } else {
      CompletionDecides(rest);
    }
  }

  /** Whatever arrives after `buf`, nothing more is delivered and all of it stays in the buffer. */
  ghost predicate Stuck(buf: seq<byte>) {
    forall more: seq<byte> :: ParseAll(buf + more) == Parsed(ParseAll(buf).pkts, ParseAll(buf).rest + more, false)
  }

  /** The server stalls for good iff the parser comes to a zero length field. */
  lemma StallsForeverIff(buf: seq<byte>)
    requires !ParseAll(buf).undefined
    ensures Stuck(buf) <==> ZeroLength(ParseAll(buf).rest)
  {
    hide DecodeFrom, ZeroLength, Completion;
    var r := ParseAll(buf);
    StallIff(r.rest);
    if ZeroLength(r.rest) {
      forall more: seq<byte>
        ensures ParseAll(buf + more) == Parsed(r.pkts, r.rest + more, false)
      {
        ParseSplit(buf, more);
        assert DecodeFrom(r.rest + more).NeedMore?;
      }
    } else {
      var more := Completion(r.rest);
      CompletionDecides(r.rest);
      ParseSplit(buf, more);
      var s := ParseAll(r.rest + more);
      assert s.undefined || |s.pkts| > 0;
    }
  }

  /* ---- the client's parser ---- */

  /** Every length field whose packet is already complete in the buffer is at least 6. */
  predicate Regular(buf: seq<byte>)
    decreases |buf|
  {
    |buf| < 4
    || (var total := ReadLength(buf[..4]);
        |buf| < total || (total >= PREFIX && Regular(buf[total..])))
  }

  datatype ClientParsed = ClientParsed(messages: seq<seq<byte>>, rest: seq<byte>, undefined: bool)

  datatype Found = Nothing | Broken | Message(data: seq<byte>, size: nat)

  /** One turn of the client's inner loop, which delivers data parts only and does not test for a zero
      length. */
  function FirstMessage(buf: seq<byte>): (f: Found)
    ensures f.Message? ==> PREFIX <= f.size <= |buf|
  {
    if |buf| < 4 then Nothing
    else
      var total := ReadLength(buf[..4]);
      if |buf| < total then Nothing
      else if total < PREFIX then Broken
      else Message(buf[6..total], total)
  }

  function ClientParse(buf: seq<byte>): ClientParsed
    decreases |buf|
  {
    match FirstMessage(buf)
    case Nothing => ClientParsed([], buf, false)
    case Broken => ClientParsed([], buf, true)
    case Message(m, n) =>
      var r := ClientParse(buf[n..]);
      ClientParsed([m] + r.messages, r.rest, r.undefined)
  }

  function DataParts(ps: seq<Packet>): (ds: seq<seq<byte>>)
    ensures |ds| == |ps|
  {
    if ps == [] then [] else [ps[0].data] + DataParts(ps[1..])
  }

  /** On every stream of regular length fields both parsers deliver the same data and keep the
      same residue; on any other stream the client runs into undefined behaviour. */
  lemma {:induction false} ClientMatchesServer(buf: seq<byte>)
    ensures var server, client := ParseAll(buf), ClientParse(buf);
            if Regular(buf)
            then !server.undefined && client == ClientParsed(DataParts(server.pkts), server.rest, false)
            else client.undefined
    decreases |buf|
  {
    hide ReadLength, ReadHalf;
    if |buf| >= 4 {
      var total := ReadLength(buf[..4]);
      if PREFIX <= total <= |buf| {
        ClientMatchesServer(buf[total..]);
        assert ParseAll(buf).pkts[1..] == ParseAll(buf[total..]).pkts;
      }
    }
  }

  /** The client is safe on exactly the buffers on which the server is defined and does not stall. */
  lemma {:induction false} RegularIff(buf: seq<byte>)
    ensures Regular(buf) <==> !ParseAll(buf).undefined && !ZeroLength(ParseAll(buf).rest)
    decreases |buf|
  {
    hide ReadLength, ReadHalf;
    if |buf| >= 4 {
      var total := ReadLength(buf[..4]);
      if PREFIX <= total <= |buf| { RegularIff(buf[total..]); }
    }
  }

  /** Four zero bytes stop the server for good and break the client; a length of one breaks both. */
  lemma SmallLengths()
    ensures Stuck([0, 0, 0, 0]) && ClientParse([0, 0, 0, 0]).undefined
    ensures ParseAll([0, 0, 0, 1]).undefined && ClientParse([0, 0, 0, 1]).undefined
  {
    hide ReadHalf, Stuck;
    var zero, one: seq<byte> := [0, 0, 0, 0], [0, 0, 0, 1];
    assert ReadLength(zero) == 0 && ReadLength(one) == 1;
    assert zero[..4] == zero && one[..4] == one;
    assert ParseAll(zero) == Parsed([], zero, false);
    StallsForeverIff(zero);
  }
}
