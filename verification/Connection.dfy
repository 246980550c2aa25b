/**
 One direction of a connection: senders enqueue packets, the writer loop pushes them out with
 partial sends, the kernel carries the bytes, the reader loop receives them in arbitrary chunks
 and cuts them into packets again.  Each locked section and each system call is one step.
 */
module Connection {
  import opened Bytes
  import opened Packets
  import opened Sequences

  /* ---- the connection object, loop by loop ---- */

  /** A return value of `::send`: so many bytes accepted, interrupted, or failed. */
  datatype Reply = Accepted(n: nat) | Interrupted | Failed

  datatype Sending = Sending(written: nat, done: bool, failed: bool)

  /** How far one message gets, given the replies of the system. */
  function SendLoop(len: nat, written: nat, replies: seq<Reply>): (s: Sending)
    requires written <= len
    ensures written <= s.written <= len && (s.done ==> s.written == len)
    decreases |replies|
  {
    if written == len then Sending(written, true, false)
    else if replies == [] then Sending(written, false, false)
    else match replies[0]
      case Failed => Sending(written, false, true)
      case Interrupted => SendLoop(len, written, replies[1..])
      case Accepted(n) =>
        // the system never accepts more than it was offered
        SendLoop(len, if written + n <= len then written + n else len, replies[1..])
  }

  /** The bytes the system accepts before it first fails. */
  function Taken(replies: seq<Reply>): nat {
    if replies == [] || replies[0].Failed? then 0
    else (if replies[0].Accepted? then replies[0].n else 0) + Taken(replies[1..])
  }

  predicate SomeFailed(replies: seq<Reply>) {
    exists i :: 0 <= i < |replies| && replies[i].Failed?
  }

  /** A message gets exactly as far as the system accepts bytes; it is done iff that is all of it, and
      it fails iff the system fails before that. */
  lemma {:induction false} SendLoopExact(len: nat, written: nat, replies: seq<Reply>)
    requires written <= len
    ensures var s, end := SendLoop(len, written, replies), written + Taken(replies);
            && s.written == (if end < len then end else len)
            && (s.done <==> end >= len)
            && (s.failed <==> end < len && SomeFailed(replies))
    decreases |replies|
  {
    if written < len && replies != [] && !replies[0].Failed? {
      var n := if replies[0].Accepted? then replies[0].n else 0;
      SendLoopExact(len, if written + n <= len then written + n else len, replies[1..]);
      LaterFailure(replies);
    }
  }

  lemma LaterFailure(replies: seq<Reply>)
    requires replies != [] && !replies[0].Failed?
    ensures SomeFailed(replies) <==> SomeFailed(replies[1..])
  {
    if SomeFailed(replies) {
      var i :| 0 <= i < |replies| && replies[i].Failed?;
      assert replies[1..][i - 1].Failed?;
    }
  }

  class TcpConnection {
    var writeQueue: seq<seq<byte>>
    var readBuf: seq<byte>
    var delivered: seq<Packet>
    var closed: bool

    constructor ()
      ensures writeQueue == [] && readBuf == [] && delivered == [] && !closed
    {
      writeQueue, readBuf, delivered, closed := [], [], [], false;
    }

    /** Closing keeps what is queued and what was read. */
    method Close()
      modifies this`closed
      ensures closed
    {
      if closed { return; }
      closed := true;
    }

    /** Appends one encoded packet, even on a closed connection. */
    method SendPacket(p: Packet) returns (ok: bool)
      modifies this`writeQueue
      ensures ok && writeQueue == old(writeQueue) + [Encode(p)]
    {
      writeQueue := writeQueue + [Encode(p)];
      ok := true;
    }

    /** The loop of `send_raw`: what reached the system is always a prefix of the message. */
    method SendRaw(data: seq<byte>, replies: seq<Reply>) returns (s: Sending, out: seq<byte>)
      ensures closed ==> s == Sending(0, false, true)
      ensures !closed ==> s == SendLoop(|data|, 0, replies)
      ensures !closed ==> s.written == (if Taken(replies) < |data| then Taken(replies) else |data|)
      ensures !closed ==> (s.done <==> Taken(replies) >= |data|)
      ensures !closed ==> (s.failed <==> Taken(replies) < |data| && SomeFailed(replies))
      ensures out == data[..s.written] && (s.done ==> out == data)
    {
      SendLoopExact(|data|, 0, replies);
      if closed { return Sending(0, false, true), []; }
      var sent, i := 0, 0;
      while sent < |data| && i < |replies|
        invariant 0 <= sent <= |data| && 0 <= i <= |replies|
        invariant SendLoop(|data|, sent, replies[i..]) == SendLoop(|data|, 0, replies)
        decreases |replies| - i
      {
        assert replies[i..][0] == replies[i] && replies[i..][1..] == replies[i + 1..];
        match replies[i] {
          case Failed => return Sending(sent, false, true), data[..sent];
          case Interrupted =>
          case Accepted(n) => sent := if sent + n <= |data| then sent + n else |data|;
        }
        i := i + 1;
      }
      s, out := Sending(sent, sent == |data|, false), data[..sent];
    }

    /** `defined` is false where the behaviour of the code is undefined; nothing is changed then. */
    method ProcessRead() returns (more: bool, defined: bool)
      modifies this`readBuf, this`delivered
      ensures defined == !DecodeFrom(old(readBuf)).Undefined?
      ensures more == DecodeFrom(old(readBuf)).Cut?
      ensures more ==> var c := DecodeFrom(old(readBuf));
                       delivered == old(delivered) + [c.pkt] && readBuf == old(readBuf)[c.consumed..]
      ensures !more ==> delivered == old(delivered) && readBuf == old(readBuf)
    {
      match DecodeFrom(readBuf) {
        case NeedMore => more, defined := false, true;
        case Undefined => more, defined := false, false;
        case Cut(p, n) =>
          readBuf := readBuf[n..];
          delivered := delivered + [p];
          more, defined := true, true;
      }
    }

    /** One turn of the read loop: append the chunk, then parse until nothing is complete.  It is
        defined iff no complete length field before a zero one is below 6. */
    method OnReceive(chunk: seq<byte>) returns (defined: bool)
      modifies this`readBuf, this`delivered
      ensures defined <==> RegularToZero(old(readBuf) + chunk)
      ensures delivered == old(delivered) + ParseAll(old(readBuf) + chunk).pkts
      ensures readBuf == ParseAll(old(readBuf) + chunk).rest
    {
      hide DecodeFrom;
      readBuf := readBuf + chunk;
      ServerDefinedIff(readBuf);
      ghost var all := ParseAll(readBuf);
      var more := true;
      defined := true;
      while more
        invariant ParseAll(readBuf).rest == all.rest && ParseAll(readBuf).undefined == all.undefined
        invariant delivered + ParseAll(readBuf).pkts == old(delivered) + all.pkts
        invariant !more ==> !DecodeFrom(readBuf).Cut? && defined == !DecodeFrom(readBuf).Undefined?
        decreases |readBuf|, more
      {
        more, defined := ProcessRead();
      }
    }
  }

  /** The client side: the same read buffer, cut by the inline parser. */
  class TcpClient {
    var readBuf: seq<byte>
    var messages: seq<seq<byte>>    // arguments of on_message_

    constructor ()
      ensures readBuf == [] && messages == []
    {
      readBuf, messages := [], [];
    }

    /** Defined iff every complete length field is at least 6, and then as the server's loop. */
    method OnReceive(chunk: seq<byte>) returns (defined: bool)
      modifies this
      ensures defined <==> Regular(old(readBuf) + chunk)
      ensures defined ==>
                var server := ParseAll(old(readBuf) + chunk);
                messages == old(messages) + DataParts(server.pkts) && readBuf == server.rest
    {
      hide ReadLength, ReadHalf;
      ClientMatchesServer(readBuf + chunk);
      readBuf := readBuf + chunk;
      ghost var all := ClientParse(readBuf);
      while |readBuf| >= 4
        invariant Regular(readBuf) <==> Regular(old(readBuf) + chunk)
        invariant ClientParse(readBuf).rest == all.rest
        invariant messages + ClientParse(readBuf).messages == old(messages) + all.messages
        decreases |readBuf|
      {
        var total := ReadLength(readBuf[..4]);
        if |readBuf| < total { break; }
        if total < PREFIX { return false; }
        messages := messages + [readBuf[6..total]];
        readBuf := readBuf[total..];
      }
      defined := true;
    }
  }

  /* ---- the step machine ---- */

  datatype State = State(
    accepted: seq<Packet>,      // every packet handed to send_packet, in order
    queue: seq<seq<byte>>,      // write_queue_
    current: seq<byte>,         // unsent part of the message the writer holds
    writing: bool,              // the writer loop still runs
    wire: seq<byte>,            // accepted by the kernel, not yet received
    readBuf: seq<byte>,
    parsing: bool,              // the reader is inside its parse loop
    delivered: seq<Packet>,     // packets passed to on_message_
    reading: bool)              // the reader loop still runs

  datatype Step =
    | Enqueue(p: Packet)
    | Pick
    | Send(n: nat)
    | StopWriter
    | Receive(n: nat)
    | Parse
    | StopReader

  const RECV_SIZE: nat := 8192

  function Initial(): State {
    State([], [], [], true, [], [], false, [], true)
  }

  predicate Enabled(s: State, step: Step) {
    match step
    case Enqueue(p) => Encodable(p)
    case Pick => s.writing && s.current == [] && s.queue != []
    case Send(n) => s.writing && n <= |s.current|
    case StopWriter => s.writing
    case Receive(n) => s.reading && !s.parsing && 1 <= n <= RECV_SIZE && n <= |s.wire|
    case Parse => s.reading && s.parsing
    case StopReader => s.reading
  }

  function Next(s: State, step: Step): State
    requires Enabled(s, step)
  {
    match step
    case Enqueue(p) => s.(accepted := s.accepted + [p], queue := s.queue + [Encode(p)])
    case Pick => s.(current := s.queue[0], queue := s.queue[1..])
    case Send(n) => s.(wire := s.wire + s.current[..n], current := s.current[n..])
    case StopWriter => s.(writing := false)
    case Receive(n) => s.(readBuf := s.readBuf + s.wire[..n], wire := s.wire[n..], parsing := true)
    case Parse =>
      (match DecodeFrom(s.readBuf)
       case Cut(p, n) => s.(readBuf := s.readBuf[n..], delivered := s.delivered + [p])
       case _ => s.(parsing := false))
    case StopReader => s.(reading := false)
  }

  /** The run of a sequence of steps, if each is enabled when its turn comes. */
  ghost predicate Reaches(s: State, steps: seq<Step>, t: State)
    decreases |steps|
  {
    if steps == [] then s == t
    else Enabled(s, steps[0]) && Reaches(Next(s, steps[0]), steps[1..], t)
  }

  /** All bytes that ever left the writer. */
  function Out(s: State): seq<byte> {
    Stream(s.delivered) + s.readBuf + s.wire
  }

  /** Bytes are conserved from the queue to the read buffer, delivered packets are the first ones
      accepted, and outside its loop the parser has nothing complete left to cut. */
  ghost predicate Inv(s: State) {
    && AllEncodable(s.accepted)
    && s.delivered <= s.accepted
    && Out(s) <= Stream(s.accepted)
    && (s.writing ==> Out(s) + s.current + Flatten(s.queue) == Stream(s.accepted))
    && (!s.parsing ==> !DecodeFrom(s.readBuf).Cut?)
  }

  lemma EnqueueKeeps(s: State, p: Packet)
    requires Inv(s) && Encodable(p)
    ensures Inv(Next(s, Enqueue(p)))
  {
    hide DecodeFrom, Encode;
    StreamConcat(s.accepted, [p]);
    assert Stream([p]) == Encode(p);
    FlattenAppend(s.queue, Encode(p));
  }

  lemma PickKeeps(s: State)
    requires Inv(s) && Enabled(s, Pick)
    ensures Inv(Next(s, Pick))
  {
    hide DecodeFrom, Encode;
  }

  lemma SendKeeps(s: State, n: nat)
    requires Inv(s) && Enabled(s, Send(n))
    ensures Inv(Next(s, Send(n)))
  {
    hide DecodeFrom, Encode;
    var t := Next(s, Send(n));
    assert s.current == s.current[..n] + s.current[n..];
    assert Out(t) == Out(s) + s.current[..n];
    assert Out(t) + t.current + Flatten(t.queue) == Stream(s.accepted);
  }

  lemma ReceiveKeeps(s: State, n: nat)
    requires Inv(s) && Enabled(s, Receive(n))
    ensures Inv(Next(s, Receive(n)))
  {
    hide DecodeFrom, Encode;
    assert s.wire == s.wire[..n] + s.wire[n..];
    assert Out(Next(s, Receive(n))) == Out(s);
  }

  /** The read buffer starts where the next undelivered packet starts. */
  lemma BufferAligned(s: State)
    requires Inv(s)
    ensures var k := |s.delivered|;
            s.readBuf <= Stream(s.accepted[k..]) && (s.readBuf != [] ==> k < |s.accepted|)
  {
    hide Encode;
    var k := |s.delivered|;
    StreamConcat(s.accepted[..k], s.accepted[k..]);
    assert s.accepted == s.accepted[..k] + s.accepted[k..];
    assert s.delivered == s.accepted[..k];
    var d := |Stream(s.delivered)|;
    assert Stream(s.accepted)[d..] == Stream(s.accepted[k..]);
    assert Stream(s.accepted)[d..d + |s.readBuf|] == s.readBuf;
  }

  /** Whatever the parser cuts is the next packet that was accepted, and it never meets a length
      field that is too small. */
  lemma NextCut(s: State)
    requires Inv(s)
    ensures !DecodeFrom(s.readBuf).Undefined?
    ensures DecodeFrom(s.readBuf).Cut? ==>
              |s.delivered| < |s.accepted| && DecodeFrom(s.readBuf).pkt == s.accepted[|s.delivered|]
    ensures s.readBuf != [] && !DecodeFrom(s.readBuf).Cut? ==>
              |s.delivered| < |s.accepted| && |s.readBuf| < |Encode(s.accepted[|s.delivered|])|
  {
    hide Encode, DecodeFrom;
    BufferAligned(s);
    if s.readBuf == [] {
      NothingToCut();
    } else {
      var p, rest := s.accepted[|s.delivered|], Stream(s.accepted[|s.delivered| + 1..]);
      assert s.accepted[|s.delivered|..][1..] == s.accepted[|s.delivered| + 1..];
      var ahead := Encode(p) + rest;
      assert s.readBuf == ahead[..|s.readBuf|];
      if |s.readBuf| < |Encode(p)| {
        assert s.readBuf == Encode(p)[..|s.readBuf|];
        PrefixWaits(p, |s.readBuf|);
      } else {
        var tail := s.readBuf[|Encode(p)|..];
        assert s.readBuf == Encode(p) + tail;
        EncodedIsCut(p, tail);
      }
    }
  }

  lemma CutConserves(s: State)
    requires Inv(s) && Enabled(s, Parse) && DecodeFrom(s.readBuf).Cut?
    ensures Out(Next(s, Parse)) == Out(s)
  {
    hide DecodeFrom, Encode;
    CutIsEncoded(s.readBuf);
    var p, t := DecodeFrom(s.readBuf).pkt, Next(s, Parse);
    assert AllEncodable(s.delivered);
    StreamConcat(s.delivered, [p]);
    StreamCons(p, []);
    assert Stream([p]) == Encode(p) by { assert [p] + [] == [p]; }
    assert s.readBuf == Encode(p) + t.readBuf;
  }

  lemma ParseKeeps(s: State)
    requires Inv(s) && Enabled(s, Parse)
    ensures Inv(Next(s, Parse))
  {
    hide DecodeFrom, Stream, Out;
    if DecodeFrom(s.readBuf).Cut? {
      NextCut(s);
      CutConserves(s);
    } else {
      assert Out(Next(s, Parse)) == Out(s) by { OutIgnoresParsing(s); }
    }
  }

  lemma OutIgnoresParsing(s: State)
    ensures Out(s.(parsing := false)) == Out(s)
  {
  }

  lemma StepKeeps(s: State, step: Step)
    requires Inv(s) && Enabled(s, step)
    ensures Inv(Next(s, step))
  {
    hide DecodeFrom, Encode;
    match step
    case Enqueue(p) => EnqueueKeeps(s, p);
    case Pick => PickKeeps(s);
    case Send(n) => SendKeeps(s, n);
    case StopWriter =>
    case Receive(n) => ReceiveKeeps(s, n);
    case Parse => ParseKeeps(s);
    case StopReader =>
  }

  lemma InitialHolds()
    ensures Inv(Initial())
  {
    hide DecodeFrom, Encode;
    NothingToCut();
  }

  lemma {:induction false} RunKeeps(s: State, steps: seq<Step>, t: State)
    requires Inv(s) && Reaches(s, steps, t)
    ensures Inv(t)
    decreases |steps|
  {
    hide Enabled, Next, Inv;
    if steps != [] {
      StepKeeps(s, steps[0]);
      RunKeeps(Next(s, steps[0]), steps[1..], t);
    }
  }

  /** The reader's steps after a chunk are one call of the parse loop. */
  lemma {:induction false} ParseLoop(s: State)
    requires s.reading && s.parsing && !ParseAll(s.readBuf).undefined
    ensures var r := ParseAll(s.readBuf);
            Reaches(s, seq(|r.pkts| + 1, _ => Parse),
                    s.(readBuf := r.rest, parsing := false, delivered := s.delivered + r.pkts))
    decreases |s.readBuf|
  {
    hide DecodeFrom, Reaches;
    var r := ParseAll(s.readBuf);
    var steps: seq<Step> := seq(|r.pkts| + 1, _ => Parse);
    var t := s.(readBuf := r.rest, parsing := false, delivered := s.delivered + r.pkts);
    var u := Next(s, Parse);
    if DecodeFrom(s.readBuf).Cut? {
      var later := ParseAll(u.readBuf);
      ParseLoop(u);
      assert s.delivered + r.pkts == u.delivered + later.pkts;
      assert steps == [Parse] + seq(|later.pkts| + 1, _ => Parse);
      StepThen(s, Parse, seq(|later.pkts| + 1, _ => Parse), t);
    } else {
      assert s.delivered + [] == s.delivered;
      assert u == t && steps == [Parse] + [];
      Stays(t);
      StepThen(s, Parse, [], t);
    }
  }

  lemma StepThen(s: State, step: Step, rest: seq<Step>, t: State)
    requires Enabled(s, step) && Reaches(Next(s, step), rest, t)
    ensures Reaches(s, [step] + rest, t)
  {
    hide Enabled, Next;
    assert ([step] + rest)[1..] == rest;
  }

  lemma Stays(s: State)
    ensures Reaches(s, [], s)
  {
  }

  /** The step a reply of the system amounts to, with `left` bytes of the message unsent. */
  function SendSteps(replies: seq<Reply>, left: nat): seq<Step>
    decreases |replies|
  {
    if left == 0 || replies == [] || replies[0].Failed? then []
    else
      var n := if replies[0].Interrupted? then 0 else if replies[0].n < left then replies[0].n else left;
      [Send(n)] + SendSteps(replies[1..], left - n)
  }

  /** The first `n` bytes of the message in hand are on the wire. */
  function Sent(s: State, n: nat): State
    requires n <= |s.current|
  {
    s.(wire := s.wire + s.current[..n], current := s.current[n..])
  }

  lemma SentTwice(s: State, k: nat, n: nat)
    requires k + n <= |s.current|
    ensures Sent(Sent(s, k), n) == Sent(s, k + n) && Sent(s, 0) == s
  {
    var c := s.current;
    assert c[..k] + c[k..][..n] == c[..k + n] && c[k..][n..] == c[k + n..];
    assert (s.wire + c[..k]) + c[k..][..n] == s.wire + c[..k + n];
    assert s.wire + c[..0] == s.wire && c[0..] == c;
  }

  function Least(a: nat, b: nat): nat { if a < b then a else b }

  /** The machine allows every sequence of replies: they put exactly the accepted part of the message
      on the wire. */
  lemma {:induction false} SendRuns(s: State, replies: seq<Reply>)
    requires s.writing
    ensures Reaches(s, SendSteps(replies, |s.current|), Sent(s, Least(Taken(replies), |s.current|)))
    decreases |replies|
  {
    hide Reaches, Sent;
    var left := |s.current|;
    var n := Least(Taken(replies), left);
    if left == 0 || replies == [] || replies[0].Failed? {
      SentTwice(s, 0, 0);
      Stays(s);
    } else {
      var k := if replies[0].Interrupted? then 0 else Least(replies[0].n, left);
      var u := Next(s, Send(k));
      assert u == Sent(s, k) && |u.current| == left - k by { SendIsSent(s, k); }
      SendRuns(u, replies[1..]);
      SentTwice(s, k, n - k);
      StepThen(s, Send(k), SendSteps(replies[1..], left - k), Sent(s, n));
    }
  }

  lemma SendIsSent(s: State, k: nat)
    requires s.writing && k <= |s.current|
    ensures Next(s, Send(k)) == Sent(s, k) && |Sent(s, k).current| == |s.current| - k
  {
  }

  /** And every chunk of 1 to 8192 bytes: receiving it and parsing is one turn of the read loop. */
  lemma ReceiveRuns(s: State, n: nat)
    requires s.reading && !s.parsing && 1 <= n <= 8192 && n <= |s.wire|
    requires !ParseAll(s.readBuf + s.wire[..n]).undefined
    ensures var r := ParseAll(s.readBuf + s.wire[..n]);
            Reaches(s, [Receive(n)] + seq(|r.pkts| + 1, _ => Parse),
                    s.(wire := s.wire[n..], readBuf := r.rest, delivered := s.delivered + r.pkts))
  {
    hide Reaches, ParseAll;
    var r, u := ParseAll(s.readBuf + s.wire[..n]), Next(s, Receive(n));
    ParseLoop(u);
    StepThen(s, Receive(n), seq(|r.pkts| + 1, _ => Parse),
             s.(wire := s.wire[n..], readBuf := r.rest, delivered := s.delivered + r.pkts));
  }

  /** Once the writer has stopped nothing more leaves it, whatever else happens. */
  lemma {:induction false} StoppedFrom(s: State, steps: seq<Step>, t: State)
    requires Inv(s) && !s.writing && Reaches(s, steps, t)
    ensures Out(t) == Out(s) && !t.writing
    decreases |steps|
  {
    hide DecodeFrom, Encode, Inv, Out;
    if steps != [] {
      StepKeeps(s, steps[0]);
      OutStays(s, steps[0]);
      StoppedFrom(Next(s, steps[0]), steps[1..], t);
    }
  }

  lemma OutStays(s: State, step: Step)
    requires Inv(s) && !s.writing && Enabled(s, step)
    ensures Out(Next(s, step)) == Out(s) && !Next(s, step).writing
  {
    hide DecodeFrom, Encode, Stream;
    match step
    case Receive(n) => assert s.wire == s.wire[..n] + s.wire[n..];
    case Parse => if DecodeFrom(s.readBuf).Cut? { CutConserves(s); }
    case _ =>
  }

  /** After the writer stops, no byte is added to those that left it; after the reader stops, nothing
      is received or delivered. */
  lemma StoppedForGood(s: State, steps: seq<Step>, t: State)
    requires Inv(s)
    ensures s.writing && Reaches(Next(s, StopWriter), steps, t) ==> Out(t) == Out(s)
    ensures s.reading && Reaches(Next(s, StopReader), steps, t) ==> t.readBuf == s.readBuf && t.delivered == s.delivered
  {
    hide DecodeFrom, Encode, Stream, Reaches;
    if s.writing && Reaches(Next(s, StopWriter), steps, t) {
      StepKeeps(s, StopWriter);
      StoppedFrom(Next(s, StopWriter), steps, t);
    }
    if s.reading && Reaches(Next(s, StopReader), steps, t) { DeafFrom(Next(s, StopReader), steps, t); }
  }

  lemma {:induction false} DeafFrom(s: State, steps: seq<Step>, t: State)
    requires !s.reading && Reaches(s, steps, t)
    ensures t.readBuf == s.readBuf && t.delivered == s.delivered
    decreases |steps|
  {
    hide DecodeFrom, Encode;
    if steps != [] { DeafFrom(Next(s, steps[0]), steps[1..], t); }
  }

  /** In-order, exactly-once prefix delivery in every run, whatever the chunking, the partial
      sends and the failures; and the parser never runs into undefined behaviour. */
  lemma PrefixDelivery(steps: seq<Step>, t: State)
    requires Reaches(Initial(), steps, t)
    ensures t.delivered <= t.accepted
    ensures !DecodeFrom(t.readBuf).Undefined?
  {
    hide Enabled, Next, DecodeFrom;
    InitialHolds();
    RunKeeps(Initial(), steps, t);
    NextCut(t);
  }

  /** As long as a packet is undelivered, some of its bytes have not been received. */
  lemma UndeliveredIsMissing(t: State)
    requires Inv(t) && !t.parsing && |t.delivered| < |t.accepted|
    ensures |Stream(t.delivered)| + |t.readBuf| < |Stream(t.accepted)|
  {
    hide DecodeFrom, Encode;
    NextCut(t);
    var k := |t.delivered|;
    StreamConcat(t.accepted[..k], t.accepted[k..]);
    assert t.accepted == t.accepted[..k] + t.accepted[k..] && t.delivered == t.accepted[..k];
    assert t.accepted[k..][0] == t.accepted[k];
    assert |Stream(t.accepted[k..])| >= |Encode(t.accepted[k])| >= PREFIX;
  }

  /** Once every accepted byte has left the wire and the parse loop has ended, everything has been
      delivered and nothing is left over. */
  lemma CompleteDelivery(steps: seq<Step>, t: State)
    requires Reaches(Initial(), steps, t)
    ensures !t.parsing && |Stream(t.delivered)| + |t.readBuf| == |Stream(t.accepted)| ==>
              t.delivered == t.accepted && t.readBuf == []
  {
    hide Enabled, Next, DecodeFrom, Encode;
    InitialHolds();
    RunKeeps(Initial(), steps, t);
    if !t.parsing && |t.delivered| < |t.accepted| { UndeliveredIsMissing(t); }
  }

  /** While the writer runs, an idle pipeline has delivered everything. */
  lemma IdleIsComplete(steps: seq<Step>, t: State)
    requires Reaches(Initial(), steps, t)
    requires t.writing && t.queue == [] && t.current == [] && t.wire == [] && !t.parsing
    ensures t.delivered == t.accepted && t.readBuf == []
  {
    hide Enabled, Next, DecodeFrom, Encode;
    InitialHolds();
    RunKeeps(Initial(), steps, t);
    assert |Out(t)| == |Stream(t.accepted)|;
    CompleteDelivery(steps, t);
  }

  /* ---- the other direction: a client reads what the server's writer sends ---- */

  /** The machine with the client as its reader: `link.delivered` stays unused. */
  datatype ClientState = ClientState(link: State, messages: seq<seq<byte>>)

  function ClientInitial(): ClientState {
    ClientState(Initial(), [])
  }

  /** A broken length field leaves the machine where it is; it is shown not to occur. */
  function ClientNext(c: ClientState, step: Step): ClientState
    requires Enabled(c.link, step)
  {
    if step.Parse? then
      match FirstMessage(c.link.readBuf)
      case Nothing => c.(link := c.link.(parsing := false))
      case Broken => c
      case Message(m, n) => ClientState(c.link.(readBuf := c.link.readBuf[n..]), c.messages + [m])
    else c.(link := Next(c.link, step))
  }

  ghost predicate ClientReaches(c: ClientState, steps: seq<Step>, d: ClientState)
    decreases |steps|
  {
    if steps == [] then c == d
    else Enabled(c.link, steps[0]) && ClientReaches(ClientNext(c, steps[0]), steps[1..], d)
  }

  /** The client is where the server would be, with the data parts of the same packets. */
  ghost predicate Mirrors(c: ClientState, s: State) {
    Inv(s) && c.link == s.(delivered := []) && c.messages == DataParts(s.delivered)
  }

  lemma {:induction false} DataPartsAppend(ps: seq<Packet>, p: Packet)
    ensures DataParts(ps + [p]) == DataParts(ps) + [p.data]
    decreases |ps|
  {
    if ps != [] {
      assert (ps + [p])[1..] == ps[1..] + [p];
      DataPartsAppend(ps[1..], p);
    }
  }

  /** A buffer at the start of a stream shows a length of at least 6 as soon as it shows one. */
  lemma {:induction false} StreamIsRegular(ps: seq<Packet>, k: nat)
    requires AllEncodable(ps) && k <= |Stream(ps)|
    ensures Regular(Stream(ps)[..k]) && !ZeroLength(Stream(ps)[..k])
    decreases |ps|
  {
    hide Encode, ReadLength;
    if ps != [] {
      var buf, n := Stream(ps)[..k], |Encode(ps[0])|;
      if k >= 4 {
        assert ReadLength(buf[..4]) == n by {
          EncodedFields(ps[0], Stream(ps[1..]));
          LengthRoundTrip(n);
          assert buf[..4] == Stream(ps)[..4];
        }
        if n <= k {
          assert buf[n..] == Stream(ps[1..])[..k - n];
          StreamIsRegular(ps[1..], k - n);
        }
      }
    }
  }

  lemma BufferIsRegular(s: State)
    requires Inv(s)
    ensures Regular(s.readBuf) && !ZeroLength(s.readBuf)
  {
    hide Encode, ReadLength, DecodeFrom, Regular;
    BufferAligned(s);
    var ahead := Stream(s.accepted[|s.delivered|..]);
    assert s.readBuf == ahead[..|s.readBuf|];
    StreamIsRegular(s.accepted[|s.delivered|..], |s.readBuf|);
  }

  lemma MirrorStep(c: ClientState, s: State, step: Step)
    requires Mirrors(c, s) && Enabled(s, step)
    ensures Enabled(c.link, step) && Mirrors(ClientNext(c, step), Next(s, step))
  {
    hide Inv, Encode, ReadLength, ReadHalf;
    StepKeeps(s, step);
    if step.Parse? {
      BufferIsRegular(s);
      if DecodeFrom(s.readBuf).Cut? { DataPartsAppend(s.delivered, DecodeFrom(s.readBuf).pkt); }
    }
  }

  lemma {:induction false} ClientFollows(c: ClientState, s: State, steps: seq<Step>, d: ClientState) returns (t: State)
    requires Mirrors(c, s) && ClientReaches(c, steps, d)
    ensures Reaches(s, steps, t) && Mirrors(d, t)
    decreases |steps|
  {
    hide Inv, Next, ClientNext;
    t := s;
    if steps != [] {
      MirrorStep(c, s, steps[0]);
      t := ClientFollows(ClientNext(c, steps[0]), Next(s, steps[0]), steps[1..], d);
    }
  }

  /** In every run the client's buffer holds no length field below 6, and its messages are the data
      parts of a prefix of the accepted packets, in order. */
  lemma ClientPrefixDelivery(steps: seq<Step>, d: ClientState)
    requires ClientReaches(ClientInitial(), steps, d)
    ensures Regular(d.link.readBuf) && !FirstMessage(d.link.readBuf).Broken?
    ensures |d.messages| <= |d.link.accepted| && d.messages == DataParts(d.link.accepted[..|d.messages|])
  {
    hide Enabled, ClientNext, DecodeFrom, Encode, ReadLength;
    InitialHolds();
    var t := ClientFollows(ClientInitial(), Initial(), steps, d);
    BufferIsRegular(t);
    assert t.delivered == t.accepted[..|t.delivered|];
  }

  /** An idle pipeline to a client has delivered the data of every accepted packet. */
  lemma ClientIdleIsComplete(steps: seq<Step>, d: ClientState)
    requires ClientReaches(ClientInitial(), steps, d)
    requires d.link.writing && d.link.queue == [] && d.link.current == [] && d.link.wire == [] && !d.link.parsing
    ensures d.messages == DataParts(d.link.accepted) && d.link.readBuf == []
  {
    hide Inv, Enabled, ClientNext, Next, DecodeFrom, Encode;
    InitialHolds();
    var t := ClientFollows(ClientInitial(), Initial(), steps, d);
    IdleIsComplete(steps, t);
  }
}
