/**
 The session registry: ids, the live, peak and total counts, and the timeout sweep that scans
 under the lock and removes afterwards, one session per lock.
 */
module Sessions {
  import opened Sequences

  /** Where a session comes from. */
  datatype Peer = Peer(socket: int, ip: string, port: int)

  datatype Context = Context(peer: Peer, connectTime: nat, lastMsgTime: nat, heartbeats: nat, alive: bool)

  datatype Registry = Registry(
    sessions: map<nat, Context>,
    nextSid: nat,
    total: nat,
    peak: nat,
    closed: seq<int>)       // sockets closed so far, in order

  datatype Op =
    | Add(peer: Peer, now: nat)
    | Remove(sid: nat)
    | Heartbeat(sid: nat, now: nat)
    | Kick(sid: nat)
    | MarkDead(sid: nat)

  function Initial(): Registry { Registry(map[], 1, 0, 0, []) }

  function Drop(r: Registry, sid: nat): Registry {
    r.(sessions := r.sessions - {sid})
  }

  function NewContext(peer: Peer, now: nat): Context {
    Context(peer, now, now, 0, true)
  }

  function Heard(c: Context, now: nat): Context {
    c.(lastMsgTime := now, heartbeats := c.heartbeats + 1)
  }

  function Apply(r: Registry, op: Op): Registry {
    match op
    case Add(peer, now) =>
      var sessions := r.sessions[r.nextSid := NewContext(peer, now)];
      r.(sessions := sessions, nextSid := r.nextSid + 1, total := r.total + 1,
         peak := if |sessions| > r.peak then |sessions| else r.peak)
    case Remove(sid) => Drop(r, sid)
    case Heartbeat(sid, now) =>
      if sid in r.sessions
      then r.(sessions := r.sessions[sid := Heard(r.sessions[sid], now)])
      else r
    case Kick(sid) =>
      var k := Drop(r, sid);
      if sid in r.sessions && r.sessions[sid].peer.socket >= 0
      then k.(closed := r.closed + [r.sessions[sid].peer.socket])
      else k
    case MarkDead(sid) =>
      if sid in r.sessions then r.(sessions := r.sessions[sid := r.sessions[sid].(alive := false)]) else r
  }

  function After(r: Registry, ops: seq<Op>): Registry
    decreases |ops|
  {
    if ops == [] then r else After(Apply(r, ops[0]), ops[1..])
  }

  /** The ids handed out by the additions of a run, in order. */
  function Issued(r: Registry, ops: seq<Op>): seq<nat>
    decreases |ops|
  {
    if ops == [] then []
    else (if ops[0].Add? then [r.nextSid] else []) + Issued(Apply(r, ops[0]), ops[1..])
  }

  /** The largest number of sessions at any point of a run. */
  function MaxLive(r: Registry, ops: seq<Op>): nat
    decreases |ops|
  {
    if ops == [] then |r.sessions|
    else
      var later := MaxLive(Apply(r, ops[0]), ops[1..]);
      if |r.sessions| > later then |r.sessions| else later
  }

  ghost predicate Inv(r: Registry) {
    && (forall sid :: sid in r.sessions ==> 1 <= sid < r.nextSid)
    && |r.sessions| <= r.peak <= r.total
    && r.total == r.nextSid - 1
  }

  lemma SizeAfterDrop(m: map<nat, Context>, sid: nat)
    ensures |m - {sid}| == if sid in m then |m| - 1 else |m|
  {
    assert (m - {sid}).Keys == m.Keys - {sid};
  }

  lemma SizeAfterUpdate(m: map<nat, Context>, sid: nat, c: Context)
    ensures |m[sid := c]| == if sid in m then |m| else |m| + 1
  {
    assert m[sid := c].Keys == m.Keys + {sid};
    if sid in m { assert m.Keys + {sid} == m.Keys; }
  }

  lemma StepKeeps(r: Registry, op: Op)
    requires Inv(r)
    ensures Inv(Apply(r, op)) && r.nextSid <= Apply(r, op).nextSid
    ensures Apply(r, op).peak == if |Apply(r, op).sessions| > r.peak then |Apply(r, op).sessions| else r.peak
  {
    match op
    case Add(peer, now) => SizeAfterUpdate(r.sessions, r.nextSid, NewContext(peer, now));
    case Remove(sid) => SizeAfterDrop(r.sessions, sid);
    case Heartbeat(sid, now) =>
      if sid in r.sessions {
        SizeAfterUpdate(r.sessions, sid, Heard(r.sessions[sid], now));
      }
    case Kick(sid) => SizeAfterDrop(r.sessions, sid);
    case MarkDead(sid) =>
      if sid in r.sessions { SizeAfterUpdate(r.sessions, sid, r.sessions[sid].(alive := false)); }
  }

  /** Over every run: live <= peak <= total = next id - 1; the peak is the largest number of sessions
      reached; and the issued ids are consecutive, so none is ever issued twice. */
  lemma {:induction false} RunCounts(r: Registry, ops: seq<Op>)
    requires Inv(r)
    ensures var s := After(r, ops);
            && Inv(s)
            && s.peak == (if MaxLive(r, ops) > r.peak then MaxLive(r, ops) else r.peak)
            && s.nextSid == r.nextSid + |Issued(r, ops)|
            && forall i :: 0 <= i < |Issued(r, ops)| ==> Issued(r, ops)[i] == r.nextSid + i
    decreases |ops|
  {
    hide Inv;
    if ops == [] {
      assert |r.sessions| <= r.peak by { LiveBelowPeak(r); }
    } else {
      var q := Apply(r, ops[0]);
      StepKeeps(r, ops[0]);
      RunCounts(q, ops[1..]);
      assert |r.sessions| <= r.peak by { LiveBelowPeak(r); }
      LiveIsReached(q, ops[1..]);
    }
  }

  lemma LiveBelowPeak(r: Registry)
    requires Inv(r)
    ensures |r.sessions| <= r.peak
  {
  }

  lemma LiveIsReached(r: Registry, ops: seq<Op>)
    ensures MaxLive(r, ops) >= |r.sessions|
  {
  }

  lemma PeakIsMaximum(ops: seq<Op>)
    ensures var s := After(Initial(), ops);
            s.peak == MaxLive(Initial(), ops) && |s.sessions| <= s.peak <= s.total == s.nextSid - 1
  {
    RunCounts(Initial(), ops);
  }

  /* ---- the timeout sweep ---- */

  const U64_LIMIT: nat := 0x1_0000_0000_0000_0000

  /** Past the deadline: alive and silent for longer than the timeout. */
  predicate Expired(c: Context, now: nat, timeout: nat) {
    c.alive && c.lastMsgTime + timeout < now
  }

  /** The test the sweep makes, in 64-bit arithmetic. */
  predicate Flagged(c: Context, now: nat, timeout: nat) {
    c.alive && (c.lastMsgTime + timeout) % U64_LIMIT < now
  }

  lemma WrapOnce(a: nat)
    requires U64_LIMIT <= a < 2 * U64_LIMIT
    ensures a % U64_LIMIT == a - U64_LIMIT
  {
  }

  lemma NoWrap(a: nat)
    requires a < U64_LIMIT
    ensures a % U64_LIMIT == a
  {
  }

  /** The sweep's test is the deadline test iff the session is dead, its deadline fits 64 bits, or
      even the wrapped deadline has not passed, which takes a message from after the clock reading.
      Otherwise the sweep removes a session that is not due. */
  lemma DeadlineExact(c: Context, now: nat, timeout: nat)
    requires c.lastMsgTime < U64_LIMIT && now < U64_LIMIT && timeout < U64_LIMIT
    ensures (Flagged(c, now, timeout) <==> Expired(c, now, timeout))
            <==> !c.alive || c.lastMsgTime + timeout < U64_LIMIT || c.lastMsgTime + timeout - U64_LIMIT >= now
  {
    if c.lastMsgTime + timeout < U64_LIMIT {
      NoWrap(c.lastMsgTime + timeout);
    } else {
      WrapOnce(c.lastMsgTime + timeout);
    }
  }

  /** A session silent for one millisecond, with a timeout of almost 2^64: not due, and swept. */
  lemma DeadlineWraps()
    ensures var c := Context(Peer(1, "", 0), 9, 9, 0, true);
            Flagged(c, 10, U64_LIMIT - 1) && !Expired(c, 10, U64_LIMIT - 1)
  {
    WrapOnce(9 + U64_LIMIT - 1);
  }

  function FlaggedIds(sessions: map<nat, Context>, now: nat, timeout: nat): (ids: set<nat>)
    ensures forall sid :: sid in ids <==> sid in sessions && Flagged(sessions[sid], now, timeout)
  {
    set sid | sid in sessions && Flagged(sessions[sid], now, timeout)
  }

  /** An iteration order of the session map: every key once. */
  ghost predicate Enumerates(order: seq<nat>, sessions: map<nat, Context>) {
    && (forall sid :: sid in order <==> sid in sessions)
    && NoRepeats(order)
  }

  function Elements(s: seq<nat>): (e: set<nat>)
    ensures forall x :: x in e <==> x in s
  {
    set x | x in s
  }

  function DropAll(r: Registry, sids: seq<nat>): Registry
    decreases |sids|
  {
    if sids == [] then r else DropAll(Drop(r, sids[0]), sids[1..])
  }

  lemma {:induction false} DropAllRemoves(r: Registry, sids: seq<nat>)
    ensures DropAll(r, sids) == r.(sessions := r.sessions - Elements(sids))
    decreases |sids|
  {
    var gone := Elements(sids);
    if sids == [] {
      assert r.sessions - gone == r.sessions;
    } else {
      DropAllRemoves(Drop(r, sids[0]), sids[1..]);
      var rest := Elements(sids[1..]);
      assert gone == {sids[0]} + rest;
      assert (r.sessions - {sids[0]}) - rest == r.sessions - gone;
    }
  }

  /** A sweep with other operations between its removals: `between[i]` run before the i-th one. */
  function Interleaved(r: Registry, sids: seq<nat>, between: seq<seq<Op>>): Registry
    requires |between| == |sids|
    decreases |sids|
  {
    if sids == [] then r else Interleaved(Drop(After(r, between[0]), sids[0]), sids[1..], between[1..])
  }

  /** `small` is `big` without the sessions of `gone`, all of which were issued already. */
  ghost predicate Without(small: Registry, big: Registry, gone: set<nat>) {
    && small.sessions == big.sessions - gone
    && small.nextSid == big.nextSid
    && forall sid :: sid in gone ==> sid < big.nextSid
  }

  /** Removing a session early or late makes no difference, because its id never comes back. */
  lemma ApplyKeepsWithout(small: Registry, big: Registry, gone: set<nat>, op: Op)
    requires Without(small, big, gone)
    ensures Without(Apply(small, op), Apply(big, op), gone)
  {
    var m := big.sessions;
    match op
    case Add(peer, now) => UpdateWithout(m, gone, big.nextSid, NewContext(peer, now));
    case Remove(sid) => DropWithout(m, gone, sid);
    case Heartbeat(sid, now) =>
      if sid in m {
        UpdateWithout(m, gone, sid, Heard(m[sid], now));
      }
    case Kick(sid) => DropWithout(m, gone, sid);
    case MarkDead(sid) =>
      if sid in m { UpdateWithout(m, gone, sid, m[sid].(alive := false)); }
  }

  lemma UpdateWithout(m: map<nat, Context>, gone: set<nat>, sid: nat, c: Context)
    ensures m[sid := c] - gone == if sid in gone then m - gone else (m - gone)[sid := c]
  {
  }

  lemma DropWithout(m: map<nat, Context>, gone: set<nat>, sid: nat)
    ensures (m - gone) - {sid} == (m - {sid}) - gone == m - (gone + {sid})
  {
  }

  lemma {:induction false} AfterKeepsWithout(small: Registry, big: Registry, gone: set<nat>, ops: seq<Op>)
    requires Without(small, big, gone)
    ensures Without(After(small, ops), After(big, ops), gone)
    decreases |ops|
  {
    if ops != [] {
      ApplyKeepsWithout(small, big, gone, ops[0]);
      AfterKeepsWithout(Apply(small, ops[0]), Apply(big, ops[0]), gone, ops[1..]);
    }
  }

  lemma {:induction false} AfterConcat(r: Registry, ops: seq<Op>, more: seq<Op>)
    ensures After(r, ops + more) == After(After(r, ops), more)
    decreases |ops|
  {
    hide Apply;
    if ops == [] {
      assert ops + more == more;
    } else {
      assert (ops + more)[0] == ops[0];
      AfterConcat(Apply(r, ops[0]), ops[1..], more);
      assert (ops + more)[1..] == ops[1..] + more;
    }
  }

  lemma {:induction false} InterleavedWithout(
    small: Registry, big: Registry, gone: set<nat>, sids: seq<nat>, between: seq<seq<Op>>)
    requires |between| == |sids| && Without(small, big, gone)
    requires forall i :: 0 <= i < |sids| ==> sids[i] < big.nextSid
    ensures Without(Interleaved(small, sids, between), After(big, Flatten(between)), gone + Elements(sids))
    decreases |sids|
  {
    if sids == [] {
      assert gone + Elements(sids) == gone;
    } else {
      var s, b := After(small, between[0]), After(big, between[0]);
      AfterKeepsWithout(small, big, gone, between[0]);
      IdsGrow(big, between[0]);
      DropWithout(b.sessions, gone, sids[0]);
      assert sids[0] < b.nextSid;
      assert Without(Drop(s, sids[0]), b, gone + {sids[0]});
      InterleavedWithout(Drop(s, sids[0]), b, gone + {sids[0]}, sids[1..], between[1..]);
      AfterConcat(big, between[0], Flatten(between[1..]));
      GatherFirst(gone, sids);
    }
  }

  lemma GatherFirst(gone: set<nat>, sids: seq<nat>)
    requires sids != []
    ensures gone + {sids[0]} + Elements(sids[1..]) == gone + Elements(sids)
  {
  }

  lemma IdsGrow(r: Registry, ops: seq<Op>)
    ensures After(r, ops).nextSid >= r.nextSid
    decreases |ops|
  {
    if ops != [] { IdsGrow(Apply(r, ops[0]), ops[1..]); }
  }

  ghost predicate NoRepeats(sids: seq<nat>) {
    forall j, k :: 0 <= j < k < |sids| ==> sids[j] != sids[k]
  }

  /** How many removals of the sweep find their session. */
  function Removed(r: Registry, sids: seq<nat>, between: seq<seq<Op>>): (n: nat)
    requires |between| == |sids|
    ensures n <= |sids|
    decreases |sids|
  {
    if sids == [] then 0
    else
      var s := After(r, between[0]);
      (if sids[0] in s.sessions then 1 else 0) + Removed(Drop(s, sids[0]), sids[1..], between[1..])
  }

  /** Nobody else has removed the i-th session before the sweep comes to it. */
  ghost predicate Untaken(r: Registry, sids: seq<nat>, between: seq<seq<Op>>)
    requires |between| == |sids|
  {
    forall i :: 0 <= i < |sids| ==> sids[i] in After(r, Flatten(between[..i + 1])).sessions
  }

  lemma UntakenFirst(big: Registry, sids: seq<nat>, between: seq<seq<Op>>)
    requires |between| == |sids| && sids != []
    ensures Untaken(big, sids, between) <==>
            sids[0] in After(big, between[0]).sessions && Untaken(After(big, between[0]), sids[1..], between[1..])
  {
    var b := After(big, between[0]);
    forall i | 0 <= i < |sids|
      ensures After(big, Flatten(between[..i + 1])) == After(b, Flatten(between[1..][..i]))
    {
      assert between[..i + 1][0] == between[0] && between[..i + 1][1..] == between[1..][..i];
      AfterConcat(big, between[0], Flatten(between[1..][..i]));
    }
    assert between[1..][..0] == [] && After(b, []) == b;
    forall i | 0 <= i < |sids[1..]|
      ensures sids[1..][i] in After(b, Flatten(between[1..][..i + 1])).sessions
              <==> sids[i + 1] in After(big, Flatten(between[..(i + 1) + 1])).sessions
    {
    }
    if sids[0] in b.sessions && Untaken(b, sids[1..], between[1..]) {
      forall i | 0 <= i < |sids|
        ensures sids[i] in After(big, Flatten(between[..i + 1])).sessions
      {
        if i > 0 { assert sids[1..][i - 1] == sids[i]; }
      }
    }
  }

  lemma {:induction false} RemovedIff(
    small: Registry, big: Registry, gone: set<nat>, sids: seq<nat>, between: seq<seq<Op>>)
    requires |between| == |sids| && Without(small, big, gone) && NoRepeats(sids)
    requires forall i :: 0 <= i < |sids| ==> sids[i] < big.nextSid && sids[i] !in gone
    ensures Removed(small, sids, between) == |sids| <==> Untaken(big, sids, between)
    decreases |sids|
  {
    hide Untaken;
    if sids == [] {
      assert Untaken(big, sids, between) by { NothingTaken(big, between); }
    } else {
      var s, b := After(small, between[0]), After(big, between[0]);
      AfterKeepsWithout(small, big, gone, between[0]);
      IdsGrow(big, between[0]);
      DropWithout(b.sessions, gone, sids[0]);
      UntakenFirst(big, sids, between);
      RemovedIff(Drop(s, sids[0]), b, gone + {sids[0]}, sids[1..], between[1..]);
    }
  }

  lemma NothingTaken(big: Registry, between: seq<seq<Op>>)
    requires between == []
    ensures Untaken(big, [], between)
  {
  }

  /** With any operations of other threads between the removals, the sweep's whole effect is to take
      away the sessions that were past the deadline at the scan: the others end as if no sweep had
      happened, and a flagged session goes even if a heartbeat arrived after the scan.  The number it
      returns is that of the flagged sessions; it is the number it removed iff nobody else removed
      one of them first. */
  lemma InterleavedSweep(r: Registry, sids: seq<nat>, between: seq<seq<Op>>, now: nat, timeout: nat)
    requires Inv(r) && |between| == |sids| && NoRepeats(sids)
    requires Elements(sids) == FlaggedIds(r.sessions, now, timeout)
    ensures Interleaved(r, sids, between).sessions
            == After(r, Flatten(between)).sessions - FlaggedIds(r.sessions, now, timeout)
    ensures |sids| == |FlaggedIds(r.sessions, now, timeout)|
    ensures Removed(r, sids, between) == |sids| <==> Untaken(r, sids, between)
  {
    hide Flagged, Untaken, Removed;
    assert r.sessions == r.sessions - {};
    forall i | 0 <= i < |sids|
      ensures sids[i] < r.nextSid
    {
      assert sids[i] in Elements(sids);
    }
    InterleavedWithout(r, r, {}, sids, between);
    assert {} + Elements(sids) == Elements(sids);
    RemovedIff(r, r, {}, sids, between);
    SizeOfElements(sids);
  }

  /* ---- who is swept, over whole runs ---- */

  predicate Touches(op: Op, sid: nat) {
    !op.Add? && op.sid == sid
  }

  lemma {:induction false} UntouchedStays(r: Registry, ops: seq<Op>, sid: nat)
    requires sid in r.sessions && sid < r.nextSid && forall i :: 0 <= i < |ops| ==> !Touches(ops[i], sid)
    ensures sid in After(r, ops).sessions && After(r, ops).sessions[sid] == r.sessions[sid]
    decreases |ops|
  {
    if ops != [] {
      assert !Touches(ops[0], sid);
      UntouchedStays(Apply(r, ops[0]), ops[1..], sid);
    }
  }

  /** The last sign of life decides: after a heartbeat at `t` and anything that does not concern the
      session, a sweep removes it iff it was alive and the deadline counted from `t` has passed. */
  lemma HeartbeatDecides(r: Registry, sid: nat, t: nat, ops: seq<Op>, now: nat, timeout: nat)
    requires Inv(r) && sid in r.sessions && forall i :: 0 <= i < |ops| ==> !Touches(ops[i], sid)
    ensures sid in FlaggedIds(After(Apply(r, Heartbeat(sid, t)), ops).sessions, now, timeout)
            <==> r.sessions[sid].alive && (t + timeout) % 0x1_0000_0000_0000_0000 < now
    ensures var s := After(Apply(r, Heartbeat(sid, t)), ops);
            sid in s.sessions && s.sessions[sid].lastMsgTime == t
  {
    hide After, Inv;
    IdsBelow(r, sid);
    UntouchedStays(Apply(r, Heartbeat(sid, t)), ops, sid);
  }

  /** A new session is stored as it was added, and counts as heard from at that moment: after anything
      that does not concern it, a sweep removes it iff the deadline counted from then has passed. */
  lemma AddDecides(r: Registry, peer: Peer, t: nat, ops: seq<Op>, now: nat, timeout: nat)
    requires Inv(r) && forall i :: 0 <= i < |ops| ==> !Touches(ops[i], r.nextSid)
    ensures var sid, s := r.nextSid, After(Apply(r, Add(peer, t)), ops);
            && sid in s.sessions && s.sessions[sid].peer == peer && s.sessions[sid].connectTime == t
            && s.sessions[sid].heartbeats == 0 && s.sessions[sid].alive
            && (sid in FlaggedIds(s.sessions, now, timeout) <==> (t + timeout) % 0x1_0000_0000_0000_0000 < now)
  {
    hide After, Inv;
    UntouchedStays(Apply(r, Add(peer, t)), ops, r.nextSid);
  }

  function HeartbeatsOf(ops: seq<Op>, sid: nat): nat {
    if ops == [] then 0
    else (if ops[0].Heartbeat? && ops[0].sid == sid then 1 else 0) + HeartbeatsOf(ops[1..], sid)
  }

  /** A session that is still there has counted every heartbeat since, and kept its peer and connect
      time. */
  lemma {:induction false} HeartbeatsCounted(r: Registry, ops: seq<Op>, sid: nat)
    requires Inv(r) && sid in r.sessions && sid in After(r, ops).sessions
    ensures var c, d := r.sessions[sid], After(r, ops).sessions[sid];
            d.heartbeats == c.heartbeats + HeartbeatsOf(ops, sid) && d.peer == c.peer && d.connectTime == c.connectTime
    decreases |ops|
  {
    if ops != [] {
      var q := Apply(r, ops[0]);
      StepKeeps(r, ops[0]);
      if sid !in q.sessions {
        GoneForGood(q, ops[1..], sid);
      } else {
        HeartbeatsCounted(q, ops[1..], sid);
      }
    }
  }

  /** A session that is gone does not come back: ids are not issued twice. */
  lemma {:induction false} GoneForGood(r: Registry, ops: seq<Op>, sid: nat)
    requires sid < r.nextSid && sid !in r.sessions
    ensures sid !in After(r, ops).sessions
    decreases |ops|
  {
    if ops != [] { GoneForGood(Apply(r, ops[0]), ops[1..], sid); }
  }

  /** Removing and kicking end a session for good and leave every other one as it was. */
  lemma EndedForGood(r: Registry, sid: nat, ops: seq<Op>)
    requires Inv(r) && sid in r.sessions
    ensures sid !in After(Apply(r, Remove(sid)), ops).sessions && sid !in After(Apply(r, Kick(sid)), ops).sessions
    ensures forall s :: s in r.sessions && s != sid ==>
              && s in Apply(r, Remove(sid)).sessions && Apply(r, Remove(sid)).sessions[s] == r.sessions[s]
              && s in Apply(r, Kick(sid)).sessions && Apply(r, Kick(sid)).sessions[s] == r.sessions[s]
  {
    hide After;
    GoneForGood(Apply(r, Remove(sid)), ops, sid);
    GoneForGood(Apply(r, Kick(sid)), ops, sid);
  }

  /** The valid socket of the session that a kick finds. */
  function KickedBy(r: Registry, op: Op): seq<int> {
    if op.Kick? && op.sid in r.sessions && r.sessions[op.sid].peer.socket >= 0
    then [r.sessions[op.sid].peer.socket]
    else []
  }

  function KickedSockets(r: Registry, ops: seq<Op>): seq<int>
    decreases |ops|
  {
    if ops == [] then [] else KickedBy(r, ops[0]) + KickedSockets(Apply(r, ops[0]), ops[1..])
  }

  lemma ClosedBy(r: Registry, op: Op)
    ensures Apply(r, op).closed == r.closed + KickedBy(r, op)
  {
  }

  /** Over every run the sockets closed are those of the sessions that were kicked, each session's
      once; removals and sweeps close none. */
  lemma {:induction false} ClosedAreKicked(r: Registry, ops: seq<Op>)
    ensures After(r, ops).closed == r.closed + KickedSockets(r, ops)
    ensures (forall i :: 0 <= i < |ops| ==> !ops[i].Kick?) ==> KickedSockets(r, ops) == []
    decreases |ops|
  {
    hide Apply;
    if ops != [] {
      ClosedBy(r, ops[0]);
      ClosedAreKicked(Apply(r, ops[0]), ops[1..]);
    }
  }

  /** An id that was issued and is not the id of a session that counts as alive. */
  ghost predicate NotAlive(r: Registry, sid: nat) {
    sid < r.nextSid && (sid in r.sessions ==> !r.sessions[sid].alive)
  }

  lemma {:induction false} NeverAliveAgain(r: Registry, ops: seq<Op>, sid: nat)
    requires NotAlive(r, sid)
    ensures NotAlive(After(r, ops), sid)
    decreases |ops|
  {
    if ops != [] { NeverAliveAgain(Apply(r, ops[0]), ops[1..], sid); }
  }

  /** A session marked dead is never swept again, whatever happens and however old it gets: only
      `remove` and `kick` end it. */
  lemma DeadIsNeverSwept(r: Registry, sid: nat, ops: seq<Op>, now: nat, timeout: nat)
    requires Inv(r) && sid in r.sessions
    ensures sid !in FlaggedIds(After(Apply(r, MarkDead(sid)), ops).sessions, now, timeout)
    ensures (forall i :: 0 <= i < |ops| ==> !Touches(ops[i], sid)) ==>
              sid in After(Apply(r, MarkDead(sid)), ops).sessions
  {
    hide Inv, After;
    assert sid < r.nextSid by { IdsBelow(r, sid); }
    var s := Apply(r, MarkDead(sid));
    NeverAliveAgain(s, ops, sid);
    if forall i :: 0 <= i < |ops| ==> !Touches(ops[i], sid) { UntouchedStays(s, ops, sid); }
  }

  lemma IdsBelow(r: Registry, sid: nat)
    requires Inv(r) && sid in r.sessions
    ensures sid < r.nextSid
  {
  }

  /* ---- the registry object ---- */

  class SessionMgr {
    var sessions: map<nat, Context>
    var nextSid: nat
    var totalCount: nat
    var peakCount: nat
    var closed: seq<int>    // sockets closed so far

    constructor ()
      ensures State() == Initial()
    {
      sessions, nextSid, totalCount, peakCount, closed := map[], 1, 0, 0, [];
    }

    ghost function State(): Registry
      reads this
    {
      Registry(sessions, nextSid, totalCount, peakCount, closed)
    }

    method AddSession(peer: Peer, now: nat) returns (sid: nat)
      requires Inv(State())
      modifies this
      ensures State() == Apply(old(State()), Add(peer, now)) && Inv(State())
      ensures sid == old(nextSid) && sid !in old(sessions)
    {
      StepKeeps(State(), Add(peer, now));
      sid := nextSid;
      nextSid := nextSid + 1;
      sessions := sessions[sid := Context(peer, now, now, 0, true)];
      totalCount := totalCount + 1;
      var live := |sessions|;
      if live > peakCount { peakCount := live; }
    }

    method RemoveSession(sid: nat)
      requires Inv(State())
      modifies this`sessions
      ensures State() == Apply(old(State()), Remove(sid)) && Inv(State())
    {
      StepKeeps(State(), Remove(sid));
      if sid in sessions {
        sessions := sessions - {sid};
      } else {
        assert sessions - {sid} == sessions;
      }
    }

    method Heartbeat(sid: nat, now: nat)
      requires Inv(State())
      modifies this`sessions
      ensures State() == Apply(old(State()), Op.Heartbeat(sid, now)) && Inv(State())
    {
      StepKeeps(State(), Op.Heartbeat(sid, now));
      if sid in sessions {
        var c := sessions[sid];
        sessions := sessions[sid := c.(lastMsgTime := now, heartbeats := c.heartbeats + 1)];
      }
    }

    method Kick(sid: nat) returns (kicked: bool)
      requires Inv(State())
      modifies this`sessions, this`closed
      ensures State() == Apply(old(State()), Op.Kick(sid)) && Inv(State())
      ensures kicked == (sid in old(sessions))
    {
      hide Inv;
      StepKeeps(State(), Op.Kick(sid));
      kicked := sid in sessions;
      if kicked {
        var c := sessions[sid];
        UpdateWithout(sessions, {sid}, sid, c.(alive := false));
        if c.peer.socket >= 0 { closed := closed + [c.peer.socket]; }
        sessions := sessions[sid := c.(alive := false)];
        sessions := sessions - {sid};
      } else {
        assert sessions - {sid} == sessions;
      }
    }

    method MarkDead(sid: nat)
      requires Inv(State())
      modifies this`sessions
      ensures State() == Apply(old(State()), Op.MarkDead(sid)) && Inv(State())
    {
      StepKeeps(State(), Op.MarkDead(sid));
      if sid in sessions {
        sessions := sessions[sid := sessions[sid].(alive := false)];
      }
    }

    /** Scan, then remove: the uninterrupted sweep removes exactly the sessions that were flagged. */
    method CleanupTimeout(order: seq<nat>, now: nat, timeout: nat) returns (count: nat)
      requires Inv(State()) && Enumerates(order, sessions)
      modifies this`sessions
      ensures Inv(State())
      ensures sessions == old(sessions) - FlaggedIds(old(sessions), now, timeout)
      ensures count == |FlaggedIds(old(sessions), now, timeout)|
    {
      hide FlaggedIds, Elements, Flagged;
      var toRemove := Scan(sessions, order, now, timeout);
      DropAllRemoves(State(), toRemove);
      count := 0;
      for i := 0 to |toRemove|
        invariant Inv(State()) && count == i
        invariant DropAll(State(), toRemove[i..]) == DropAll(old(State()), toRemove)
      {
        assert toRemove[i..][0] == toRemove[i] && toRemove[i..][1..] == toRemove[i + 1..];
        RemoveSession(toRemove[i]);
        count := count + 1;
      }
    }
  }

  /** The scan under the lock: the flagged ids, each once, in the map's iteration order. */
  method Scan(sessions: map<nat, Context>, order: seq<nat>, now: nat, timeout: nat) returns (toRemove: seq<nat>)
    requires Enumerates(order, sessions)
    ensures Elements(toRemove) == FlaggedIds(sessions, now, timeout)
    ensures |toRemove| == |FlaggedIds(sessions, now, timeout)| && NoRepeats(toRemove)
  {
    hide Flagged;
    toRemove := [];
    for i := 0 to |order|
      invariant forall sid :: sid in toRemove <==> sid in order[..i] && Flagged(sessions[sid], now, timeout)
      invariant NoRepeats(toRemove)
    {
      assert order[..i + 1] == order[..i] + [order[i]];
      var sid := order[i];
      assert sid in order && sid !in order[..i];
      assert sid in sessions;
      if Flagged(sessions[sid], now, timeout) { toRemove := toRemove + [sid]; }
    }
    assert order[..|order|] == order;
    assert Elements(toRemove) == FlaggedIds(sessions, now, timeout);
    SizeOfElements(toRemove);
  }

  lemma {:induction false} SizeOfElements(s: seq<nat>)
    requires NoRepeats(s)
    ensures |Elements(s)| == |s|
    decreases |s|
  {
    if s != [] {
      SizeOfElements(s[1..]);
      assert Elements(s) == {s[0]} + Elements(s[1..]);
      assert s[0] !in s[1..];
    } else {
      assert Elements(s) == {};
    }
  }
}
