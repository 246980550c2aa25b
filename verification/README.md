# Verified core of the server framework

A Dafny model of the algorithms that carry the weight in this C++17 server framework, and proofs
about them. `dafny verify dfyconfig.toml` checks everything.

| files | what they model |
|---|---|
| `Bytes`, `Sequences`, `Packets`, `Connection` | length-prefixed packets, the client's and the server's parser, and one connection as a step machine, read by either side: enqueue, partial send, failure, chunked receive, parse |
| `Crc32`, `CrcBursts`, `CrcDivision` | the table-driven CRC-32, its algebra, and long division over GF(2) as its reference |
| `Codec`, `CodecRoundTrip` | the checksummed frame and the resynchronising stream decoder |
| `TimerHeap`, `Timers`, `TimerRuns`, `TimerSchedule`, `TimerNearest`, `TimerObjects` | the binary heap of timers, lazy cancellation, polling, and whole runs |
| `EventTimers`, `EventTimerRuns`, `EventTasks` | the event loop: timers and tasks under every interleaving of a pass with callbacks and other threads, with ids drawn outside the lock |
| `PoolMemory`, `MemoryPools`, `MemoryPoolRuns`, `MemoryPoolRaces`, `MemoryPoolObjects` | raw memory with pointers stored in blocks, the intrusive free list, every run of the pool, pre-allocation without the lock, the manager of size classes |
| `ObjectPools`, `ObjectPoolWarmup` | the object pool under every interleaving of its locked sections |
| `ThreadPools` | the two-class queue, the workers and both shutdowns under every interleaving |
| `Sessions` | the session registry and its two-phase timeout sweep |

Code that changes things step by step is a class or a method with loops, proved equal to a function
of the old state; what the code is for is then proved about that function, usually over every
sequence of operations or every interleaving of steps.

Some promises turned out not to hold as written. The model keeps the code as it is and states the
exact condition:

- Encoding and decoding a frame gives the packet back only for one checksum per `seq` and `cmd`
  (`CodecRoundTrip.RoundTripIff`; `EmptyPacketIsLost` is a frame that fails): the encoder takes the
  checksum while bytes 5 to 14 are still zero, the decoder after they are filled in. `codec.h` and
  `DESIGN.md` describe a checksum over version to data and a length that excludes itself; the code
  starts at byte 5 and stores the whole length, and the model follows the code.
- The id of a repeating timer changes at every firing, so `cancel` with the id that `add_repeating`
  returned works only until the first one (`TimerRuns.CancelByFirstId`, `FirstIdIsLost`).
- `API.md:759` calls the event loop's `add_timer` and `cancel_timer` thread-safe, but an id is drawn
  by incrementing a plain integer outside the lock. In a run all ids differ iff no two draws overlap
  (`EventTimers.IdsDifferIff`), and two timers can end up with one id iff at least two threads draw
  ids, where the loop's own thread, which renews, counts as one (`EventTimers.DuplicatePossibleIff`,
  `TwoThreadsCollide`, `AdderMeetsRenewal`). What else is proved about the loop's timers holds in
  every run without such an overlap, in particular whenever one thread draws all ids.
- A cancellation that comes while its timer is in flight, from a callback or from another thread, is
  lost (`EventTimerRuns.AliveIffSpared`, `CancelIsLost`).
- `nearest_expire` returns the first live item in array order, which need not be the earliest
  (`TimerNearest.NearestExpireExact`, `NearestExpireFails`).
- The memory pool's `pre_allocate` takes no lock. It leaves the pool sound iff the head it writes
  over is still the one it read (`MemoryPoolRaces.UnlockedSoundIff`); one allocation in between and
  the block handed out is on the list again (`MemoryPoolRaces.HandedOutTwice`).
- The growth path of the memory pool needs at least two blocks in a chunk
  (`MemoryPools.GrowthSoundIff`, `OneBlockFails`); the doubling loop of `get_pool` does not end for
  requests above 2^63 (`MemoryPoolObjects.LoopEndsIff`), and above 2^57 the size passed to `malloc`
  wraps (`MemoryPoolObjects.ChunkFitsIff`).
- `API.md:675` says the object pool's `allocate` never returns null. It can for a single thread when
  a constructor throws, and for two threads even when none does (`ObjectPools.NullPossibleIff`). Its
  `pre_allocate` never adds more than one chunk (`ObjectPoolWarmup.WarmUpReservesIff`).
- A complete length field below 6 makes the client's parser undefined
  (`Packets.ClientMatchesServer`). The server's is undefined iff one comes before a zero
  (`Packets.ServerDefinedIff`), and stalls for good iff it gets to a zero length field
  (`Packets.StallsForeverIff`); `Packets.SmallLengths` shows all three.
- The sweep's deadline is computed in 64 bits and wraps (`Sessions.DeadlineExact`, `DeadlineWraps`);
  the number it returns counts sessions that others removed first (`Sessions.InterleavedSweep`); a
  session marked dead is never swept (`Sessions.DeadIsNeverSwept`).
- A task submitted after the last worker left stays in the queue (`ThreadPools.ShutdownExact`,
  `LateTaskStays`).

## Model

| member | source | states |
|---|---|---|
| `Crc32.EightRounds` | network/codec/codec.cpp:52-56 | the eight rounds of the inner loop compute the table entry of a byte value |
| `Crc32.Calculator.InitTable` | network/codec/codec.cpp:50-58 | every one of the 256 entries is its eight-fold shift |
| `Crc32.Calculator.Calculate` | network/codec/codec.cpp:60-70 | the result is `Crc` of the data, whether or not the lazily filled table was ready, and the table stays right |
| `Crc32.ShiftLinear` | network/codec/codec.cpp:54 | one register shift distributes over exclusive or |
| `Crc32.ShiftsUnshifts` | network/codec/codec.cpp:54 | any number of shifts is a bijection with an explicit inverse |
| `Crc32.FeedIsShifts` | network/codec/codec.cpp:66-68 | one table look-up equals eight single-bit shifts of the register with the byte mixed in |
| `CrcBursts.RegisterConcat` | network/codec/codec.cpp:66-68 | the register after a concatenation is the register of the second part started from the first |
| `CrcBursts.RegisterUnregister` | network/codec/codec.cpp:66-68 | running a message backwards from any register value and then forwards returns to it |
| `CrcBursts.RegisterInjective` | network/codec/codec.cpp:66-68 | different start values stay different through every message |
| `CrcBursts.RegisterIsShifts` | network/codec/codec.cpp:66-68 | up to four message bytes act like one word mixed in and shifted through |
| `CrcBursts.ShortInjective` | network/codec/codec.cpp:66-68 | from one register value, different strings of at most four bytes end differently |
| `CrcBursts.WindowDetected` | network/codec/codec.cpp:60-70 | replacing a window of at most four bytes by different ones changes the checksum, whatever surrounds it |
| `CrcBursts.BurstDetected` | network/codec/codec.cpp:60-70 | two different strings of one length that differ only inside four consecutive bytes never have the same checksum |
| `CrcDivision.RegisterIsSerial` | network/codec/codec.cpp:66-68 | the table-driven register equals the bit-at-a-time register over the message bits |
| `CrcDivision.PolyIsGenerator` | network/codec/codec.cpp:54 | 0xEDB88320 holds the coefficients of the CRC-32 generator below x^32, reflected |
| `CrcDivision.DivisionInvariant` | network/codec/codec.cpp:66-68 | at every point the register is the remainder of what has been divided so far |
| `CrcDivision.CrcIsDivision` | network/codec/codec.cpp:50-70 | for every byte string the checksum is the complemented remainder of schoolbook long division by the generator over GF(2), as in section 8 of RFC 1952 |
| `Bytes.BigEndianWord` | network/codec/codec.cpp:136-157 | a four-byte field is read with its first byte weighing 2^24 |
| `Bytes.BigEndianHalf` | network/codec/codec.cpp:151-157 | a two-byte field is read with its first byte weighing 256 |
| `Bytes.WrittenBigEndian` | network/codec/codec.cpp:108-118 | written fields carry their most significant byte first |
| `Codec.NetworkOrder` | network/codec/codec.cpp:21-33 | what `htonl` and `htons` leave in memory is big-endian on a little-endian and on a big-endian host |
| `Codec.HostOrder` | network/codec/codec.cpp:21-33 | what `ntohl` and `ntohs` make of loaded header fields is their big-endian value on either kind of host |
| `Codec.FilledFrame` | network/codec/codec.cpp:89-121 | patching the five header fields over the placeholder gives exactly the frame layout |
| `Codec.Decoder.Encode` | network/codec/codec.cpp:89-121 | the output is the frame, with the checksum of the zeroed header and, for payloads of any size, the 32-bit length |
| `Codec.Decoder.Inspect` | network/codec/codec.cpp:135-165 | one round of the decoding loop decides as `Look`, which `LookOnBytes` spells out: wait, clear, skip or take |
| `Codec.Decoder.Decode` | network/codec/codec.cpp:123-183 | result and remaining buffer are those of `TryDecode` on old buffer plus input |
| `Codec.LookOnBytes` | network/codec/codec.cpp:134-180 | on the bytes: clear iff at least 15 bytes show a length below 15 or above 10485760; skip iff a complete frame has another checksum at byte 5 than that of its bytes from 5 on; take iff it has that one, with `seq`, `cmd` and data at 9, 13 and 15; wait otherwise |
| `Codec.RefusedClears` | network/codec/codec.cpp:140-144 | a length below 15 or above 10485760 costs the whole buffer |
| `Codec.LookExtend` | network/codec/codec.cpp:134-181 | a decision other than waiting does not change when more bytes arrive |
| `Codec.TryExtend` | network/codec/codec.cpp:133-183 | decoding with more input is decoding, then continuing with what was left |
| `Codec.SplitInvariance` | network/codec/codec.cpp:123-183 | for every split of the input into calls, up to and including the first that clears: packets returned so far and a scan of the buffer are the one-shot scan of all bytes fed |
| `Codec.EmptyCallsDrain` | network/codec/codec.cpp:123-183 | enough calls without input return every packet that is complete in the buffer |
| `Codec.FirstFrame` | network/codec/codec.cpp:133-183 | on the bytes: the decoder passes over the offsets where a complete frame has a wrong checksum and at the first other one takes the frame, clears, or waits with everything from there on |
| `CodecRoundTrip.FilledLikeZeros` | network/codec/codec.cpp:105-118 | the filled bytes 5 to 14 drive the register where ten zeros do iff the stored checksum is the one `RequiredCrc` computes from `seq` and `cmd` |
| `CodecRoundTrip.ChecksumAgrees` | network/codec/codec.cpp:105-160 | the decoder accepts the encoder's checksum iff it is the required one |
| `CodecRoundTrip.FrameFields` | network/codec/codec.cpp:101-118 | for payloads of any size the header reads back as 32 bits of the length, version 1, the checksum over (10 + size) mod 2^32 bytes of the zeroed header and data, `seq`, `cmd` and data |
| `CodecRoundTrip.AfterRejection` | network/codec/codec.cpp:160-165 | one byte into a rejected frame the decoder waits for 256 times the length, or clears if the frame has 40960 bytes or more |
| `CodecRoundTrip.FrameDecodes` | network/codec/codec.cpp:89-183 | the whole outcome for every frame below 4 GB: the packet, or exactly what is left of a frame that is too large or has another checksum |
| `CodecRoundTrip.RoundTripIff` | network/codec/codec.cpp:89-183 | for every payload of any size: the packet comes back iff its frame is at most 10 MB and the stored checksum is the required one |
| `CodecRoundTrip.RequiredCrcOfZero` | network/codec/codec.cpp:105-118 | with `seq` and `cmd` zero the required checksum is zero |
| `CodecRoundTrip.NeighboursExclude` | network/codec/codec.cpp:105-160 | two payloads differing inside four consecutive bytes never both survive the round trip |
| `CodecRoundTrip.SurvivorExists` | network/codec/codec.cpp:105-160 | whatever surrounds them, four bytes can be chosen so that the payload survives; with the row above, exactly one choice |
| `CodecRoundTrip.EmptyPacketIsLost` | network/codec/codec.cpp:89-183 | the empty packet with `seq` and `cmd` zero is encoded, and the decoder returns nothing for it |
| `Packets.EncodedIsCut` | network/protocol/packet.cpp:11-68 | decoding an encoded packet returns it and its length, whatever follows |
| `Packets.EncodedLayout` | network/protocol/packet.cpp:11-24 | for packets of any size: 32 bits of the whole length at 0, the command at 4, the data from 6 on |
| `Packets.EncodableIff` | network/protocol/packet.cpp:11-68 | for packets of any size decoding undoes encoding iff the length fits 32 bits |
| `Packets.CutIsEncoded` | network/protocol/packet.cpp:44-68 | the bytes consumed are the encoding of the packet returned |
| `Packets.PrefixWaits` | network/protocol/packet.cpp:44-51 | every proper prefix of an encoded packet makes `decode_from` ask for more |
| `Packets.MoreBytes` | network/protocol/packet.cpp:44-68 | bytes behind a complete packet do not change what is cut |
| `Packets.ParseConserves` | network/tcp/tcp_connection.cpp:73-75 | for every buffer, re-encoding what was delivered and appending the residue restores it, and the residue holds no packet |
| `Packets.ParseSplit` | network/tcp/tcp_connection.cpp:69-75 | parsing a chunk and later its residue with more bytes delivers what parsing all at once does |
| `Packets.ParseStream` | network/protocol/packet.cpp:11-68 | the parse loop inverts encoding of any sequence of packets |
| `Packets.ClientMatchesServer` | network/tcp/tcp_client.cpp:120-131 | on every buffer whose complete length fields are at least 6 the client delivers the server's data parts and keeps the same residue; on every other buffer it is undefined |
| `Packets.ServerDefinedIff` | network/protocol/packet.cpp:44-68 | the server's loop is defined iff no complete length field before the first zero one is below 6 |
| `Packets.StallIff` | network/protocol/packet.cpp:45-51 | no input ever completes a residue iff it begins with a zero length field; every other one is decided by some input |
| `Packets.StallsForeverIff` | network/tcp/tcp_connection.cpp:69-75 | after any defined input, no later chunk delivers anything and all of it piles up iff the parser has come to a zero length field |
| `Packets.RegularIff` | network/tcp/tcp_client.cpp:120-131 | the client is safe on exactly the buffers on which the server is defined and does not stall |
| `Packets.SmallLengths` | network/protocol/packet.cpp:44-68 | four zero bytes stall the server for good and break the client; a length of one breaks both |
| `Connection.SendLoop` | network/tcp/tcp_connection.cpp:23-32 | for every sequence of replies progress never decreases or passes the end |
| `Connection.SendLoopExact` | network/tcp/tcp_connection.cpp:23-32 | exactly the bytes the system accepted before it first failed are written, at most the message; done iff that is all of it, failed iff the system failed before; an interruption changes nothing |
| `Connection.TcpConnection.Close` | network/tcp/tcp_connection.cpp:116-123 | the connection is closed; queue and buffer stay |
| `Connection.TcpConnection.SendPacket` | network/tcp/tcp_connection.cpp:35-41 | one encoded packet of any size is appended to the queue, also on a closed connection |
| `Connection.TcpConnection.SendRaw` | network/tcp/tcp_connection.cpp:21-33 | the prefix that goes out is as long as the system accepted; success iff it accepted everything, failure iff closed or it failed first |
| `Connection.TcpConnection.ProcessRead` | network/tcp/tcp_connection.cpp:82-94 | one complete packet is cut and delivered, or nothing changes; tells when the code is undefined |
| `Connection.TcpConnection.OnReceive` | network/tcp/tcp_connection.cpp:69-75 | every chunk delivers exactly the packets `ParseAll` finds and keeps its residue; defined iff no complete length field before a zero one is below 6 |
| `Connection.TcpClient.OnReceive` | network/tcp/tcp_client.cpp:117-131 | defined iff every complete length field is at least 6, and then delivers the data parts the server's loop would |
| `Connection.StepKeeps` | network/tcp/tcp_connection.cpp:21-114 | every step conserves the bytes from queue to read buffer and keeps delivery a prefix |
| `Connection.NextCut` | network/tcp/tcp_connection.cpp:82-94 | in every reachable state the next packet cut is the next one accepted, and no length field is too small |
| `Connection.ParseLoop` | network/tcp/tcp_connection.cpp:73-75 | the machine's parse steps after a chunk amount to one run of `ParseAll` |
| `Connection.SendRuns` | network/tcp/tcp_connection.cpp:96-114 | the machine allows every sequence of partial sends and interruptions, and they put exactly the accepted part of the message on the wire |
| `Connection.ReceiveRuns` | network/tcp/tcp_connection.cpp:58-75 | it allows every chunk of 1 to 8192 bytes, and receiving and parsing one is a turn of the read loop |
| `Connection.PrefixDelivery` | network/tcp/tcp_connection.cpp:21-114 | in every run, with any chunking, partial sends and failures, delivered packets are a prefix of those accepted |
| `Connection.UndeliveredIsMissing` | network/tcp/tcp_connection.cpp:57-94 | while a packet is undelivered and the parser is idle, some of its bytes have not been received |
| `Connection.CompleteDelivery` | network/tcp/tcp_connection.cpp:57-94 | once all accepted bytes were received, all packets are delivered and the read buffer is empty |
| `Connection.IdleIsComplete` | network/tcp/tcp_connection.cpp:21-114 | a running writer with nothing queued, held or on the wire has delivered everything |
| `Connection.StoppedForGood` | network/tcp/tcp_connection.cpp:57-114 | after the writer stops no byte joins those that left it; after the reader stops nothing is received or delivered |
| `Connection.MirrorStep` | network/tcp/tcp_client.cpp:109-135 | on every reachable state a step of the machine read by the client simulates the one read by the server |
| `Connection.ClientPrefixDelivery` | network/tcp/tcp_client.cpp:109-135 | in every run the client meets no length field below 6 and its messages are the data parts of a prefix of the accepted packets |
| `Connection.ClientIdleIsComplete` | network/tcp/tcp_client.cpp:109-135 | an idle pipeline to a client has delivered the data of every accepted packet |
| `TimerHeap.PushHeap` | base/timer/timer.cpp:29-33 | the sift-up loop computes `Push` |
| `TimerHeap.PopHeap` | base/timer/timer.cpp:76-79 | the root ends up behind the heap `PopRest` of the others |
| `TimerHeap.PushKeeps` | base/timer/timer.cpp:28-33 | insertion adds exactly the item and keeps heap order |
| `TimerHeap.PopKeeps` | base/timer/timer.cpp:76-80 | removal takes exactly the root and keeps heap order |
| `TimerHeap.RootBounds` | base/timer/timer.cpp:74 | the root of a heap expires no later than any item |
| `Timers.IndexOfFinds` | base/timer/timer.cpp:57-62 | the position found holds the id, and one is found iff some item has it |
| `Timers.DrainSplits` | base/timer/timer.cpp:73-92 | the first loop collects exactly the live due timers in order of expiry, keeps every live timer that is not due, and stops with a live root |
| `Timers.PollCorrect` | base/timer/timer.cpp:70-120 | `poll` fires exactly the live due timers in order; what stays is the rest and the successors, a heap, all later than now; the delay returned is exact, or -1 |
| `TimerRuns.ApplyKeeps` | base/timer/timer.cpp:18-120 | every operation keeps heap order and unique ids and lineages |
| `TimerRuns.RunKeeps` | base/timer/timer.cpp:18-120 | so does every sequence of operations |
| `TimerRuns.StepFollows` | base/timer/timer.cpp:56-117 | a lineage fires in a poll iff it has a due live item, once, and then only its successor is left; otherwise its items stay |
| `TimerRuns.RateBound` | base/timer/timer.cpp:37-54 | in every run the k-th firing of a repeating timer is no earlier than t0 + k*d |
| `TimerRuns.AtMostOncePerPoll` | base/timer/timer.cpp:94-117 | in every reachable state one poll fires a lineage at most once |
| `TimerRuns.CancelByFirstId` | base/timer/timer.cpp:56-64 | while the lineage is in the heap, `cancel` finds the id from `add_repeating` iff it has not fired yet |
| `TimerRuns.FirstIdIsLost` | base/timer/timer.cpp:37-117 | after one firing a repeating timer is in the heap under id 2, and id 1, which was handed out, finds nothing |
| `TimerRuns.CancelIsFinal` | base/timer/timer.cpp:56-120 | after a cancellation that found its timer, neither it nor a successor fires in any continuation; all other items and heap order are untouched |
| `TimerRuns.ClearSilences` | base/timer/timer.cpp:66-68 | in every run nothing added before a clear, nor a successor of it, fires after it; ids go on from where they were |
| `TimerRuns.RefusedChangesNothing` | base/timer/timer.cpp:18-38 | without a callback or with a delay or interval that is not positive nothing changes |
| `TimerSchedule.RenewalExists` | base/timer/timer.cpp:104-116 | every repeating timer that fires gets a successor one interval later |
| `TimerSchedule.ScheduleStep` | base/timer/timer.cpp:70-120 | an operation that does not cancel the lineage fires it iff it is a poll at or past its expiry, and the lineage is live afterwards |
| `TimerSchedule.ExactSchedule` | base/timer/timer.cpp:37-120 | in every run that does not cancel it, a repeating timer fires at exactly the polls of the reference schedule |
| `TimerSchedule.OneShotExact` | base/timer/timer.cpp:18-120 | in every run that does not cancel it, a one-shot timer fires exactly once, at the first poll at or past its expiry |
| `TimerObjects.CollectDue` | base/timer/timer.cpp:73-92 | the collecting loop computes `Drain` |
| `TimerObjects.RunFired` | base/timer/timer.cpp:94-117 | the second loop re-inserts exactly the successors and counts the ids |
| `TimerObjects.FlagFirst` | base/event/event_loop.cpp:224-233 | flags the first item with the id and reports whether there was one |
| `TimerObjects.Timer.Add` | base/timer/timer.cpp:18-35 | adds exactly a one-shot item due at now + delay under the next id, or refuses and changes nothing; keeps the heap and unique ids |
| `TimerObjects.Timer.AddRepeating` | base/timer/timer.cpp:37-54 | adds exactly a repeating item due at now + interval under the next id, or refuses and changes nothing; keeps the heap and unique ids |
| `TimerObjects.Timer.Cancel` | base/timer/timer.cpp:56-64 | flags the item, says whether the id was there, and keeps the heap and unique ids |
| `TimerObjects.Timer.Clear` | base/timer/timer.cpp:66-68 | drops all items and keeps the id counter |
| `TimerObjects.Timer.Poll` | base/timer/timer.cpp:70-120 | the two loops compute the specified poll; firings are sorted, the heap is kept, the delay is exact |
| `TimerObjects.Timer.NearestExpire` | base/timer/timer.cpp:122-129 | the expiry of the first live item in array order, or -1 |
| `TimerNearest.ArrayIsReached` | base/timer/timer.cpp:18-64 | adding timers in array order and then cancelling reaches every heap with given expiries and flags |
| `TimerNearest.NearestExpireExact` | base/timer/timer.cpp:122-129 | it is the earliest live expiry in every reachable state with given cancellation flags iff every live position lies under the first live one; a live root suffices |
| `TimerNearest.NearestExpireFails` | base/timer/timer.cpp:122-129 | timers due at 1, 3 and 2 with the first cancelled: the answer is 3 while one is due at 2 |
| `TimerObjects.EventLoop.AddTimer` | base/event/event_loop.cpp:201-222 | uninterrupted, adds exactly an item due at now + delay under a new id for any delay and interval; only an empty callback is refused |
| `TimerObjects.EventLoop.CancelTimer` | base/event/event_loop.cpp:224-233 | the same cancellation as the stand-alone timer's |
| `TimerObjects.EventLoop.ProcessTimers` | base/event/event_loop.cpp:235-279 | uninterrupted, fires the same sequence and leaves the same heap and counter as `Timer::poll` from the same state |
| `EventTimers.StepKeeps` | base/event/event_loop.cpp:201-279 | with callbacks and other threads adding and cancelling between its locked sections, every step that does not overlap a draw keeps the heap and unique ids and lineages, in the heap and outside |
| `EventTimerRuns.HeapInEveryRun` | base/event/event_loop.cpp:201-279 | heap order holds in every interleaving, also when draws overlap |
| `EventTimers.IdsDifferIff` | base/event/event_loop.cpp:205-269 | in every run all ids drawn differ iff no thread reads the counter while another is about to write it; then they are 1, 2, 3, ... |
| `EventTimers.TwoThreadsCollide` | base/event/event_loop.cpp:201-233 | a run in which two timers get id 1 and a cancellation flags only the first |
| `EventTimers.AdderMeetsRenewal` | base/event/event_loop.cpp:201-279 | a run in which one adding thread gets the id of the timer the loop is renewing |
| `EventTimers.DuplicatePossibleIff` | base/event/event_loop.cpp:201-279 | two timers with one id can be in the heap iff at least two threads, the loop's included, draw ids |
| `EventTimerRuns.UniqueInEveryRun` | base/event/event_loop.cpp:201-279 | in every run without overlapping draws the timers are a heap with unique ids, apart from those in flight |
| `EventTimerRuns.UninterruptedPassIsPoll` | base/event/event_loop.cpp:235-279 | a pass without anything in between is `poll`: the same firings and the same state |
| `EventTimerRuns.AliveIffSpared` | base/event/event_loop.cpp:224-279 | in every run without overlapping draws, with any interleaving, a repeating timer lives on iff no cancellation found it in the heap |
| `EventTimerRuns.CancelInFlight` | base/event/event_loop.cpp:224-233 | in every such run, cancelling a timer that is in flight finds nothing and changes nothing |
| `EventTimerRuns.CancelledIsNeverCollected` | base/event/event_loop.cpp:224-279 | in every such run, after a cancellation that found its timer no later pass collects it or a successor |
| `EventTimerRuns.CancelIsLost` | base/event/event_loop.cpp:224-279 | a run in which a repeating timer is cancelled during its own pass and is back in the heap afterwards |
| `EventTimerRuns.RateInEveryRun` | base/event/event_loop.cpp:201-279 | in every such run a timer with first expiry e and interval d is collected for the k-th time no earlier than e + (k - 1) * d |
| `EventTimerRuns.OncePerPass` | base/event/event_loop.cpp:239-257 | in every such run one pass collects a lineage at most once |
| `TimerObjects.EventLoop.PushTask` | base/event/event_loop.cpp:282-287 | appends to the pending tasks |
| `TimerObjects.EventLoop.ProcessTasks` | base/event/event_loop.cpp:289-303 | executes the pending batch in order and leaves exactly what was pushed meanwhile |
| `EventTasks.TasksInOrder` | base/event/event_loop.cpp:282-303 | in every interleaving executed, rest of batch and pending concatenate to the pushed sequence |
| `EventTasks.PassIsBounded` | base/event/event_loop.cpp:289-303 | a pass executes only tasks pending at its start; later ones stay for a later pass |
| `EventTasks.WholePass` | base/event/event_loop.cpp:289-303 | a pass can run all tasks pending at its start, in order |
| `PoolMemory.PointerRoundTrip` | base/memory/memory_pool.cpp:66 | a pointer stored in a block's first eight bytes is read back |
| `PoolMemory.LinkMakesChain` | base/memory/memory_pool.cpp:82-87 | linking consecutive blocks in front of a chain gives the chain of all of them |
| `MemoryPools.TakeKeeps` | base/memory/memory_pool.cpp:29-36 | taking the head hands out a cleared block, keeps the pool sound and changes no byte of any outstanding block |
| `MemoryPools.GrowKeeps` | base/memory/memory_pool.cpp:38-60 | growth hands out the first block, chains the others, and touches no outstanding block |
| `MemoryPools.GrowthSoundIff` | base/memory/memory_pool.cpp:38-60 | growth stays inside its chunk and leaves a sound pool iff a chunk has at least two blocks |
| `MemoryPools.OneBlockFails` | base/memory/memory_pool.cpp:38-60 | a sound pool with one block in a chunk that growth makes unsound |
| `MemoryPools.GiveKeeps` | base/memory/memory_pool.cpp:63-69 | returning an outstanding block prepends it and touches no other |
| `MemoryPools.BatchKeeps` | base/memory/memory_pool.cpp:74-88 | one pre-allocated chunk goes in front of the list and touches no outstanding block |
| `MemoryPoolRuns.PreAllocateKeeps` | base/memory/memory_pool.cpp:71-90 | all chunks of a pre-allocation, also when `malloc` fails midway, keep the pool sound and the old list on it |
| `MemoryPoolRuns.PreAllocateCount` | base/memory/memory_pool.cpp:71-90 | exactly the requested number of blocks is added, or blocks per chunk times the chunks granted before `malloc` first fails, if that is less |
| `MemoryPoolRuns.NextKeeps` | base/memory/memory_pool.cpp:26-90 | every operation, and every write of a client into its own block, keeps the pool sound and the blocks it spares unchanged |
| `MemoryPoolRuns.AllocateCounts` | base/memory/memory_pool.cpp:26-61 | one more block is outstanding, the head of the list or else the first of a granted chunk, and the total grows by a chunk only then |
| `MemoryPoolRuns.DeallocateCounts` | base/memory/memory_pool.cpp:63-69 | exactly the returned block is no longer outstanding and becomes the head |
| `MemoryPoolRuns.LastReturnedIsNext` | base/memory/memory_pool.cpp:26-69 | the block returned last is handed out first |
| `MemoryPoolRuns.RunIsSound` | base/memory/memory_pool.cpp:26-90 | in every run the free list is acyclic, all blocks are byte-disjoint and the counters exact |
| `MemoryPoolRuns.OutstandingIsSafe` | base/memory/memory_pool.cpp:26-90 | over any run no byte of a block that stays outstanding changes unless its owner writes it |
| `MemoryPoolRaces.PublishSoundIff` | base/memory/memory_pool.cpp:81-87 | writing the head leaves a sound pool iff the head is still the one the chunk was linked to |
| `MemoryPoolRaces.UnlockedSoundIff` | base/memory/memory_pool.cpp:71-90 | with any run of other operations between the read and the write of the head, the pool is sound iff the head is then what it was |
| `MemoryPoolRaces.HandedOutTwice` | base/memory/memory_pool.cpp:29-87 | one allocation in between: the block handed out is on the published list, and the rest of the old list is lost |
| `MemoryPoolObjects.LinkLoop` | base/memory/memory_pool.cpp:82-86 | the linking loop computes `Link` |
| `MemoryPoolObjects.MemoryPool.constructor` | base/memory/memory_pool.cpp:12-18 | items are as wide as asked and at least 8 bytes; the pool starts sound with exactly the requested or granted blocks, all free; undefined iff a chunk without blocks is granted |
| `MemoryPoolObjects.MemoryPool.PreAllocate` | base/memory/memory_pool.cpp:71-90 | the loop adds exactly the requested blocks, or what the granted chunks hold; outstanding blocks are untouched; undefined iff a chunk without blocks is granted |
| `MemoryPoolObjects.MemoryPool.Allocate` | base/memory/memory_pool.cpp:26-61 | null iff the list is empty and `malloc` fails; otherwise a new cleared block disjoint from all others, which keep their contents; the pool stays sound iff it does not grow with fewer than two blocks in a chunk, and the outcome is given for one block too |
| `MemoryPoolObjects.MemoryPool.Deallocate` | base/memory/memory_pool.cpp:63-69 | the block becomes the head, null is ignored, other blocks keep their contents |
| `MemoryPoolObjects.SizeClass` | base/memory/memory_pool.cpp:99-101 | the doubling loop ends with the least 64*2^k that is large enough, never above 2^63 |
| `MemoryPoolObjects.LeastClassIsUnique` | base/memory/memory_pool.cpp:99-101 | a request has one size class |
| `MemoryPoolObjects.LoopEndsIff` | base/memory/memory_pool.cpp:99-101 | in 64-bit arithmetic the loop ends iff the request is at most 2^63 |
| `MemoryPoolObjects.ChunkFitsIff` | base/memory/memory_pool.cpp:75 | the chunk size of a new pool does not wrap iff the request is at most 2^57 |
| `MemoryPoolObjects.MemoryPoolManager.GetPool` | base/memory/memory_pool.cpp:98-113 | the first pool of the request's class, with items of that size; an existing class adds no pool, a new one has 64 blocks to a chunk and 64 ready if `malloc` grants the chunk |
| `MemoryPoolObjects.MemoryPoolManager.Stats` | base/memory/memory_pool.cpp:124-132 | the sums over all pools; used = total - free without underflow |
| `MemoryPoolObjects.SumsCount` | base/memory/memory_pool.cpp:124-132 | the free sum counts the blocks on the lists and the total those and the outstanding ones, so used is the number outstanding |
| `ObjectPools.StepKeeps` | base/object_pool/object_pool.h:97-161 | every locked section and counter update keeps each slot in one place and both counters exact |
| `ObjectPools.Conservation` | base/object_pool/object_pool.h:97-161 | under every interleaving free, held and carried slots are disjoint and exactly 64 per chunk; the size counter is the list length; when quiet the allocation counter is the held count |
| `ObjectPools.LastInFirstOut` | base/object_pool/object_pool.h:97-131 | a slot pushed back is popped next; after a growth the 64 slots of the new chunk come first, in order |
| `ObjectPools.ReturnedIsFreed` | base/object_pool/object_pool.h:153-161 | returning an object takes exactly that one from the clients and puts its slot in front of the list |
| `ObjectPools.TwoThreadsCanMiss` | base/object_pool/object_pool.h:122-133 | with two threads there is a run in which the second pop finds nothing |
| `ObjectPools.AloneNeverMisses` | base/object_pool/object_pool.h:122-133 | with one thread there is none |
| `ObjectPools.OneThreadCanFail` | base/object_pool/object_pool.h:136-146 | with one thread and a throwing constructor there is a run that returns null |
| `ObjectPools.NullPossibleIff` | base/object_pool/object_pool.h:115-150 | `allocate` can return null iff at least two threads use the pool when no constructor throws, and iff any thread does when one may |
| `ObjectPools.NullGivesNothing` | base/object_pool/object_pool.h:132-146 | on either null return the call is over, nothing is handed out and nothing kept |
| `ObjectPools.ChunkChain` | base/object_pool/object_pool.h:124-128 | the linked slots of a chunk followed by the old list form one chain |
| `ObjectPools.LinkChunk` | base/object_pool/object_pool.h:124-127 | each slot points to the next, the last to the old head, other chunks unchanged |
| `ObjectPools.ObjectPool.PopFree` | base/object_pool/object_pool.h:97-104 | takes the head of the linked list, or null on an empty one |
| `ObjectPools.ObjectPool.PushFree` | base/object_pool/object_pool.h:107-112 | prepends the slot to the linked list |
| `ObjectPools.ObjectPool.AddChunk` | base/object_pool/object_pool.h:122-131 | prepends the 64 slots of a fresh chunk in order |
| `ObjectPoolWarmup.WarmUp` | base/object_pool/object_pool.h:170-176 | for every count, and whichever constructor throws, the loop adds one chunk to an empty list and nothing otherwise |
| `ObjectPoolWarmup.WarmUpReservesIff` | base/object_pool/object_pool.h:170-176 | the requested number is free afterwards iff it was before, or the list was empty and the count is at most 64 |
| `ObjectPoolWarmup.RoundsConstruct` | base/object_pool/object_pool.h:170-176 | the loop constructs the requested number of objects, or stops with the one that throws |
| `ThreadPools.Rebuild` | core/threadpool/thread_pool.cpp:33-41 | moving the queue through a temporary one inserts behind the leading high-priority tasks |
| `ThreadPools.TakeHigh` | core/threadpool/thread_pool.cpp:33-36 | the first moving loop splits off exactly the leading high-priority tasks |
| `ThreadPools.MoveAll` | core/threadpool/thread_pool.cpp:38-40 | the second one appends all the others in order |
| `ThreadPools.ThreadPool.AppendPriority` | core/threadpool/thread_pool.cpp:24-49 | a HIGH task goes in front of the first that is not HIGH, a NORMAL or LOW one to the end; nothing else moves |
| `ThreadPools.InsertPlace` | core/threadpool/thread_pool.cpp:31-46 | the same of the specification, in terms of the priorities |
| `ThreadPools.ThreadPool.WorkerTurn` | core/threadpool/thread_pool.cpp:54-68 | leaves iff stopped and empty, otherwise takes the front task |
| `ThreadPools.InsertAppends` | core/threadpool/thread_pool.cpp:24-49 | insertion appends to the task's class and leaves the other class as it is |
| `ThreadPools.StepKeeps` | core/threadpool/thread_pool.cpp:24-99 | every step keeps class order and accounts for every task once |
| `ThreadPools.PriorityOrder` | core/threadpool/thread_pool.cpp:24-99 | in every reachable state high-priority tasks come first; per class, taken then queued are the submissions in order until something is discarded |
| `ThreadPools.HighFirst` | core/threadpool/thread_pool.cpp:24-99 | in terms of the priorities: in every reachable state no NORMAL or LOW task is in front of a HIGH one; HIGH tasks, and all others together, are taken in order of submission until something is discarded |
| `ThreadPools.DiscardedNeverRuns` | core/threadpool/thread_pool.cpp:86-99 | no task that waits when shutdown_now empties the queue is ever executed |
| `ThreadPools.WakesIff` | core/threadpool/thread_pool.cpp:56-67 | a waiting worker can go on iff the pool is stopped or a task waits, and leaves iff it is stopped with nothing left |
| `ThreadPools.ShutdownCanComplete` | core/threadpool/thread_pool.cpp:51-84 | from every stopped state in which a worker is left, or nothing is queued, the workers alone can run everything and leave |
| `ThreadPools.ShutdownExact` | core/threadpool/thread_pool.cpp:51-84 | what the queue holds at the end are exactly the tasks submitted after the last worker left; with none, every task was executed once |
| `ThreadPools.LateTaskStays` | core/threadpool/thread_pool.cpp:51-84 | a run in which a task submitted after the only worker left stays in the queue |
| `ThreadPools.GracefulShutdown` | core/threadpool/thread_pool.cpp:24-84 | with at least one worker and no submission after stop: when all have exited, the queue is empty and every accepted task was taken and executed exactly once |
| `Sessions.StepKeeps` | business/session/session_mgr.cpp:28-129 | every operation keeps live <= peak <= total = next id - 1, and the peak rises exactly to a new live maximum |
| `Sessions.RunCounts` | business/session/session_mgr.cpp:28-60 | over every run ids are consecutive, so never reused, and the counts hold |
| `Sessions.PeakIsMaximum` | business/session/session_mgr.cpp:185-191 | the reported peak is the largest live count reached in the run |
| `Sessions.DeadlineExact` | business/session/session_mgr.cpp:170 | the 64-bit test is the deadline test iff the session is dead, its deadline fits 64 bits, or even the wrapped deadline has not passed |
| `Sessions.DeadlineWraps` | business/session/session_mgr.cpp:170 | a session that is not due and is swept |
| `Sessions.DropAllRemoves` | business/session/session_mgr.cpp:176-181 | removing the collected ids one by one removes exactly that set |
| `Sessions.InterleavedSweep` | business/session/session_mgr.cpp:164-183 | with any operations between the removals, the sweep's whole effect is to take away the sessions flagged at the scan; it returns their number, which is the number it removed iff nobody removed one of them first |
| `Sessions.HeartbeatDecides` | business/session/session_mgr.cpp:100-107 | after a heartbeat and unrelated operations the session was last heard from then, and a sweep removes it iff it is alive and that heartbeat is too old |
| `Sessions.AddDecides` | business/session/session_mgr.cpp:28-40 | a new session has the peer and connect time given and counts as heard from then: after unrelated operations a sweep removes it iff the deadline from then has passed |
| `Sessions.HeartbeatsCounted` | business/session/session_mgr.cpp:100-107 | over every run a session counts its heartbeats exactly and keeps peer and connect time |
| `Sessions.EndedForGood` | business/session/session_mgr.cpp:53-121 | a removed or kicked session never comes back, in any run, and all others stay as they were |
| `Sessions.ClosedAreKicked` | business/session/session_mgr.cpp:109-121 | over every run the sockets closed are the valid ones of the sessions kicks found, in order; nothing else closes any |
| `Sessions.DeadIsNeverSwept` | business/session/session_mgr.cpp:123-129 | a session marked dead is flagged by no later sweep and stays until removed or kicked |
| `Sessions.Scan` | business/session/session_mgr.cpp:166-174 | the scan collects exactly the flagged ids, each once |
| `Sessions.SessionMgr.AddSession` | business/session/session_mgr.cpp:28-51 | a session with its socket, address, port and times under an id that was not in use, and all counts updated |
| `Sessions.SessionMgr.RemoveSession` | business/session/session_mgr.cpp:53-60 | removes exactly that session, or nothing |
| `Sessions.SessionMgr.Heartbeat` | business/session/session_mgr.cpp:100-107 | updates time and count of exactly that session, or nothing |
| `Sessions.SessionMgr.Kick` | business/session/session_mgr.cpp:109-121 | closes a valid socket, removes the session and reports whether it existed |
| `Sessions.SessionMgr.MarkDead` | business/session/session_mgr.cpp:123-129 | clears the flag of exactly that session, or nothing |
| `Sessions.SessionMgr.CleanupTimeout` | business/session/session_mgr.cpp:164-183 | an uninterrupted sweep removes exactly the flagged sessions and returns their number |

## Left out

- `TimerLoop::thread_loop`, epoll and IOCP back ends, socket set-up, `TcpServer`, client reconnection: operating-system calls.
- Configuration, logging, monitoring, routing, the message queue, locks, the database pool: thin wrappers or foreign calls.
- `parse_header`: it reads two bytes into an uninitialised 32-bit variable, so its result depends on the host.
- `ThreadPool::append` and futures, `Task::cancel`: library behaviour; a submission is an accepted task.
- `ObjectPool::clear`, `make_pooled`, the creation and destruction callbacks: user code, and clearing drops chunks under outstanding objects; a constructor that throws is modelled.
- `MemoryPoolManager::pre_alloc`, the destructor of the memory pool, `Timer::size`, `SessionMgr::shutdown` and the session look-ups: they would only add easy members.
- The client's `write_loop` and direct calls of `send_raw` beside the writer: the first is the server's loop again, the second mixes bytes of different messages.
- Clock readings, replies of `send` and `recv`, answers of `malloc`, and the iteration order of the session map are parameters.
- Each locked section, atomic update and system call is one step; weak memory order, wake-ups of condition variables and liveness are not modelled.
- A timer callback that itself polls, and expiry times that overflow 64 bits; the `origin` field of an item is history that the code does not have.
- `std::push_heap` and `std::pop_heap` are the textbook sift-up and sift-down; the standard leaves the order of items with equal expiry open.
- Packets.DecodeFrom: a length of 1 to 5 is reported as undefined behaviour and not followed further.
- Connection.PrefixDelivery: packets whose length does not fit 32 bits, which no receiver can cut back, are not enqueued in the machine.
- MemoryPoolObjects.MemoryPool.Allocate: what happens after growth with fewer than two blocks in a chunk is not followed further, and `malloc` grants the whole chunk or nothing.
- MemoryPoolRuns.RunIsSound: operations are whole, as under the lock; pre-allocation beside others is in `MemoryPoolRaces`, one chunk at a time.
- `MemoryPoolManager::stats` iterates without the manager's lock, and the first use of the CRC table is not synchronised; both are modelled undisturbed.
- MemoryPoolObjects.MemoryPoolManager.GetPool: asks for requests of at most 2^63 bytes, because the loop does not end otherwise, and for a `malloc` that grants the whole chunk, although its size wraps above 2^57; the pools it keeps are values.
- Sessions.SessionMgr.AddSession: ids are unbounded natural numbers; a negative id is never issued, so operations on one change nothing.
