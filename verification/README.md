# A verified model of the sponge TCP/IP stack

This project models, in Dafny, the core of a user-space TCP/IP stack and proves what its two
endpoints, its reassembler, its ARP interface and its wire formats promise. `dafny verify
dfyconfig.toml` checks all of it.

## How it is organised

Each component appears up to three times.

- As *functions on values*: `ByteStreams`, `Reassembly`, `Sending`, `Receiving`, `Connections`,
  `Arp`, `Checksum`, `Wire`, `TcpOverIp`, `WrappingIntegers`. They have the branches, the edge
  cases, the constants and the integer widths of the C++ code.
- As *objects in the source's own imperative form*: `ByteStream`, `StreamReassembler`, `TCPSender`,
  `TCPReceiver`, `TCPConnection`, `NetworkInterface`, `InternetChecksum`, `NetParser`,
  `TCPOverIPv4Adapter`, and the parsing and serializing methods in `NetParsers`. Every method is
  proved to do to the object's abstract value, `Model()`, exactly what the function says.
- As *theorems* about the functions, and so about the objects.

Two loops of the source do not always end. A call that may run for ever has a result of type
`Outcome`: `Done(value)` or `Hang`. `ScanLoop` and `ArpLoop` model these two loops one iteration at
a time, and prove that they diverge exactly when the function says `Hang`. An object's method
reports this as `hung` instead of looping; what the object then holds is not specified.

Two history variables help to state things. A sender remembers all segments it ever passed to
`send_tcp_segment` (`sent`), so that `Start(sent, i)` is the absolute sequence number of segment
`i`. A packet between two connections remembers which absolute number its 32-bit acknowledgment
number stands for.

## The main results

1. *Delivery, one way* (`DeliveryResults.EndToEnd`, `EndToEndShort`). In every run of a sender, a
   network that loses, repeats and reorders, and a receiver, no call hangs, the assembled bytes are
   a prefix of the written ones, no byte is lost, the reader sees the end only after the whole
   stream, and nothing that arrives is ever truncated. For streams of at most 2^31 - 2 bytes this
   holds of every run; for longer ones of every run in which nothing arrives more than 2^31
   sequence numbers late.
2. *Delivery, both ways* (`DuplexResults.BothWays`, `BothWaysShort`). Two whole connections, with
   their handshakes, acknowledgments on data and on empty segments, retransmissions, resets,
   give-up and closing: both directions stay faithful in every run, and the run returns if and only
   if no step delivers a packet that makes the reassembler's scan circle.
3. *Where two connections fail each other* (`DuplexLimits`, `DuplexHangs`, `DuplexExample`). After
   the end of a stream the receiver counts an empty segment that stands right behind the FIN, and
   acknowledges one number too many. The exact condition is proved, and that from then on the FIN is
   never acknowledged unless its acknowledgment is already in transit. A late empty segment that
   meets stored data with its own start makes the receiver hang, again with the exact condition.
   Both happen in runs of ten steps from two new connections. A FIN that is acknowledged against a
   full buffer and then lost is never announced to the reader (`DuplexEnds`, `DuplexEndsExample`).
4. *The connection* (`ConnectionTheorems.AlwaysHealthy`, `NextOk`). Whatever a peer sends, in every
   reachable state the in-flight queue is exact, the timer discipline of section 5 of RFC 6298
   holds without 32-bit overflow, nobody with something left to send is asleep, the summary only
   moves forward, and a connection stops only by a reset or a clean close. What it does as time
   passes is exact: an expired timer queues the oldest unacknowledged segment and nothing else, so
   over every run it is retransmitted in time (`ConnectionTimes.TickSends`, `RetransmitsInTime`);
   the ninth counted expiry sends one reset; after both streams are finished, ten quiet timeouts
   close it (`ClosesInTime`); and over every run it lingers unless the peer finished first
   (`ConnectionLinger.LingersUnless`). What it sends in return is exact as well
   (`ConnectionSends.ArrivalSends`, `OwnerSends`).
5. *Reassembly* (`ReassemblyTheorems.ReassembledExactly`). The output is exactly the longest prefix
   of the stream all of whose bytes have been pushed, for all orders, repetitions and overlaps.
   Where the code breaks its promises there is an if-and-only-if over every push, with examples:
   when a call never returns and when the drain stops early (`ReassemblyDrains`), when the end
   marker is lost (`ReassemblyEnds`), when a waiting byte is counted twice (`ReassemblyCounts`), and
   when bytes beyond the room corrupt the output (`ReassemblyLimits`).
6. *ARP* (`ArpTheorems.AlwaysInOrderAndFresh`). Nothing is lost, repeated or overtaken on the way
   to a hop, and each datagram goes to the station its hop last named, under thirty seconds before.
   Every request for our address is answered, once and in order (`ArpFrames.EveryRequestAnswered`).
7. *Wire formats* (`TcpOverIp.TripKeepsSegment`). Wrapping, serializing, parsing and unwrapping
   give the segment back, and every checksum verifies. A connected adapter takes exactly the
   segments of its peer, a listening one exactly a SYN for its port (`Adapters`). `ParserLimits` says exactly what the parsers
   accept, and that no accepted segment is still accepted after a change of one byte.

## Where the code and its documentation differ

The model follows the code.

- `libsponge/stream_reassembler.hh:74-75` says that bytes beyond the capacity are silently
  discarded. A substring that overlaps the output and passes the room is counted to its full
  length (`ReassemblyLimits.PushSoundIff`, `OverlapPastRoomCorrupts`).
- `libsponge/stream_reassembler.hh:88-92` says that a byte pushed twice is counted once. Stored
  datagrams may overlap, and the count is the sum of their sizes
  (`ReassemblyCounts.CountedOnceIff`, `PushCountsOnceIff`, `OverlapCountedTwice`).
- `libsponge/stream_reassembler.hh:79` says that an end marker marks the end of the stream. A
  marker may be dropped, erased or merged away (`ReassemblyEnds.PushRetainsIff`).
- `libsponge/byte_stream.hh:9-11` says that no bytes can be written after the input has ended. The
  stream accepts them; `ConnectionTheorems.LateWriteIff` says what that does, and the runs in this
  project have an owner who does not write after the end.
- `libsponge/wrapping_integers.cc:22` promises the number closest to the checkpoint.
  `WrappingIntegers.UnwrapClosestIff` says exactly when that holds.
- `libsponge/tcp_helpers/ipv4_header.cc:12-22` and `libsponge/tcp_helpers/tcp_header.cc:9-16` list
  the headers that are refused. `libsponge/tcp_helpers/ipv4_datagram.cc:13` and
  `libsponge/tcp_helpers/tcp_segment.cc:20` ignore that verdict: a datagram of every refused kind
  can be accepted, and so can a segment whose header is too short. `ParserLimits.DatagramAcceptedIff`
  and `SegmentAcceptedIff` say exactly which are.
- `libsponge/stream_reassembler.hh:94-96` says that `empty` tells whether no substring waits. It
  tells whether a byte waits, so that it is right exactly when substrings wait and none of them
  carries a byte (`ReassemblyCounts.EmptyAgreesIff`).

## Model

| member | source | states |
|---|---|---|
| `WrappingIntegers.UnwrapWraps` | libsponge/wrapping_integers.cc:28-34 | unwrapping gives a 64-bit number that wraps back to the given one, for every checkpoint |
| `WrappingIntegers.UnwrapClosestIff` | libsponge/wrapping_integers.cc:18-34 | the documented promise, closest to the checkpoint, holds if and only if the step stays below 2^63, or is the largest backward step and its wrong turn is equally far |
| `WrappingIntegers.UnwrapTooFar` | libsponge/wrapping_integers.cc:31-34 | at a checkpoint of 2^63 the promise fails: the result is a whole turn away from a number that would do |
| `WrappingIntegers.UnwrapWrapIff` | libsponge/wrapping_integers.cc:16-34 | within 2^31 of the checkpoint, unwrapping undoes wrapping if and only if the number is below 2^63 |
| `ByteStreams.FirstInFirstOut` | libsponge/byte_stream.cc:19-63 | over any sequence of writes, reads and an end: held plus accepted bytes are, in order, the bytes given out plus those still held, and never more than the capacity is held |
| `ByteStreams.CutShortOnlyIf` | libsponge/byte_stream.cc:19-63 | a write is cut short only when the stream is then full, a read only when it is then empty |
| `ByteStreams.ByteStream.constructor` | libsponge/byte_stream.cc:17-17 | a new stream has written and read nothing |
| `ByteStreams.ByteStream.Write` | libsponge/byte_stream.cc:19-33 | the byte-by-byte loop appends exactly the longest prefix of the data that fits, and reports its length |
| `ByteStreams.ByteStream.PeekOutput` | libsponge/byte_stream.cc:36-41 | the next bytes of the history, at most as many as are held |
| `ByteStreams.ByteStream.PopOutput` | libsponge/byte_stream.cc:44-51 | the read position moves over at most what is held; the history stays |
| `ByteStreams.ByteStream.Read` | libsponge/byte_stream.cc:56-63 | gives what peeking gives and leaves what popping leaves, the zero-length case included |
| `ByteStreams.ByteStream.EndInput` | libsponge/byte_stream.cc:65-65 | the input is ended and nothing else changes |
| `ReassemblyTheorems.ScanShape` | libsponge/stream_reassembler.cc:74-149 | the scan keeps the store sorted and invents no datagram, and what it places starts where the incoming one does |
| `ReassemblyTheorems.ScanSlices` | libsponge/stream_reassembler.cc:74-170 | merging true slices of one stream gives a true slice within the same room |
| `ReassemblyTheorems.ScanCovers` | libsponge/stream_reassembler.cc:74-156 | dropping, replacing and merging neither lose nor invent a byte position |
| `ReassemblyTheorems.InsertSorted` | libsponge/stream_reassembler.cc:151-153 | the insertion and sort leave the store sorted |
| `ReassemblyTheorems.InsertMembers` | libsponge/stream_reassembler.cc:151-153 | the insertion adds the datagram and nothing else |
| `ReassemblyTheorems.MissingMiddleKeeps` | libsponge/stream_reassembler.cc:74-156 | storing a substring that lies ahead keeps the invariant: sorted, all true slices within the room, front index not below the smallest-index mark |
| `ReassemblyTheorems.AbsorbKeeps` | libsponge/stream_reassembler.cc:36-57 | writing a substring that fits keeps the output a prefix and moves the next index to the larger of itself and the end of the substring |
| `ReassemblyTheorems.PushKeeps` | libsponge/stream_reassembler.cc:23-181 | safety with arbitrary overlaps: the output is a prefix of the stream, next index equals bytes written, everything stored is a true slice, and the input ends only when the whole stream is out |
| `ReassemblyTheorems.PushDrains` | libsponge/stream_reassembler.cc:59-67 | after a completed push nothing in the store could be written, although the smallest-index mark may be stale |
| `ReassemblyTheorems.LastPushEnds` | libsponge/stream_reassembler.cc:59-72 | a push that feeds nothing back leaves no reached end unannounced |
| `ReassemblyTheorems.PushEnds` | libsponge/stream_reassembler.cc:23-72 | the same through the recursive drain, when every end marker in play fits the room |
| `ReassemblyTheorems.PushAnnounces` | libsponge/stream_reassembler.cc:69-71 | an end marker that is reached and has room is announced at once |
| `ReassemblyTheorems.PushCovers` | libsponge/stream_reassembler.cc:23-181 | a completed push adds exactly its own positions to those written or stored |
| `ReassemblyTheorems.RunKeeps` | libsponge/stream_reassembler.cc:23-181 | over whole runs the invariant holds, and covered positions are exactly the pushed ones |
| `ReassemblyTheorems.ReassembledExactly` | libsponge/stream_reassembler.cc:20-72 | over every completed run of pushes and reads the output is exactly the longest prefix all of whose bytes have been pushed |
| `ScanLoop.LoopIsScan` | libsponge/stream_reassembler.cc:77-149 | the loop with its restarts at the front reaches the verdict of a single recursive pass, and diverges if and only if that verdict is "stuck" |
| `ScanLoop.StuckIff` | libsponge/stream_reassembler.cc:134-147 | the loop never ends if and only if the first same-start datagram that is not shorter is strictly longer and nothing before it stops the walk |
| `ReassemblyLimits.PushSoundIff` | libsponge/stream_reassembler.cc:172-181 | from a good state a completed push of a true slice keeps the output sound if and only if it does not pass the room while overlapping the output or carrying the end |
| `ReassemblyLimits.OverlapPastRoomCorrupts` | libsponge/stream_reassembler.cc:172-181 | a run of four calls that delivers bytes 1, 2, 4 of the stream 1, 2, 3, 4 |
| `ReassemblyLimits.TooFarAheadIff` | libsponge/stream_reassembler.cc:26-41 | a substring ahead is dropped if and only if it starts a capacity or more beyond both the next missing byte and the first stored one; any other is kept to its last byte |
| `ReassemblyEnds.DroppedIff` | libsponge/stream_reassembler.cc:77-149 | the scan drops what comes in if and only if some stored datagram has all of it and everything stored in front gives way |
| `ReassemblyEnds.ScanMarksIff` | libsponge/stream_reassembler.cc:77-156 | storing ahead keeps an end marker if and only if: dropped, one was stored; else the newcomer has one, or one is stored that the newcomer and what it merges with do not swallow |
| `ReassemblyEnds.PushRetainsIff` | libsponge/stream_reassembler.cc:23-181 | for every completed push: exactly when the end is afterwards announced or its marker still stored, in starts and tails of the datagram and the store, through the whole drain |
| `ReassemblyEnds.MergeForgetsEnd` | libsponge/stream_reassembler.cc:120-127 | a run in which a merge loses the end marker: everything is written, nothing stored, the end not announced |
| `ReassemblyEnds.RepeatForgetsEnd` | libsponge/stream_reassembler.cc:83-85 | the same by dropping a repetition that alone carries the marker |
| `ReassemblyEnds.SuffixForgetsEnd` | libsponge/stream_reassembler.cc:92-99 | the same by dropping a marked part of a stored datagram |
| `ReassemblyEnds.ReplacementForgetsEnd` | libsponge/stream_reassembler.cc:113-119 | the same by erasing a marked datagram inside a longer one |
| `ReassemblyDrains.PushDrainedIff` | libsponge/stream_reassembler.cc:59-67 | for every completed push: something that could be written is left in the store if and only if the drain meets an empty datagram with a reached one behind it, or nothing was fed back and it was there before |
| `ReassemblyDrains.EmptySubstringBlocksDrain` | libsponge/stream_reassembler.cc:60-67 | a run in which a stored empty substring leaves the next missing byte in the store |
| `ReassemblyDrains.PushHangsIff` | libsponge/stream_reassembler.cc:23-156 | a push never returns if and only if there is room and either it lies ahead and its own scan circles, or it is written and the drain takes reached datagrams up to one, not reached, that circles |
| `ReassemblyDrains.RunReturnsIff` | libsponge/stream_reassembler.cc:23-156 | a run of reads and of pushes that fit or are empty returns if and only if no push in it is such |
| `ReassemblyDrains.InOrderPushHangs` | libsponge/stream_reassembler.cc:59-67 | a run in which an ordinary push in order never returns, in the drain |
| `ReassemblyDrains.RepeatAfterMergeHangs` | libsponge/stream_reassembler.cc:134-146 | a run in which repeating a merged substring never returns |
| `ReassemblyDrains.PushCompletes` | libsponge/stream_reassembler.cc:23-156 | whatever the bytes, when no stored datagram is longer than one before it, or than the incoming one, with the same start, the restarting scan and the recursive drain both end; the replacing case is included |
| `ReassemblyCounts.CountedOnceIff` | libsponge/stream_reassembler.hh:88-92 | the count of waiting bytes is never below the number of waiting positions, and equals it if and only if the stored datagrams are pairwise apart |
| `ReassemblyCounts.ScanApartIff` | libsponge/stream_reassembler.cc:77-149 | from a store that is apart, the scan leaves it apart from what is placed if and only if it did not break off in front of something it overlaps |
| `ReassemblyCounts.PushCountsOnceIff` | libsponge/stream_reassembler.cc:23-156 | from a state that counts once, a completed push keeps counting once if and only if it does not store ahead a datagram that starts and ends behind the front and overlaps something |
| `ReassemblyCounts.OverlapCountedTwice` | libsponge/stream_reassembler.cc:87-90 | a run of two pushes after which three bytes are waiting and four are counted |
| `ReassemblyTheorems.StoredBytesIff` | libsponge/stream_reassembler.cc:183-183 | the count of waiting bytes is positive if and only if some byte waits |
| `ReassemblyCounts.EmptyAgreesIff` | libsponge/stream_reassembler.hh:94-96 | the answer of `empty` is the documented one if and only if something is stored and none of it carries a byte |
| `ReassemblyCounts.NewSaysNotEmpty` | libsponge/stream_reassembler.cc:185-185 | a new reassembler, which stores nothing, says that it is not empty |
| `ReassemblyAligned.ScanDisjoint` | libsponge/stream_reassembler.cc:77-149 | within one family of disjoint segments a new one is stored unmerged, and a repeated one is dropped |
| `ReassemblyAligned.PushDisjoint` | libsponge/stream_reassembler.cc:23-156 | within such a family every push completes, stores only members, and stops at the end of a member |
| `ReassemblyAligned.PushReaches` | libsponge/stream_reassembler.cc:36-57 | a substring that is reached is written at least to its end |
| `ReassemblyAligned.OldPushKeepsOutput` | libsponge/stream_reassembler.cc:52-71 | repeating what is already out, or pushing ahead, changes neither the output nor its end |
| `ReassemblyAligned.NoEndWithoutMarker` | libsponge/stream_reassembler.cc:62-71 | no push ends the input without an end marker in play |
| `StreamReassemblers.StreamReassembler.constructor` | libsponge/stream_reassembler.cc:17-18 | a new reassembler holds nothing and waits for index zero |
| `StreamReassemblers.StreamReassembler.ScanStorage` | libsponge/stream_reassembler.cc:77-149 | the restarting loop over the list, erasing in place and keeping the byte count, computes the verdict of the recursive pass, and would run for ever exactly when that is stuck |
| `StreamReassemblers.StreamReassembler.Place` | libsponge/stream_reassembler.cc:151-155 | pushing to the front and sorting stably is an ordered insertion; the smallest-index mark is the front |
| `StreamReassemblers.StreamReassembler.MissingMiddleHandler` | libsponge/stream_reassembler.cc:74-156 | the handler does to the abstract reassembler what storing ahead says; the byte count stays the sum of the stored sizes |
| `StreamReassemblers.StreamReassembler.OverlapHandler` | libsponge/stream_reassembler.cc:172-181 | writes what lies beyond the counted bytes, counts all of it, and tells whether the write was cut |
| `StreamReassemblers.StreamReassembler.Accept` | libsponge/stream_reassembler.cc:36-57 | the three writing cases, exact start, overlap and repetition, are one absorption |
| `StreamReassemblers.StreamReassembler.PopFront` | libsponge/stream_reassembler.cc:63-65 | the front leaves the store and its size leaves the byte count |
| `StreamReassemblers.StreamReassembler.PushSubstring` | libsponge/stream_reassembler.cc:23-72 | the recursive method does to the abstract reassembler what a push says, and hangs exactly when it does |
| `StreamReassemblers.StreamReassembler.UnassembledBytes` | libsponge/stream_reassembler.cc:183-183 | the counter, kept up to date by every other method, is the sum of the stored sizes |
| `StreamReassemblers.StreamReassembler.Empty` | libsponge/stream_reassembler.cc:185-185 | says whether some byte waits |
| `SendingTheorems.SendKeeps` | libsponge/tcp_sender.hh:109-119 | sending the next piece of the stream keeps every segment of the history carrying exactly the bytes of its sequence numbers |
| `SendingTheorems.FillStepKeeps` | libsponge/tcp_sender.cc:62-78 | one round of the loop keeps the sender's invariant; an end of stream without FIN means that the window is used up |
| `SendingTheorems.FillLoopKeeps` | libsponge/tcp_sender.cc:61-78 | the loop stops only when the stream is drained or the window is used up, and never sends beyond it |
| `SendingTheorems.FillWindowKeeps` | libsponge/tcp_sender.cc:28-79 | filling keeps the invariant, never passes confirmed plus max(1, window), and is maximal: the FIN is out, or the window is full, or nothing is left to send |
| `SendingTheorems.TickKeeps` | libsponge/tcp_sender.cc:82-100 | a tick keeps the invariant, and sends nothing but the oldest outstanding segment, at most once; `SendingExactly.TickExactly` says exactly when |
| `SendingTheorems.FlightBound` | libsponge/tcp_sender.hh:109-135 | bytes in flight are the numbers from the oldest outstanding segment to the next one, at most 65535 + 1000; none outstanding if and only if everything is confirmed |
| `SendingTheorems.AcceptedIff` | libsponge/tcp_sender.cc:104-111 | an acknowledgment number is accepted if and only if it wraps some number between the first unconfirmed and the next one, both included |
| `SendingTheorems.FrontEndExact` | libsponge/tcp_sender.hh:121-127 | the 64-bit end of the oldest segment is recovered exactly from its 32-bit number |
| `SendingTheorems.PopAckedKeeps` | libsponge/tcp_sender.cc:116-129 | exactly the segments that are confirmed to their end are popped |
| `SendingTheorems.FillWindowNoStall` | libsponge/tcp_sender.cc:42-59 | after filling, whoever has something left to send has a segment outstanding, even at a closed window |
| `SendingTheorems.RefillKeeps` | libsponge/tcp_sender.cc:117-135 | the early return on a partial acknowledgment, and the refill otherwise, keep the invariant and let nothing stall |
| `SendingTheorems.AckReceivedKeeps` | libsponge/tcp_sender.cc:104-136 | any acknowledgment from any peer keeps the invariant, confirms exactly the number it stands for or changes nothing at all, and lets nothing stall |
| `SendingTheorems.BackoffBound` | libsponge/tcp_sender.cc:95-98 | nine doublings of a 16-bit timeout stay positive and far below 2^32 |
| `SendingTheorems.TickTimer` | libsponge/tcp_sender.cc:82-100 | timeout is initial times 2^count without overflow, elapsed time stays below it, and only an expired timer is counted |
| `SendingTheorems.FillWindowTimer` | libsponge/tcp_sender.cc:28-79 | filling keeps the timer discipline and the count of retransmissions |
| `SendingTheorems.FillKeepsClock` | libsponge/tcp_sender.hh:115-118 | filling starts a stopped timer from zero and leaves a running one alone |
| `SendingTheorems.AckReceivedTimer` | libsponge/tcp_sender.cc:116-135 | acknowledgments keep the timer discipline and never add to the count |
| `SendingExactly.TickExactly` | libsponge/tcp_sender.cc:82-100 | a tick queues the oldest unacknowledged segment again if and only if something is unacknowledged and its time has run out, and nothing else; the expiry is counted if and only if the window is open or the segment is the SYN; the elapsed time is exact |
| `SendingExactly.AckTimerExactly` | libsponge/tcp_sender.cc:116-135 | an acknowledgment that frees a segment restarts the timer with its initial timeout and no count; any other leaves the timer alone |
| `SendingExactly.AckSendsExactly` | libsponge/tcp_sender.cc:104-136 | an acknowledgment sends more only if it confirms everything while something was unconfirmed, and then all the window allows |
| `SendingExactly.FillSized` | libsponge/tcp_sender.cc:61-78 | every segment sent after the SYN carries as many bytes as are written, as the window has left, or 1000, whichever is least; it carries the FIN if and only if these are the last bytes of an ended stream and a number is left for it |
| `TcpSenders.TCPSender.constructor` | libsponge/tcp_sender.cc:20-24 | a new sender has sent nothing |
| `TcpSenders.TCPSender.SendTcpSegment` | libsponge/tcp_sender.hh:109-119 | stamps the segment, queues it twice, and counts its length both ways; bytes in flight stays the sum of the outstanding lengths |
| `TcpSenders.TCPSender.FillRound` | libsponge/tcp_sender.cc:63-77 | one round of the loop does one filling step and reports how many numbers it used |
| `TcpSenders.TCPSender.FillWindow` | libsponge/tcp_sender.cc:28-79 | the method with its loop fills the abstract sender's window |
| `TcpSenders.TCPSender.Tick` | libsponge/tcp_sender.cc:82-100 | 32-bit timeout and 16-bit counter arithmetic included, the method ticks the abstract sender; `SendingExactly.TickExactly` says what that sends and counts |
| `TcpSenders.TCPSender.PopConfirmed` | libsponge/tcp_sender.cc:116-129 | the popping loop pops what the recursive definition pops, and tells whether it popped |
| `TcpSenders.TCPSender.AckReceived` | libsponge/tcp_sender.cc:104-136 | the method takes the acknowledgment for the abstract sender |
| `TcpSenders.TCPSender.SendEmptySegment` | libsponge/tcp_sender.cc:140-144 | queues one segment at the next number that is neither counted nor outstanding |
| `TcpReceivers.TCPReceiver.constructor` | libsponge/tcp_receiver.hh:17-31 | a new receiver listens and has counted nothing |
| `TcpReceivers.TCPReceiver.SegmentReceived` | libsponge/tcp_receiver.cc:13-62 | the method does to the abstract receiver what a segment does, and hangs exactly when the reassembler does |
| `TcpReceivers.TCPReceiver.WindowSize` | libsponge/tcp_receiver.cc:72-72 | the room left in the output |
| `DeliveryTheorems.PiecesDisjoint` | libsponge/tcp_sender.cc:61-78 | the segments a sender makes are a disjoint family, so the reassembler never merges and never hangs on them |
| `DeliveryTheorems.NumberBelowNext` | libsponge/tcp_receiver.cc:45-61 | the receiver has counted no more than was sent; it waits for the byte after those assembled, or has counted the FIN |
| `DeliveryTheorems.ArrivesWithRoom` | libsponge/stream_reassembler.cc:25-41 | whatever arrives fits the room to its end, with its FIN, or meets a full buffer |
| `DeliveryTheorems.PieceDropped` | libsponge/stream_reassembler.cc:26-29 | a segment that meets a full buffer is dropped whole, but a bare FIN at the awaited number is counted |
| `DeliveryTheorems.PieceAside` | libsponge/tcp_receiver.cc:43-48 | a segment ahead of or behind the awaited number moves no number |
| `DeliveryTheorems.PieceAwaited` | libsponge/tcp_receiver.cc:43-61 | at the awaited segment the number follows the output to the start of some segment, and a FIN ends the stream |
| `DeliveryTheorems.SynNumberIgnored` | libsponge/tcp_receiver.cc:34-39 | while nothing but the SYN is counted, whatever stands at its number is ignored |
| `DeliveryTheorems.DeliverKeeps` | libsponge/tcp_receiver.cc:13-62 | any segment ever sent may arrive at any time, any number of times; the call returns and receiver and sender stay in agreement |
| `DeliveryTheorems.NewSegmentFits` | libsponge/tcp_sender.cc:42-78 | every segment newly sent fits the receiver's room, or is a one-number probe of a window the receiver has reached |
| `DeliveryTheorems.FlowGrows` | libsponge/tcp_sender.cc:42-78 | flow control holds of the whole history whenever the sender goes on within the granted window, stale grants included |
| `DeliveryTheorems.NextKeeps` | libsponge/tcp_sender.cc:28-136 | every step of the one-way protocol returns and keeps both ends in agreement |
| `DeliveryTheorems.NextAdvances` | libsponge/tcp_receiver.cc:45-72 | in every step the counted number, the confirmed number and the right edge of the window do not move left |
| `DeliveryTheorems.RunAdvances` | libsponge/tcp_receiver.cc:45-72 | over every run from any state in agreement they do not move left either |
| `DeliveryResults.ByteAccounted` | libsponge/tcp_sender.cc:104-136 | every written byte is assembled, in an outstanding segment, or still unsent |
| `DeliveryResults.AgreeIsSafe` | libsponge/tcp_receiver.cc:45-72 | agreement implies everything the ends rely on, among it that number plus window is the right edge of the room until the FIN is counted |
| `DeliveryResults.EndToEnd` | libsponge/tcp_sender.cc:28-136 | safety of every timely run of sender, lossy network and receiver: prefix, nothing lost, whole stream once confirmed, end only at the end, no truncation, no hang |
| `DeliveryResults.EndToEndShort` | libsponge/tcp_receiver.cc:13-72 | the same of every run whatsoever for streams of at most 2^31 - 2 bytes |
| `DeliveryResults.FinEndsIff` | libsponge/tcp_receiver.cc:43-61 | the awaited FIN is always counted, and ends the reader's stream if and only if the buffer was not full |
| `DeliveryExample.FinCountedWithoutEnd` | libsponge/tcp_receiver.cc:59-61 | a run at whose end everything is acknowledged through the FIN and the reader has not been told of the end |
| `ConnectionTheorems.SummaryMeans` | libsponge/tcp_helpers/tcp_state.cc:94-110 | the sender's summary, computed from counters, is what the history says: nothing sent, SYN outstanding, FIN not sent, FIN outstanding, done |
| `ConnectionTheorems.SummaryForward` | libsponge/tcp_helpers/tcp_state.cc:94-110 | a sender that goes on is summarized by the same or a later state, and an error stays |
| `ConnectionTheorems.ReplySender` | libsponge/tcp_connection.cc:31-47 | whatever way the reply takes, the sender ends up acknowledged, and filled if the segment occupied numbers |
| `ConnectionTheorems.ReceiveOk` | libsponge/tcp_connection.cc:15-48 | any segment from any peer keeps the invariant and moves the summary forward; a reset and only a reset changes the activity |
| `ConnectionTheorems.TickGivesUp` | libsponge/tcp_connection.cc:61-81 | on the ninth counted retransmission exactly one reset is queued and the connection is inactive; the closing check of that tick cannot undo it |
| `ConnectionTheorems.TickCloses` | libsponge/tcp_connection.cc:78-80 | otherwise a tick leaves the connection inactive if and only if the peer's stream has ended with nothing stored, everything through our FIN is confirmed, and lingering is not needed or ten timeouts have passed |
| `ConnectionTheorems.NextOk` | libsponge/tcp_connection.cc:15-107 | every event keeps the invariant, moves the summary only forward, and stops the connection only by a reset or a clean close |
| `ConnectionTheorems.RunOk` | libsponge/tcp_connection.cc:15-107 | the same over whole runs: invariant, summary forward, and the first time the connection is inactive it is so by a reset or a clean close |
| `ConnectionTheorems.AlwaysHealthy` | libsponge/tcp_sender.cc:28-136 | in every reachable state, whatever the peer sends: contiguous queue with exact 32-bit numbers whose front contains the first unconfirmed number, exact flight, timer runs iff something is outstanding, exact back-off, no stall, no give-up missed; and the connection stops only by a reset or a clean close |
| `ConnectionTheorems.LateWriteIff` | libsponge/tcp_connection.cc:50-58 | a write moves the summary backwards if and only if the FIN is already in it and a byte is accepted |
| `DuplexExample.LateWriteFallsBack` | libsponge/tcp_connection.cc:50-58 | a run of a new connection to FIN_SENT, and a write after it that is accepted and takes the summary back to SYN_ACKED |
| `ConnectionReplies.AlwaysAnswers` | libsponge/tcp_connection.cc:25-47 | whatever occupies numbers is answered at once, and every reply carries the acknowledgment and window the receiver has after taking the segment |
| `ConnectionReplies.NoEmptyEcho` | libsponge/tcp_connection.cc:31-47 | an empty segment is answered only with new data, never with an empty segment |
| `ConnectionTimes.TickSends` | libsponge/tcp_connection.cc:61-81 | a tick of an active connection does exactly one of three things: the ninth counted expiry replaces the queue by one reset at the next number; any other expiry adds one copy of the oldest unacknowledged segment, with the receiver's present acknowledgment and window; no expiry adds nothing |
| `ConnectionTimes.EventSameTimer` | libsponge/tcp_connection.cc:15-107 | no step of an active connection slows the timer down, unless it expires or the oldest segment is acknowledged |
| `ConnectionTimes.RetransmitsInTime` | libsponge/tcp_connection.cc:61-81 | over every run that stays active without the oldest segment being acknowledged: once the time left on the timer has passed, a copy of that segment has been queued |
| `ConnectionTimes.FinishedTick` | libsponge/tcp_connection.cc:78-80 | when both streams are finished, a tick leaves the connection inactive if and only if it need not linger or ten timeouts have passed since the last arrival, and both stay finished |
| `ConnectionTimes.ClosesInTime` | libsponge/tcp_connection.cc:61-81 | over every run without arrivals after both streams are finished: ten timeouts leave the connection inactive |
| `ConnectionTimes.TimeSinceArrival` | libsponge/tcp_connection.cc:15-16 | an arrival starts the time since the last arrival anew, and only ticks add to it |
| `ConnectionSends.OwnerSends` | libsponge/tcp_connection.cc:50-107 | connecting, writing and ending leave the window full or nothing to send, and queue one copy of every new segment, in order, and nothing else; the first is the SYN |
| `ConnectionSends.ArrivalSends` | libsponge/tcp_connection.cc:25-47 | an arrival queues one copy of every new segment, in order; after one that occupies numbers the window is full or nothing is left to send; one bare acknowledgment is added exactly if it occupies numbers and nothing is sent after its own acknowledgment is taken |
| `ConnectionLinger.EventLinger` | libsponge/tcp_connection.cc:27-29 | a step ends lingering if and only if a segment that is not a reset arrives and leaves the peer's stream ended with nothing stored while our own is not yet ended and read to its end |
| `ConnectionLinger.LingersUnless` | libsponge/tcp_connection.cc:25-29 | over every run a connection has given up lingering if and only if at some arrival the peer had finished first |
| `ConnectionLinger.NewLingersUnless` | libsponge/tcp_connection.hh:19-25 | the same for every run of a new connection: it lingers unless the peer finished first |
| `ConnectionLinger.FinishedFirstLingers` | libsponge/tcp_connection.cc:27-29 | a side that has finished its own stream while it lingers goes on lingering whatever arrives |
| `TcpConnections.TCPConnection.constructor` | libsponge/tcp_connection.hh:11-25 | a new connection is active, lingers, and has a new sender and receiver |
| `TcpConnections.TCPConnection.InboundEnded` | libsponge/tcp_connection.hh:45-47 | the peer's stream has ended and nothing is stored |
| `TcpConnections.TCPConnection.OutboundEnded` | libsponge/tcp_connection.hh:49-52 | everything including the FIN is sent and nothing is in flight |
| `TcpConnections.TCPConnection.SendSegmentsOut` | libsponge/tcp_connection.cc:83-96 | the draining loop moves all queued segments over in order, each with the receiver's fields, and tells whether there were any |
| `TcpConnections.TCPConnection.Connect` | libsponge/tcp_connection.cc:104-107 | fills the window and sends |
| `TcpConnections.TCPConnection.Write` | libsponge/tcp_connection.cc:50-58 | writes what fits, fills and sends, and reports how many bytes were accepted |
| `TcpConnections.TCPConnection.EndInputStream` | libsponge/tcp_connection.cc:98-102 | ends the input, fills and sends |
| `TcpConnections.TCPConnection.SetErrors` | libsponge/tcp_connection.cc:17-23 | both streams are in error and the connection is inactive |
| `TcpConnections.TCPConnection.ReplyTo` | libsponge/tcp_connection.cc:27-47 | decides on lingering, takes the acknowledgment, and answers, in this order; `ConnectionLinger` and `ConnectionSends` say what comes of each |
| `TcpConnections.TCPConnection.AnswerTo` | libsponge/tcp_connection.cc:39-47 | answers with data, or with an empty segment if there is none |
| `TcpConnections.TCPConnection.SegmentReceived` | libsponge/tcp_connection.cc:15-48 | the method does to the abstract connection what a segment does, and hangs exactly when the receiver does; `ConnectionSends.ArrivalSends` says what it sends |
| `TcpConnections.TCPConnection.QueueReset` | libsponge/tcp_connection.cc:67-75 | drops the queue, queues a reset at the next number, and takes it as received |
| `TcpConnections.TCPConnection.Tick` | libsponge/tcp_connection.cc:61-81 | the method ticks the abstract connection: retransmission and give-up as `ConnectionTimes.TickSends` says, closing as `ConnectionTheorems.TickCloses` says |
| `DuplexTheorems.PushMarks` | libsponge/stream_reassembler.cc:62-71 | the input ends, and end markers are stored, only if one was in play before |
| `DuplexTheorems.PieceLinks` | libsponge/tcp_receiver.cc:13-62 | a timely segment of the peer's history keeps the receiver linked to the peer's sender, whatever empty segments it has stored before |
| `DuplexTheorems.EmptyLinks` | libsponge/tcp_receiver.cc:41-61 | so does a timely empty segment, which the receiver treats as data |
| `DuplexTheorems.HalfAck` | libsponge/tcp_sender.cc:104-136 | a true acknowledgment keeps sender and peer's receiver linked and within the granted window |
| `DuplexTheorems.MidSend` | libsponge/tcp_connection.cc:83-96 | every segment moved out is known to the history and carries what the receiver has now |
| `DuplexTheorems.MidAnswer` | libsponge/tcp_connection.cc:39-47 | answering keeps the connection in agreement with its peer |
| `DuplexTheorems.MidReceive` | libsponge/tcp_connection.cc:15-48 | a timely packet of the peer, reset or not, keeps the connection in agreement with its peer and takes nothing back |
| `DuplexSteps.KeptTick` | libsponge/tcp_connection.cc:61-81 | a tick, with retransmission, give-up and closing, keeps it too |
| `DuplexSteps.KeptLocal` | libsponge/tcp_connection.cc:50-107 | every call of the owner returns and keeps it |
| `DuplexSteps.ActKeeps` | libsponge/tcp_connection.cc:15-107 | one move of one side keeps both sides and everything in transit in agreement |
| `DuplexSteps.HalfIsFaithful` | libsponge/tcp_sender.cc:104-136 | a linked direction is faithful: prefix, nothing lost, whole stream once confirmed through the FIN, end only at the end, nothing truncated on arrival |
| `DuplexHangs.ReceivedHangsIff` | libsponge/tcp_receiver.cc:13-62 | a receiver's call never returns if and only if the segment gets past the SYN tests and the push it causes does not return |
| `DuplexHangs.EmptyHangsIff` | libsponge/tcp_receiver.cc:41-43 | on a timely empty segment the call never returns if and only if there is room and the segment's number is the start, beyond the next missing byte, of a stored datagram with bytes, and everything stored in front ends right there |
| `DuplexHangs.PacketHangsIff` | libsponge/tcp_connection.cc:15-48 | the same for a whole connection and any timely packet of its peer; a reset always returns |
| `DuplexHangs.RunReturnsIff` | libsponge/tcp_connection.cc:15-107 | a timely run of two connections returns if and only if no step delivers such a packet |
| `DuplexResults.BothWays` | libsponge/tcp_connection.cc:15-107 | every timely run of two connections returns exactly under that condition, and both directions are faithful wherever it has come to |
| `DuplexResults.BothWaysShort` | libsponge/tcp_connection.cc:15-107 | the same of every run whatsoever for streams of at most 2^31 - 3 bytes each way |
| `DuplexLimits.CountsPastEndIff` | libsponge/tcp_receiver.cc:45-61 | an empty segment moves the receiver past what was sent if and only if the stream has ended and the segment stands right behind the counted FIN |
| `DuplexLimits.PastNextRefused` | libsponge/tcp_sender.cc:105-111 | an acknowledgment past what was sent changes nothing |
| `DuplexLimits.NeverAcknowledged` | libsponge/tcp_sender.cc:104-111 | once the receiver has counted past the FIN, and unless an acknowledgment of the FIN is already in transit, the FIN is unacknowledged after every continuation |
| `DuplexLimits.OldAnswerHeard` | libsponge/tcp_sender.cc:104-136 | an acknowledgment of the FIN that is in transit confirms it when it arrives in time |
| `DuplexLimits.UnheardReached` | libsponge/tcp_receiver.cc:50-61 | two new connections come to that state in ten steps: data and FIN cross, one acknowledgment is lost |
| `DuplexLimits.FinNeverAcknowledged` | libsponge/tcp_receiver.cc:50-61 | however that run goes on, with at most 2^31 - 4 more bytes each way, the FIN is not acknowledged |
| `DuplexExample.LateEmptySegmentHangs` | libsponge/stream_reassembler.cc:134-147 | a run of ten steps from two new connections whose last call never returns |
| `DuplexEnds.NeverTold` | libsponge/tcp_receiver.cc:59-61 | once the writer's FIN is acknowledged and no copy of it is in transit or stored, a reader that has not been told of the end is not told after any continuation, and its side never closes cleanly |
| `DuplexEndsExample.UntoldReached` | libsponge/stream_reassembler.cc:26-29 | two new connections come to that state in eleven steps, through a one-byte buffer |
| `DuplexEndsExample.EndNeverTold` | libsponge/stream_reassembler.cc:26-29 | however that run goes on, with at most 2^31 - 4 more bytes each way, everything is acknowledged and the reader is not told |
| `ArpTheorems.SubmitConserves` | libsponge/network_interface.cc:32-56 | a submitted datagram joins the end of its hop's line, emitted or waiting |
| `ArpTheorems.LearnConserves` | libsponge/network_interface.cc:102-110 | on learning an address the hop's waiting datagrams are emitted in the order of submission, the others stay |
| `ArpTheorems.HearFrames` | libsponge/network_interface.cc:84-111 | the IPv4 frames pushed on a valid ARP message are exactly the waiting datagrams of its sender, addressed to it |
| `ArpTheorems.LearnTable` | libsponge/network_interface.cc:99-100 | after learning, every entry is the last message heard with its exact remaining time |
| `ArpTheorems.TickTable` | libsponge/network_interface.cc:118-127 | after a tick, an address is known if and only if it was last heard of under thirty seconds ago, with exactly the remaining time |
| `ArpTheorems.TickQueues` | libsponge/network_interface.cc:129-146 | a tick that returns leaves every request timer above zero and at most five seconds |
| `ArpTheorems.TickHangsIff` | libsponge/network_interface.cc:129-146 | on a reachable interface a tick hangs if and only if five seconds or more have passed and a request is out |
| `ArpTheorems.NextKeeps` | libsponge/network_interface.cc:32-146 | every step that returns keeps the invariant |
| `ArpTheorems.AlwaysInOrderAndFresh` | libsponge/network_interface.cc:32-146 | in every run that returns: submitted is emitted then waiting, per hop and in order; pending hops are exactly those waited for and unknown; each datagram went to the station last named, under thirty seconds before |
| `ArpTheorems.RunReturns` | libsponge/network_interface.cc:117-146 | with ticks under five seconds every run returns |
| `ArpTheorems.RunReturnsIff` | libsponge/network_interface.cc:117-146 | a run returns if and only if no step lets five seconds or more pass while a request is out |
| `ArpTheorems.FiveSecondsHang` | libsponge/network_interface.cc:129-146 | one datagram for an unknown hop and one tick of five seconds never return |
| `ArpFrames.AnswersExactly` | libsponge/network_interface.cc:73-97 | a received frame makes the interface push exactly one ARP frame, a reply to the asker with our two addresses, if it is for us or for everybody and holds a well-formed request for our address; otherwise none |
| `ArpFrames.EveryRequestAnswered` | libsponge/network_interface.cc:84-97 | over every run that returns, the replies sent are one for each such request received, in order |
| `ArpFrames.HandsUpIff` | libsponge/network_interface.cc:60-71 | a datagram is handed up if and only if it came whole in an IPv4 frame for us or for everybody |
| `ArpFrames.SubmitSays` | libsponge/network_interface.cc:32-56 | a datagram for a known hop goes to its station; one for an unknown hop makes the interface broadcast a request for that hop, unless one is out |
| `ArpFrames.TickSays` | libsponge/network_interface.cc:129-146 | a tick that returns broadcasts one request for each hop whose time has run out, and for no other, in ascending order |
| `ArpLoop.LoopIsTick` | libsponge/network_interface.cc:129-146 | the loop that stays on a repeated request reaches what the tick function says, or diverges exactly when it hangs |
| `ArpLoop.AscendingIs` | libsponge/network_interface.hh:54-54 | the map is walked over each of its keys once, in ascending order |
| `ArpLoop.ExpiredIs` | libsponge/network_interface.cc:130-141 | the hops asked again are exactly the expired ones, each once |
| `NetworkInterfaces.NetworkInterface.constructor` | libsponge/network_interface.hh:59-60 | a new interface knows and waits for nothing |
| `NetworkInterfaces.NetworkInterface.SendDatagram` | libsponge/network_interface.cc:32-56 | sends to a known hop; otherwise waits, asking only if not asked already |
| `NetworkInterfaces.NetworkInterface.Flush` | libsponge/network_interface.cc:102-109 | the erasing loop sends the hop's datagrams in order and keeps the others in order |
| `NetworkInterfaces.NetworkInterface.RecvFrame` | libsponge/network_interface.cc:59-114 | the method does to the abstract interface what a frame does; `ArpFrames.AnswersExactly` and `HandsUpIff` say what it answers and hands up |
| `NetworkInterfaces.NetworkInterface.AgeTable` | libsponge/network_interface.cc:118-127 | the loop ages every entry once and erases the expired ones |
| `NetworkInterfaces.NetworkInterface.AgePending` | libsponge/network_interface.cc:129-146 | the loop, when it ends, has aged every timer and repeated each expired request once, and would not end exactly when the tick function hangs |
| `NetworkInterfaces.NetworkInterface.Tick` | libsponge/network_interface.cc:117-146 | both loops together tick the abstract interface |
| `Checksum.SumConcat` | libsponge/util/util.cc:89-98 | splitting the input across calls makes no difference, at odd places too |
| `Checksum.FoldKeeps` | libsponge/util/util.cc:103-105 | folding keeps the value modulo 65535, fits 16 bits, and only zero folds to zero |
| `Checksum.VerifiesIff` | libsponge/util/util.cc:100-108 | a sum verifies if and only if it is a positive multiple of 65535 |
| `Checksum.FilledInVerifies` | libsponge/util/util.cc:81-83 | adding the checksum of a sum to it makes it verify |
| `Checksum.SumFilled` | libsponge/tcp_helpers/tcp_segment.cc:30-45 | filling a zero word at an even place adds exactly that word to the sum |
| `NetParsers.InternetChecksum.Add` | libsponge/util/util.cc:89-98 | the byte loop adds the big-endian words of the data to the sum modulo 2^32 and keeps track of the parity |
| `NetParsers.InternetChecksum.Value` | libsponge/util/util.cc:100-108 | the folding loop computes the complement of the folded sum |
| `NetParsers.NetParser.ParseInt` | libsponge/util/parser.cc:26-43 | the shifting loop reads a big-endian number and consumes it, or reads zero and consumes nothing once there is an error |
| `NetParsers.NetParser.RemovePrefix` | libsponge/util/parser.cc:45-51 | consumes a prefix, or nothing once there is an error |
| `NetParsers.NetParser.U8` | libsponge/util/parser.cc:66-66 | reads the next byte of the original buffer, or zero past its end |
| `NetParsers.NetParser.U16` | libsponge/util/parser.cc:64-64 | reads the next two bytes of the original buffer, or zero where they run out |
| `NetParsers.NetParser.U32` | libsponge/util/parser.cc:62-62 | reads the next four bytes of the original buffer, or zero where they run out |
| `NetParsers.UnparseInt` | libsponge/util/parser.cc:53-60 | the shifting loop appends the bytes of the number, most significant first |
| `NetParsers.ReadTcpFields` | libsponge/tcp_helpers/tcp_header.cc:18-34 | reads each field at the place section 3.1 of RFC 793 gives it; from the first one that is cut short on, all are zero |
| `NetParsers.ParseTcpHeader` | libsponge/tcp_helpers/tcp_header.cc:17-48 | header, verdict and parser state for every buffer: options are skipped, and short packets and short headers are told apart as the source does |
| `NetParsers.SerializeTcpHeader` | libsponge/tcp_helpers/tcp_header.cc:51-78 | writes the fixed part and pads it to the data offset, and refuses a header that is too short |
| `NetParsers.ParseTcpSegment` | libsponge/tcp_helpers/tcp_segment.cc:12-23 | rejects a bad checksum over pseudo-header and segment; the header parser's verdict does not count |
| `NetParsers.SerializeTcpSegment` | libsponge/tcp_helpers/tcp_segment.cc:30-45 | the checksum taken in two portions over a zeroed field is that of the whole |
| `NetParsers.ReadIPv4Fields` | libsponge/tcp_helpers/ipv4_header.cc:31-47 | reads the fields at the places section 3.1 of RFC 791 gives them |
| `NetParsers.ParseIPv4Header` | libsponge/tcp_helpers/ipv4_header.cc:23-75 | gives the verdict of the checks in their order, and consumes the header only as far as they got |
| `NetParsers.WriteIPv4Fields` | libsponge/tcp_helpers/ipv4_header.cc:90-105 | writes the fields in the order of section 3.1 of RFC 791 |
| `NetParsers.SerializeIPv4Header` | libsponge/tcp_helpers/ipv4_header.cc:78-110 | writes and pads the header, and refuses a wrong version or a short header |
| `NetParsers.ParseIPv4Datagram` | libsponge/tcp_helpers/ipv4_datagram.cc:11-21 | accepts exactly by payload length; the header parser's verdict does not count |
| `NetParsers.SerializeIPv4Datagram` | libsponge/tcp_helpers/ipv4_datagram.cc:23-41 | fills in the header checksum, and refuses a payload of the wrong size |
| `Wire.TcpReadBack` | libsponge/tcp_helpers/tcp_header.cc:17-78 | reading what was written gives every header field and flag back, whatever follows |
| `Wire.IPv4ReadBack` | libsponge/tcp_helpers/ipv4_header.cc:31-110 | the same for the IPv4 header, with its packed version, flags and offset |
| `Wire.TcpLayoutSpelled` | libsponge/tcp_helpers/tcp_header.cc:17-48 | each field is read from its own bytes and bits of the header, by byte index, most significant byte first |
| `Wire.TcpFixedSpells` | libsponge/tcp_helpers/tcp_header.cc:51-78 | each field is written to those bytes and bits, and the reserved bits are clear |
| `Wire.IPv4LayoutSpelled` | libsponge/tcp_helpers/ipv4_header.cc:31-47 | the same for what is read of an IPv4 header |
| `Wire.IPv4FixedSpells` | libsponge/tcp_helpers/ipv4_header.cc:90-105 | the same for what is written of it |
| `TcpOverIp.NoOverflow` | libsponge/util/util.cc:89-98 | the 32-bit sum of a datagram's worth of bytes and a pseudo-header does not overflow |
| `TcpOverIp.PseudoSumIs` | libsponge/tcp_helpers/ipv4_header.cc:125-131 | the number computed for the pseudo-header is the checksum sum over its twelve bytes: both addresses, a zero, the protocol, and the length of the payload |
| `TcpOverIp.SegmentRoundTrip` | libsponge/tcp_helpers/tcp_segment.cc:12-45 | parsing a serialized segment verifies and gives it back with its checksum filled in |
| `TcpOverIp.DatagramRoundTrip` | libsponge/tcp_helpers/ipv4_datagram.cc:11-41 | a serialized datagram passes every header check and parses back with its checksum filled in |
| `ParserLimits.DatagramAcceptedIff` | libsponge/tcp_helpers/ipv4_datagram.cc:11-21 | a datagram is accepted if and only if its header passes or fails only by its checksum, or its claimed payload length is what follows the first twenty bytes |
| `ParserLimits.AnyChecksumAccepted` | libsponge/tcp_helpers/ipv4_header.cc:68-72 | the header parser finds every checksum that is off by no multiple of 65535, and the datagram is accepted with any |
| `ParserLimits.WrongHeaderAccepted` | libsponge/tcp_helpers/ipv4_header.cc:49-60 | for each of the four other verdicts, datagrams that get it and are accepted |
| `ParserLimits.RejectedHeadersAccepted` | libsponge/tcp_helpers/ipv4_datagram.cc:11-21 | five packets, one for each verdict, all accepted |
| `ParserLimits.SegmentAcceptedIff` | libsponge/tcp_helpers/tcp_segment.cc:12-23 | a segment is accepted if and only if its checksum verifies, it has twenty bytes, and the header parser has no objection or only that the header is too short |
| `ParserLimits.ShortHeaderAccepted` | libsponge/tcp_helpers/tcp_header.cc:36-38 | every segment with a data offset below five and a filled-in checksum gets that verdict and is accepted |
| `ParserLimits.OneByteFound` | libsponge/util/util.cc:89-108 | changing one byte of bytes that verify makes them fail |
| `ParserLimits.SegmentErrorFound` | libsponge/tcp_helpers/tcp_segment.cc:12-17 | no accepted segment is accepted after a change of one byte |
| `ParserLimits.HeaderErrorFound` | libsponge/tcp_helpers/ipv4_header.cc:49-74 | no header that passes still passes after a change of one byte that leaves its length alone |
| `ParserLimits.LongerHeaderNotFound` | libsponge/tcp_helpers/ipv4_header.cc:68-72 | headers that pass and still do after a change of their length |
| `TcpOverIp.TripKeepsSegment` | libsponge/tcp_helpers/tcp_over_ip.cc:26-90 | wrapped, serialized, parsed and unwrapped under mirrored addresses, a segment keeps its header fields and payload |
| `TcpOverIp.SynOpensListener` | libsponge/tcp_helpers/tcp_over_ip.cc:54-63 | a listening adapter that a SYN reaches is afterwards the mirror image of its peer |
| `Adapters.WrapSays` | libsponge/tcp_helpers/tcp_over_ip.cc:75-90 | a wrapped datagram has version 4, a header of five words, its own total length, no fragmentation, 128 hops to live, protocol 6 and the addresses of the adapter |
| `Adapters.TakesExactlyPeer` | libsponge/tcp_helpers/tcp_over_ip.cc:26-71 | a connected adapter takes a segment if and only if both addresses and both ports are those of its peer and its own, and it stays as it is |
| `Adapters.ListensExactly` | libsponge/tcp_helpers/tcp_over_ip.cc:54-63 | a listening adapter takes a segment if and only if it is a SYN for its port without RST, from anybody, and is then connected to its sender; otherwise it stays as it is |
| `Adapters.RefusesOthers` | libsponge/tcp_helpers/tcp_over_ip.cc:38-46 | a datagram of another protocol, or one whose payload does not parse, is refused by every adapter |
| `TcpOverIpAdapters.TCPOverIPv4Adapter.WrapTcpInIp` | libsponge/tcp_helpers/tcp_over_ip.cc:75-90 | addresses the segment and wraps it, and refuses a header that cannot be serialized |
| `TcpOverIpAdapters.TCPOverIPv4Adapter.UnwrapTcpInIp` | libsponge/tcp_helpers/tcp_over_ip.cc:26-71 | the method does to the abstract adapter what a datagram does; `Adapters.TakesExactlyPeer`, `ListensExactly` and `RefusesOthers` say which segments it takes |

## Left out

- Routing: `libsponge/router.cc` holds only unimplemented stubs.
- Sockets, file descriptors, the event loop, TUN/TAP, the UDP and lossy adapters, and the threads of `TCPSpongeSocket`: operating-system I/O; the network of the protocol models stands for loss, repetition and reordering. The owner of a connection ticks it only while it is active, as `libsponge/tcp_helpers/tcp_sponge_socket.cc:33-35` does.
- `Address` and DNS: addresses and ports are plain numbers.
- Applications, scripts, tests, `to_string`, summaries for display, hexdump, debug output.
- Random initial sequence numbers: the number is a parameter.
- Ethernet and ARP byte codecs and `Buffer` reference counting: frames and ARP messages are datatypes, buffers are byte sequences. The parse of an IPv4 frame's payload in `recv_frame` is a given outcome, and the exceptions of `serialize` inside `send_datagram` are not modelled.
- The destructor of `TCPConnection`, which queues a reset that nobody can read any more.
- `TCPState` beyond the sender's summary: the receiver's summary and the comparison of states.
- The branch of `missing_middle_handler` at `libsponge/stream_reassembler.cc:101-111`, which the test at lines 87-90 makes unreachable.
- Wrap-around of 64-bit counters: sequence numbers, times and byte counts are unbounded; the results that need it ask for streams below 2^63. Modelled exactly: 32-bit sequence numbers, timeout and checksum, 16-bit windows, retransmission counts, lengths.
- Liveness under fairness: the no-stall invariant takes its place.
- ReassemblyTheorems.PushEnds: speaks of markers that are stored or incoming and have room; `ReassemblyEnds.PushRetainsIff` says exactly which markers survive.
