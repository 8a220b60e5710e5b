# UDPix in Dafny

A model of the parts of UDPix that carry its guarantees, with proofs over all inputs and all runs.

* **The acknowledgement protocol** (`Bits`, `Packet`, `Sack`, `SackCodec`, `SackManager`, `SackArrival`,
  `SackHistory`, `Sender`, `SenderFacts`, `SenderProgress`, `Retransmit`, `Resend`, `Receiver`, `ReceiverFacts`,
  `Protocol`, `Liveness`, `Paths`, `Progress`). The 1024-bit bitmap is kept in an array of sixteen words and shifted
  in place; it is proved to refine a set of sequence numbers. Sender, receiver and a network that drops, duplicates,
  delays and reorders both datagrams and SACKs form one step system with an inductive invariant. It is safe: the
  sender's exit means that everything was delivered. And it can always come to that exit while the receiver runs;
  after a FIN it can exactly when the SACKs already issued claim everything in flight.
* **Bulk transfer** (`Packer`, `Unpacker`, `Utf8`, `BlockFormat`, `Packing`, `NextFit`, `Writer`, `Reassembly`,
  `ExactlyOnce`, `WriterOrder`, `Direct`, `Unframed`, `EndToEnd`). Files are packed into blocks, framed, cut into
  datagrams, reassembled, unpacked and written. Every stage has its inverse theorem, and the stages compose into one,
  both as a lemma over runs of the receiver and as a method that calls the modelled code from end to end.
* **Rates and timers** (`Congestion`, `Prober`, `Triggers`, `Pacing`, `Ledger`, `Session`): token bucket, bandwidth
  prober, RTT estimator, and what connects them to the sender over whole runs.
* **Wire formats** (`Layouts`): the offset and byte order of every field of every format, digit by digit.
* **NAT traversal** (`Tlv`, `Addresses`, `Turn`, `Stun`, `Ice`): attribute lists, masked addresses, message integrity,
  candidate and pair priorities, check lists and connectivity checks.
* **Concrete inputs** (`Witnesses`) at which the limits listed below show.

Stateful objects of the program are classes here, and each of their methods is proved equal to a function on values;
the theorems are about those functions and about runs of them. A machine word is an integer with explicit
wrap-around, shifts and bitwise operators are defined bit by bit in `Bits`, a floating-point number is a `real`, and a
disk is a map from path to bytes. What the program reads from outside is a parameter: clock readings, the iteration
order of a hash map (any order that visits every key once), which datagrams `sendmmsg` took, whether a channel has
room, whether a peer answers, and the hash function.

## What the proofs show about the code

These are facts a maintainer may not expect. Each is a theorem, with the exact condition where there is one; the lemma
named last gives an input the code can receive.

* The heartbeat interval adapts inside the SACK manager but the receiver's timer never learns of it: the "old"
  interval is read after the tick has already replaced it (`crates/protocol/src/receiver.rs:184-219`,
  `Receiver.ReceiverTask.SendHeartbeatSack`, `Witnesses.TickChangesInterval`).
* The prober compares goodput *ratios*, so a finished climb keeps the first rung, 10 Mbit/s, if and only if no later
  step recorded a better ratio than the first (`Prober.FirstRungKept`). If everything sent in the first step has been
  acknowledged when that step is evaluated, 10 Mbit/s it is, whatever happens later in the climb
  (`Prober.FullFirstStepDecides`). An acknowledgement that arrives just after an evaluation counts for the next step
  instead: a link that loses nothing but is late once settles at 50 Mbit/s (`Prober.LateAcksLeaveFirstRung`).
* A FIN ends the receiver's loop whether or not everything has arrived (`crates/protocol/src/receiver.rs:168-170`,
  `crates/protocol/src/receiver.rs:294-298`). From then on the sender's loop can end if and only if the SACKs already
  issued claim every packet in flight; otherwise it never ends (`Progress.ExitIff`,
  `Witnesses.FinStrandsSender`).
* A packet that a batch picked but the kernel did not take counts as sent. One that was never on the wire is in neither
  retransmit queue, with a count that keeps it from being sent for its age, if and only if it outlived an odd number of
  SACKs and each of its retransmissions ended in a batch that the kernel cut short before it; then nothing but another
  SACK brings it back (`Retransmit.StrandedIff`, `SenderProgress.WaitsForSack`, `Witnesses.RefusedPacketWaits`).
* A freshly enqueued packet is a candidate of the same turn's batch if and only if the retransmission timeout is below
  one second plus the time between enqueueing and sending (`crates/protocol/src/sender.rs:257`,
  `SenderProgress.NewPacketEligible`, `Witnesses.SlowPathDelaysNewPackets`).
* Under constant loss the heartbeat interval settles in that loss's band if and only if it is not true that the loss
  sits exactly on a band edge and the estimate starts above it (`SackHistory.SettlesUnlessAboveEdge`,
  `Witnesses.TenPercentNeverSettles`).
* Outside direct mode nobody puts blocks together again: the sender cuts a block into datagrams and the receiver hands
  the pieces to the writer one by one. In whatever order the pieces arrive, and however often each is repeated, the
  transfer then succeeds if and only if all of it, manifest included, fits one datagram
  (`Unframed.UnframedTransfer`, `Witnesses.SmallFileFailsUnframed`).
* The pair priority built from shifts and ors equals the sum of section 6.1.2.3 of RFC 8445 if and only if the larger
  candidate priority is below 2^31 or the smaller one is even (`Ice.PairPriorityIsSum`,
  `Witnesses.HigherRemoteRanksLower`).
* After a pass of connectivity checks without an answer no later pass checks anything (`Ice.FailedPassIsFinal`,
  `Witnesses.LatePeerIsNeverAsked`).
* The peer-address codec round-trips if and only if the address is IPv4 (`Turn.PeerAddressRoundTrip`,
  `Witnesses.LoopbackV6IsLost`); section 15.2 of RFC 5389 wants IPv6 addresses masked as well.
* A STUN message survives serialising and parsing if and only if it carries no address attribute, none of its
  attributes uses an address type, and its body fits 16 bits (`Stun.StunRoundTrip`,
  `Witnesses.AddressAttributesAreLost`).

Where code and comments disagree, the model follows the code:

* The manifest's version field takes 2 bytes (`crates/ioengine/src/packer.rs:49`), not the 4 of the layout comment
  (`crates/ioengine/src/packer.rs:22`).
* `mapped_addr` falls back to the *last* MAPPED-ADDRESS, not the first (`crates/traversal/src/stun.rs:99-110`).
* `process_sack` discards the rate that the profiler returns (`crates/protocol/src/sender.rs:221`), so entering the
  throttling phase does not slow the pacer down by itself (`Pacing.PacerInStep` says exactly when the two differ).
  `TokenBucket::set_rate` does not credit the time before the change (`crates/protocol/src/congestion.rs:61-65`), and
  a new bucket may hold more than its capacity until its first refill (`crates/protocol/src/congestion.rs:54`).

## Model

| member | source | states |
|---|---|---|
| Packet.WriteTo | crates/protocol/src/packet.rs:257-267 | the first 29 bytes of the buffer become the header, every other byte is untouched |
| Packet.ReadFrom | crates/protocol/src/packet.rs:272-300 | fails exactly on buffers shorter than a header |
| Packet.ReadInvertsEncode | crates/protocol/src/packet.rs:257-300 | reading back a written header gives the same header, whatever payload follows |
| Packet.EncodeInvertsRead | crates/protocol/src/packet.rs:257-300 | writing a header that was read gives the same 29 bytes: no header byte is ignored |
| Packet.FlagsOfConstructors | crates/protocol/src/packet.rs:117-210 | each constructor sets the one flag by which the receiver recognises the packet, and none it tests before |
| Packet.BuildDatagram | crates/protocol/src/sender.rs:253-255 | zeroed buffer, header written in place, chunk copied behind it: the datagram is header then chunk |
| Sack.SackPayload.constructor | crates/protocol/src/sack.rs:209-219 | a fresh bitmap claims exactly the numbers below the initial one |
| Sack.SackPayload.MarkReceived | crates/protocol/src/sack.rs:60-75 | adds exactly `sn` to what is claimed, if it lies in the window; keeps word_count canonical |
| Sack.SackPayload.IsReceived | crates/protocol/src/sack.rs:77-90 | the code's own window test and bit probe answer what the bitmap claims |
| Sack.SackPayload.AdvanceBase | crates/protocol/src/sack.rs:94-129 | for every number: claimed afterwards iff below the new base or claimed before, for all shifts (none, word-aligned, 1024 and more); word_count stays canonical |
| Sack.SackPayload.ShiftWords | crates/protocol/src/sack.rs:108-113 | the in-place word shift moves every word down and clears the top |
| Sack.SackPayload.ShiftBits | crates/protocol/src/sack.rs:114-121 | the reverse carry loop moves every bit down across word borders |
| Sack.SackPayload.TrimWordCount | crates/protocol/src/sack.rs:122-126 | word_count is recomputed to index the last nonzero word |
| Sack.BothShiftsDrop | crates/protocol/src/sack.rs:104-121 | word shift followed by bit shift drops exactly the low `shift` bits |
| Sack.ClaimsDetermine | crates/protocol/src/sack.rs:77-90 | two canonical bitmaps with the same base and the same claims are the same bitmap, words and count included |
| SackCodec.Serialise | crates/protocol/src/sack.rs:147-155 | appends the encoding to the buffer |
| SackCodec.Deserialise | crates/protocol/src/sack.rs:158-174 | the loop computes the decoding: too short, payload with its length, or an index panic for a count above 16 |
| SackCodec.DecodeInvertsEncode | crates/protocol/src/sack.rs:147-174 | decoding an encoding followed by anything returns the payload and exactly its wire size, at most 137 bytes |
| SackCodec.PrefixRejected | crates/protocol/src/sack.rs:158-174 | every proper prefix of an encoding is rejected |
| SackCodec.CountDecides | crates/protocol/src/sack.rs:158-174 | too short iff below nine bytes or the count's words; the index panic iff long enough with a count above 16 |
| SackManager.Manager.OnPacketReceived | crates/protocol/src/sack.rs:226-243 | an arrival adds itself if inside the window, changes no other claim, and leaves the base on the least unclaimed number, after at most 1024 steps |
| SackManager.ArrivalDetermines | crates/protocol/src/sack.rs:226-243 | that description leaves no choice: it fixes the whole payload |
| SackArrival.ArrivalHappens | crates/protocol/src/sack.rs:226-243 | and it can always be met: every canonical bitmap and every number have a payload that fits it |
| SackManager.Manager.Tick | crates/protocol/src/sack.rs:250-276 | folds the interval's loss into the estimate, clears the counters, picks the interval; the bitmap is untouched |
| SackHistory.ClaimsAreArrivals | crates/protocol/src/sack.rs:226-243 | after any arrivals the bitmap claims exactly what lies below the initial number or arrived inside its moment's window; the base is the least number not claimed |
| SackHistory.OnlyArrivalsClaimed | crates/protocol/src/sack.rs:226-243 | no claim is invented: a claimed number from the initial one on is among the arrivals |
| SackHistory.InWindowHistoryIsExact | crates/protocol/src/sack.rs:226-243 | if no arrival overran its window the claims are exactly the arrivals and the numbers below the initial one |
| SackHistory.ExpectedTelescopes | crates/protocol/src/sack.rs:226-276 | expected counts of all heartbeats so far plus the current one equal next expected minus initial, which is one past the highest arrival; the loss estimate stays in [0, 1] |
| SackHistory.PacketsAreArrivals | crates/protocol/src/sack.rs:226-276 | the packet count is the number of arrivals since the last heartbeat, late and repeated ones included |
| SackHistory.LossIsMissingShare | crates/protocol/src/sack.rs:252-264 | the interval's loss times the numbers it expected is how many of them did not arrive, none when late packets make up for them |
| SackHistory.SteadyLossIsEma | crates/protocol/src/sack.rs:250-276 | under constant interval loss only the number of heartbeats matters, however arrivals interleave |
| SackHistory.EmaClosedForm | crates/protocol/src/sack.rs:264 | an estimate that is off by d is off by d * 0.75^n after n such heartbeats |
| SackHistory.EmaConverges | crates/protocol/src/sack.rs:264 | from some heartbeat on the estimate stays within any given distance of the loss |
| SackHistory.SettlesUnlessAboveEdge | crates/protocol/src/sack.rs:267-275 | the interval settles in the loss's own band iff the loss is not a band edge approached from above |
| Sender.SenderTask.EnqueueData | crates/protocol/src/sender.rs:243-264 | each chunk becomes an in-flight DATA packet under the next number, dated one second back |
| Sender.SenderTask.ProcessSack | crates/protocol/src/sender.rs:201-237 | removes what the SACK claims, credits its bytes to the profiler, and pushes every gap to the normal or, every second time, the urgent queue |
| Sender.SenderTask.DrainQueue | crates/protocol/src/sender.rs:276-313 | pops until batch, tokens or queue run out; a number no longer in flight is skipped, one without tokens goes back to the tail |
| Sender.SenderTask.SendUnsent | crates/protocol/src/sender.rs:315-335 | eligible new entries until tokens or batch run out |
| Sender.SenderTask.SendBatch | crates/protocol/src/sender.rs:272-351 | urgent, then normal, then new: the batch is copies of exactly the picked in-flight datagrams |
| Sender.SenderTask.RunOnce | crates/protocol/src/sender.rs:149-195 | one turn is event, refill, batch, and it ends the loop exactly on shutdown with nothing in flight |
| Protocol.EnqueuedTravels | crates/protocol/src/sender.rs:243-264 | what travels under a new number is the DATA header with that number, its own time stamp and the piece's length, then the piece; every piece but the last has 1443 bytes |
| Sender.SenderTask.CollectUnsent | crates/protocol/src/sender.rs:316-323 | the filter and `take` over the hash map: the entries older than the timeout with nak_count 0, in iteration order, at most the free slots |
| SenderFacts.BatchIsSound | crates/protocol/src/sender.rs:272-351 | a batch holds at most 64 datagrams, each an exact copy of an in-flight one; keys and contents of in_flight stay; tokens drop by exactly the bytes picked and never below zero |
| SenderFacts.TurnIsPaced | crates/protocol/src/sender.rs:181-189 | a turn puts out at most 64 datagrams and 3000 bytes, and no more than the tokens it started with plus its refill |
| SenderFacts.PacedOverRuns | crates/protocol/src/congestion.rs:61-89 | over any run tokens stay nonnegative and the bytes put into batches never exceed starting tokens plus the sum of rate at refill times elapsed time |
| Pacing.PacedByClock | crates/protocol/src/congestion.rs:70-76 | over any run whose clock does not run backwards, the bytes put into batches are at most the starting tokens plus, per turn, its rate times the time from the previous turn's refill to its own |
| Pacing.PacedAtRate | crates/protocol/src/congestion.rs:70-76 | at rates of at most R: at most the starting tokens plus R times the time from the first refill to the last |
| Pacing.TopSpeed | crates/protocol/src/congestion.rs:70-76 | a new sender puts at most 1250 bytes plus 250 million per second into its batches, whatever happens |
| Pacing.RefillComposes | crates/protocol/src/congestion.rs:70-76 | refilling at a moment in between changes nothing: no time is credited twice, none is lost |
| Pacing.RateChangeCredits | crates/protocol/src/congestion.rs:61-76 | after a change of rate the time since the last refill is credited at one eighth of the new bit rate, on top of at most 3000 tokens |
| Pacing.PacerObeysFromStart | crates/protocol/src/sender.rs:157-162 | over any run the pacer's rate is one eighth of the last rate the probe timer reported, of 10 Mbit/s before the first report |
| Pacing.PacerInStep | crates/protocol/src/sender.rs:157-162 | over any run the pacer is at the prober's current rate unless the prober is throttling; a due probe timer always puts it there |
| Ledger.AckedIsRemoved | crates/protocol/src/sender.rs:204-221 | the bytes a SACK is credited with are the datagram bytes in flight before it less those in flight after it |
| Ledger.RunTallied | crates/protocol/src/sender.rs:201-351 | over any run the prober's sent and acked bytes are those the kernel took and those SACKs removed from flight since the step began, and its step began when the timer last found half a second gone or the prober dropped to the floor |
| Ledger.RecordedTally | crates/protocol/src/congestion.rs:229-246 | an evaluation in mid-climb records exactly these totals |
| Ledger.ReportsWhenDue | crates/protocol/src/congestion.rs:222-227 | the timer reports a rate iff half a second has passed since the step began |
| Resend.BatchDates | crates/protocol/src/sender.rs:276-335 | after a batch the picked packets carry its time and all others the time they had |
| Resend.NeverEarly | crates/protocol/src/sender.rs:276-335 | over any run, as long as no SACK queues it, every transmission of a packet comes more than the timeout after the one before |
| Resend.BatchInOrder | crates/protocol/src/sender.rs:276-335 | a batch is the front of the urgent queue, then the front of the normal queue, then the front of the candidates; a queue loses exactly that front, or has the next number moved to its tail |
| SenderProgress.QueuesServed | crates/protocol/src/sender.rs:276-313 | a batch below 64 leaves a retransmit queue nonempty only with a packet at its tail that the remaining tokens do not cover |
| SenderProgress.FreshServed | crates/protocol/src/sender.rs:315-335 | a batch below 64 has picked every eligible packet, unless the remaining tokens do not cover an eligible one |
| SenderProgress.EligibleOfMembers | crates/protocol/src/sender.rs:316-323 | a candidate is exactly an in-flight entry whose age exceeds the timeout and whose nak_count is 0 |
| SenderProgress.NewPacketEligible | crates/protocol/src/sender.rs:255-323 | in the turn that enqueues it a packet is a candidate iff the timeout is below a second plus the time between the turn's two clock readings |
| Retransmit.NakAllEffect | crates/protocol/src/sender.rs:225-236 | one SACK pushes each surviving gap once, to the queue its nak_count calls for, and flips the count |
| Retransmit.TurnBooked | crates/protocol/src/sender.rs:201-351 | every turn keeps the bookkeeping of pushes, transmissions and cut batches |
| Retransmit.InitialBooked | crates/protocol/src/sender.rs:114-135 | a new sender satisfies that bookkeeping |
| Retransmit.RunBooked | crates/protocol/src/sender.rs:201-351 | over every interleaving: nak_count is 0 or 1, queued numbers are below next_seq, an entry that outlived k SACKs was pushed ceil(k/2) times to normal and floor(k/2) to urgent, and of a packet never on the wire the pushes to a queue are those still waiting there plus those that ended in a batch cut before it |
| Retransmit.StrandedIff | crates/protocol/src/sender.rs:225-351 | a never-transmitted packet has nak_count 1 and is outside the normal queue iff it outlived an odd number of SACKs and all its pushes to that queue ended in batches cut before it; it is in neither queue iff that holds of all its pushes |
| Retransmit.NeverStranded | crates/protocol/src/sender.rs:225-351 | in every run whose batches the kernel takes whole, a never-transmitted packet has nak_count 0 or waits in the normal queue |
| SenderProgress.WaitsForSack | crates/protocol/src/sender.rs:272-335 | a packet with nak_count 1 in neither queue is not picked by any turn until the next SACK, however long that takes |
| Receiver.ClassifyData | crates/protocol/src/receiver.rs:246-272 | a DATA packet as the sender builds it is taken as DATA with its own number and bytes |
| Receiver.ClassifyFin | crates/protocol/src/receiver.rs:294-298 | a FIN packet reaches the FIN branch |
| Receiver.PongEchoesPing | crates/protocol/src/receiver.rs:277-293 | a PING as built is taken as a PING with its own number and timestamp, and the PONG built from those as a PONG with that timestamp |
| Receiver.ReceiverTask.ProcessDatagram | crates/protocol/src/receiver.rs:246-304 | all branches: malformed, foreign, truncated, DATA (duplicates and out-of-window ones delivered too), PING, PONG, FIN, other |
| Receiver.ReceiverTask.SendHeartbeatSack | crates/protocol/src/receiver.rs:183-220 | the bitmap goes to the channel if there is room and on the wire once data was seen; a changed interval is never reported |
| ReceiverFacts.ForeignIgnored | crates/protocol/src/receiver.rs:246-258 | a datagram too short for a header or with another session's number in its first four bytes changes nothing |
| ReceiverFacts.PingToRtt | crates/protocol/src/receiver.rs:277-292 | across two receivers, a PING sent at ts and its PONG give the pinging side the sample of its own clock less ts, and change nothing else on either side |
| ReceiverFacts.QuietBeforeData | crates/protocol/src/receiver.rs:183-220 | until a data packet of the session arrives only PONGs go on the wire |
| ReceiverFacts.DataOpensWire | crates/protocol/src/receiver.rs:252-262 | the wire is open iff it was or the datagram is data of this session, cut short or not |
| ReceiverFacts.HeartbeatGoesOut | crates/protocol/src/receiver.rs:183-212 | then every heartbeat sends a packet of the session from which header and bitmap are read back exactly |
| ReceiverFacts.RunMetered | crates/protocol/src/receiver.rs:183-304 | over any run the loss meter is that of the data packets and heartbeats of the run |
| ReceiverFacts.ChannelIsOffered | crates/protocol/src/receiver.rs:183-220 | over any run the channel to the sender gets the bitmap of the moment from every heartbeat and FIN that finds room, in order, and nothing else |
| Protocol.InvAlways | crates/protocol/src/sender.rs:188-264 | the invariant of sender, network and receiver holds in every reachable state |
| Protocol.NothingLost | crates/protocol/src/sender.rs:201-264 | in every reachable state each number handed out is in flight or was delivered with exactly the bytes enqueued under it, and every SACK, however stale, claims only such numbers |
| Protocol.ExitMeansDelivered | crates/protocol/src/sender.rs:188-194 | when the loop exits every accepted chunk was delivered, all its pieces, with its own bytes |
| Protocol.ArrivalsInRange | crates/protocol/src/receiver.rs:246-262 | in every such state the receiver's 64-bit arithmetic on an arriving datagram stays in range |
| Protocol.DataKeepsInv | crates/protocol/src/receiver.rs:252-275 | delivering a genuine datagram, new, late or repeated, keeps the invariant |
| Protocol.SackHandledWell | crates/protocol/src/sender.rs:201-237 | a stale SACK removes only delivered packets from flight |
| Liveness.LiveAlways | crates/protocol/src/sender.rs:188-264 | in every reachable state: what left flight is claimed by the receiver's bitmap, every SACK ever issued claims no more than that bitmap, none taken out of the channel claims a packet still in flight, the bitmap's base is unclaimed, every packet is small enough for a full bucket, the rate is positive, and the loop is over iff its exit test holds |
| Liveness.SomeStart | crates/protocol/src/sender.rs:114-135 | the step system has an initial state |
| Progress.QueuedAllGoOut | crates/protocol/src/sender.rs:272-351 | in any run of as many SACK-free turns as there are queued numbers, each from a full bucket and each batch taken whole, every queued in-flight packet goes on the wire |
| Progress.BaseAdvances | crates/protocol/src/sender.rs:201-237 | while the receiver runs and something is unclaimed, finitely many orderly steps (SACKs in channel order, overdue ticks, a heartbeat, batches, one arrival) move the receiver's base up, or the loop ends on the way |
| Progress.ExitReachable | crates/protocol/src/sender.rs:149-195 | while the receiver runs, or once the SACKs issued claim everything in flight, finitely many orderly steps end the loop with every payload accepted so far delivered; orderly: SACKs first in first out through a bounded channel, the biased select's priorities, a clock that does not run back, a probe timer that is not early, the timeout of the shared statistics |
| Progress.StuckNeverExits | crates/protocol/src/receiver.rs:163-173 | once a FIN has ended the receiver with an unclaimed packet in flight, no sequence of steps ends the sender's loop, even if SACKs are repeated and reordered |
| Progress.ExitIff | crates/protocol/src/sender.rs:149-195 | from a reachable state the loop's end can be reached iff the receiver is running or the SACKs issued claim everything in flight, for orderly steps and for all steps alike |
| Congestion.TokenBucket.Refill | crates/protocol/src/congestion.rs:70-76 | tokens grow by rate times elapsed time, capped at 3000 |
| Congestion.TokenBucket.SetRate | crates/protocol/src/congestion.rs:61-65 | changes the rate and caps the tokens, without a refill |
| Congestion.TokenBucket.TryConsume | crates/protocol/src/congestion.rs:82-89 | succeeds exactly when the tokens suffice, and then takes exactly that many |
| Congestion.BandwidthProfiler.OnBytesAcked | crates/protocol/src/congestion.rs:200-216 | updates the loss estimate and throttles above the threshold |
| Congestion.BandwidthProfiler.EvaluateProbe | crates/protocol/src/congestion.rs:222-290 | the whole state machine step, for all three phases |
| Prober.AlwaysOnBest | crates/protocol/src/congestion.rs:222-290 | in every reachable state: while probing step k, the best goodput is the maximum of steps 0..k-1 and the best rate the lowest rung attaining it; when steady, the choice of a climb whose only drop below 0.95 is its last step |
| Prober.FreshIsClimbing | crates/protocol/src/congestion.rs:178-189 | a new profiler satisfies that invariant |
| Prober.ReportsAreCurrent | crates/protocol/src/congestion.rs:200-299 | a reported rate is the rate now in force, and no report means no change |
| Prober.SteadyInTime | crates/protocol/src/congestion.rs:222-290 | without throttling a climb at step k is over within 7 - k due evaluations |
| Prober.FirstRungKept | crates/protocol/src/congestion.rs:229-262 | a finished climb chose the first rung iff no later step recorded a better ratio |
| Prober.FullFirstStepDecides | crates/protocol/src/congestion.rs:229-262 | if the first step's bytes are all acknowledged when it is evaluated, the first rung stays best, and is the one the climb ends on, until a throttle or a new climb |
| Prober.LateAcksLeaveFirstRung | crates/protocol/src/congestion.rs:229-262 | without any loss, ten late bytes of acknowledgement in the first step end the climb on the second rung |
| Triggers.ClimbsAgainIff | crates/protocol/src/congestion.rs:262-282 | a steady prober climbs again, as a new one would, iff the timer is due, something was sent and less than four fifths of the best goodput came back; otherwise it keeps its rate |
| Triggers.FloorStartsAfresh | crates/protocol/src/congestion.rs:284-292 | from the floor the first due timer starts afresh at 10 Mbit/s with the loss estimate cleared |
| Triggers.ThrottlesIff | crates/protocol/src/congestion.rs:200-216 | a SACK moves the loss estimate a fifth of the way to the step's loss and drops the prober to 5 Mbit/s iff that is above three tenths |
| Triggers.ModerateLossNeverThrottles | crates/protocol/src/congestion.rs:200-216 | over any run in which no SACK finds more than three tenths missing the prober never drops to the floor |
| Triggers.HeavyLossThrottles | crates/protocol/src/congestion.rs:200-216 | SACKs that each find three tenths plus a gap missing drop it to the floor after at most as many as make the gap's fifths exceed three tenths |
| Triggers.Ladder | crates/protocol/src/congestion.rs:100-112 | seven rising rungs from 10 Mbit/s to 2 Gbit/s, and the floor at 5 Mbit/s |
| Session.SessionStats.UpdateRtt | crates/protocol/src/session.rs:89-108 | the stored pair becomes the wrapping, truncating update of the old one |
| Session.NoOverflow | crates/protocol/src/session.rs:89-108 | up to 2^60 microseconds nothing wraps, so the update is the plain truncating one |
| Session.FollowsRfc6298 | crates/protocol/src/session.rs:89-108 | sections 2.2 and 2.3 of RFC 6298, low by less than two microseconds per update |
| Session.EstimatesStayInRange | crates/protocol/src/session.rs:89-108 | over any samples in [m, M]: m - 14 <= SRTT <= M and RTTVAR <= M |
| Session.ConstantSampleSettles | crates/protocol/src/session.rs:89-108 | under a constant sample, from any start, SRTT comes within 14 and RTTVAR to at most 12, and both stay there |
| Session.TimeoutIs | crates/protocol/src/session.rs:117-122 | the timeout is SRTT plus four times RTTVAR, kept between 0.2 and 10 seconds |
| Packer.PackFiles | crates/ioengine/src/packer.rs:98-159 | the accumulate-and-flush loop produces the wire forms of the next-fit packing, ids counting up from 0 |
| Packer.Serialise | crates/ioengine/src/packer.rs:219-243 | header, manifest entries, payload |
| Packer.SplitFile | crates/ioengine/src/packer.rs:124-137 | a large file becomes one block per chunk |
| Unpacker.UnpackEntries | crates/ioengine/src/packer.rs:165-207 | the cursor-based reader computes the items of the block, or the error it stops at: truncated, wrong magic, a path that is not UTF-8, or out of bounds |
| Unpacker.ReadManifest | crates/ioengine/src/packer.rs:178-191 | entry after entry, failing at the first that is truncated or whose path is not UTF-8 |
| Unpacker.SliceEntries | crates/ioengine/src/packer.rs:193-206 | each entry's slice of the payload, failing at the first out of bounds |
| Unpacker.EntriesDescribe | crates/ioengine/src/packer.rs:140-153 | each entry names its item and points at exactly the item's bytes |
| Unpacker.EntriesTile | crates/ioengine/src/packer.rs:140-153 | the entries tile the payload: the first starts at 0, each starts where the one before ends, the last ends with the payload |
| Unpacker.EntriesReadBack | crates/ioengine/src/packer.rs:178-238 | the manifest reader inverts the manifest writer and stops where the payload starts |
| Unpacker.UnpackInvertsPack | crates/ioengine/src/packer.rs:165-243 | unpacking a packed block returns exactly the items packed into it |
| BlockFormat.UnpacksIff | crates/ioengine/src/packer.rs:165-207 | a buffer unpacks to given items iff it begins with the magic number and a manifest of entries that each name their item and point at its bytes inside the buffer |
| BlockFormat.HeaderErrors | crates/ioengine/src/packer.rs:169-176 | below 18 bytes it is too short; then the magic number decides |
| Utf8.Utf8Iff | crates/ioengine/src/packer.rs:182-183 | the accepted paths are exactly the encodings of sequences of Unicode scalar values (RFC 3629) |
| Packing.ItemsAreParts | crates/ioengine/src/packer.rs:118-153 | a file of at most a block is one item with total 1, a larger one ceil(len / BLOCK_SIZE) >= 2 consecutive parts that join up to it |
| Packing.PackKeepsOrder | crates/ioengine/src/packer.rs:98-159 | the blocks, read in order, are the items of the files in order |
| Packing.PackWellFormed | crates/ioengine/src/packer.rs:106-158 | no block is empty or holds more than BLOCK_SIZE of payload |
| Packing.BlocksUnpack | crates/ioengine/src/packer.rs:98-207 | the i-th block has id i, a payload within BLOCK_SIZE, and unpacks to exactly its items |
| Packing.BlocksTile | crates/ioengine/src/packer.rs:98-159 | the manifest of every block of a packing tiles the payload of that block |
| Packing.BlockCount | crates/ioengine/src/packer.rs:98-159 | a packing has fewer than 2^64 blocks, so no block id wraps |
| Packing.PackRoundTrip | crates/ioengine/src/packer.rs:98-243 | packing then unpacking returns the files' items, each once and in order |
| Packing.BytesConserved | crates/ioengine/src/packer.rs:98-159 | payload sizes add up to the file sizes |
| Packing.PackIsDense | crates/ioengine/src/packer.rs:138-158 | without split files two neighbouring payloads exceed BLOCK_SIZE, hence (m - 1) * BLOCK_SIZE <= 2 * total |
| NextFit.PackIsTheNextFit | crates/ioengine/src/packer.rs:98-159 | blocks are the packer's iff they hold the files' items in order, each within BLOCK_SIZE and either whole files or one part, and no block of whole files could have taken the first file of the next: the rule leaves no choice |
| Writer.AsyncWriter.ReceiveAndWrite | crates/ioengine/src/writer.rs:105-174 | succeeds iff every block unpacks, every directory can be made and every write succeeds; then all the model's writes are on disk and the count is the model's; otherwise what was submitted is a prefix of them, and the disk shows what was carried out, failed writes included |
| Writer.AsyncWriter.CarryOut | crates/ioengine/src/writer.rs:198-211 | the background thread carries out the oldest request and reports its result |
| Writer.AsyncWriter.Finish | crates/ioengine/src/writer.rs:163-171 | waiting for the remaining results succeeds iff no request went wrong, and then everything submitted is on disk |
| Writer.AsyncWriter.Assemble | crates/ioengine/src/writer.rs:63-71 | draining the parts joins them in index order |
| Writer.AsyncWriter.SubmitWrite | crates/ioengine/src/writer.rs:178-188 | the request goes last in line, unless its directory cannot be made |
| Reassembly.FedAllKeeps | crates/ioengine/src/writer.rs:105-146 | whatever is fed, in any order and repetition: only whole original files are written, only own parts are kept, nothing fed is forgotten |
| Reassembly.AnyOrderRestores | crates/ioengine/src/writer.rs:105-174 | all items, in any order, each at least once: exactly the original files end up on disk and other paths stay as they were |
| ExactlyOnce.FedAllKeepsExact | crates/ioengine/src/writer.rs:105-146 | without repetition a file is written exactly when all its parts are in, once, and until then exactly its arrived parts are kept |
| ExactlyOnce.OnceIsExact | crates/ioengine/src/writer.rs:105-174 | each item once: the byte count is the sum of the file sizes, no partial file remains, each file is written once |
| WriterOrder.WireUnpacks | crates/ioengine/src/packer.rs:98-207 | the blocks of a packing all unpack, to the items of its files |
| WriterOrder.AnyOrderOfBlocksRestores | crates/ioengine/src/writer.rs:105-174 | the blocks of distinct files, permuted and repeated in any way, restore exactly those files |
| WriterOrder.EachBlockOnceIsExact | crates/ioengine/src/writer.rs:105-174 | each block once, in any order: exact byte count, empty partial map, each file written once |
| WriterOrder.InterruptedIsExact | crates/ioengine/src/writer.rs:118-146 | after a transfer that stopped early a file was written iff all its items arrived |
| Direct.SendDirect | crates/cli/src/send.rs:130-163 | numbers, sizes and bytes of all datagrams across blocks, five FINs under the next number, and the byte count |
| Direct.SendChunks | crates/cli/src/send.rs:142-150 | one frame: consecutive numbers, each chunk behind its header |
| Direct.PiecesAreStream | crates/cli/src/send.rs:137-142 | the payloads join up to the stream of frames, none empty, none above MAX_PAYLOAD |
| Direct.Reassemble | crates/cli/src/receive.rs:147-170 | the nested loops emit exactly the complete frames of everything received and keep the rest |
| Direct.DrainedAppend | crates/cli/src/receive.rs:150-165 | draining early changes nothing: the accumulator is all that has to be remembered |
| Direct.PrefixDrains | crates/cli/src/receive.rs:147-166 | of any prefix of the stream, cut anywhere, exactly the complete blocks come out in order and exactly the leftover bytes wait |
| Direct.StreamDrains | crates/cli/src/receive.rs:147-166 | the whole stream drains to exactly the blocks |
| Unframed.ProperPrefixRejected | crates/ioengine/src/packer.rs:165-207 | a block cut short anywhere fails to unpack |
| Unframed.PiecesAccepted | crates/cli/src/receive.rs:198-220 | whatever the order and repetition of the unframed pieces, the writer gets through them iff no block was cut |
| Unframed.NarrowMeans | crates/ioengine/src/packer.rs:98-159 | no block is cut iff there are no files or 18 + sum(26 + path + data) bytes fit one payload: two blocks of one packing never both fit |
| Unframed.UnframedTransfer | crates/cli/src/receive.rs:198-220 | outside direct mode, with every piece arriving at least once in any order, the transfer succeeds iff all of it fits one datagram, and then restores the files |
| EndToEnd.LogIsArrivals | crates/protocol/src/receiver.rs:246-272 | over any run up to the FIN that ends it the application gets the payloads of the arriving data packets, in order of arrival |
| EndToEnd.WireFrames | crates/ioengine/src/packer.rs:219-243 | every packed block is short enough for its 8-byte length prefix |
| EndToEnd.DirectTransfer | crates/cli/src/receive.rs:147-168 | in-order lossless delivery of the direct-mode wire up to its first FIN restores exactly the original files, with the exact byte count, over every run of the receiver |
| EndToEnd.Transfer | crates/cli/src/send.rs:124-177 | the composed code, from the file list through every modelled method to the disk, returns the original files and their total size |
| Tlv.RoundTripsWhenEncodable | crates/traversal/src/turn.rs:85-142 | an attribute list survives encoding and parsing iff every length fits its 2-byte field |
| Tlv.BodyReadsBack | crates/traversal/src/turn.rs:130-142 | from any position the parser reads back the list encoded there, padding included |
| Tlv.ParsedConsumes | crates/traversal/src/turn.rs:130-142 | re-encoding what was parsed takes no more than the buffer, up to missing padding |
| Turn.TurnMsg.PushAttr | crates/traversal/src/turn.rs:85-91 | appends one padded attribute to the list |
| Turn.TurnMsg.Build | crates/traversal/src/turn.rs:93-101 | header and attributes of the list pushed so far |
| Turn.TurnMsg.BuildWithIntegrity | crates/traversal/src/turn.rs:104-123 | the same with one digest attribute behind it, taken under the final length |
| Turn.ParseRawAttrs | crates/traversal/src/turn.rs:130-142 | the loop computes the parsed list, stopping silently at an overrun |
| Turn.BuiltReadsBack | crates/traversal/src/turn.rs:85-142 | the header length is the body length iff it fits 16 bits; the attributes are read back iff their lengths fit |
| Turn.SignedReadsBack | crates/traversal/src/turn.rs:104-142 | signing adds exactly one 20-byte attribute; the header counts it; the digest covers everything before it with that length in place (section 15.4 of RFC 5389) |
| Turn.PeerAddressRoundTrip | crates/traversal/src/turn.rs:144-162 | decoding an encoded peer address returns it iff it is IPv4 |
| Turn.V6ComesBackMasked | crates/traversal/src/turn.rs:401-408 | an IPv6 address comes back masked with cookie and transaction id |
| Stun.Serialise | crates/traversal/src/stun.rs:59-71 | the attribute loop and the header |
| Stun.ParseAttributes | crates/traversal/src/stun.rs:130-166 | attribute after attribute, with an error for an overrun or an undecodable address |
| Stun.Parse | crates/traversal/src/stun.rs:74-97 | every check in the code's order, then the attributes |
| Stun.HeaderDecides | crates/traversal/src/stun.rs:74-97 | too short, then a wrong cookie, then a body cut short; an accepted message has the type and transaction id of its header |
| Stun.UnmaskedV4 | crates/traversal/src/stun.rs:169-198 | bit by bit, both decoders read the port as the field with the bits of 0x2112 flipped and the address with those of 0x2112A442 |
| Stun.UnmaskedV6 | crates/traversal/src/stun.rs:169-198 | and an IPv6 address with those of the cookie followed by the transaction id |
| Stun.PlainAddress | crates/traversal/src/stun.rs:200-211 | an unmasked address is read as it stands, IPv4 only |
| Stun.MappedAddr | crates/traversal/src/stun.rs:100-110 | the first XOR-MAPPED-ADDRESS, else the last MAPPED-ADDRESS, else none |
| Stun.DecodersAgree | crates/traversal/src/stun.rs:169-198 | the STUN and the TURN decoder accept the same masked addresses and read them alike |
| Stun.StrictIsRaw | crates/traversal/src/stun.rs:130-166 | whatever the STUN parser accepts, the TURN parser reads as the same attributes undecoded |
| Stun.StunRoundTrip | crates/traversal/src/stun.rs:59-97 | parsing inverts serialising iff all attributes are unknown ones of other than address type and the body fits 16 bits |
| Stun.TrailingBytesIgnored | crates/traversal/src/stun.rs:87-93 | bytes behind the declared body change nothing |
| Ice.PriorityInRange | crates/traversal/src/ice.rs:40-58 | with a local preference of at most 65535 the priority is the RFC's and below 2^31 |
| Ice.PriorityOrdersCandidates | crates/traversal/src/ice.rs:47-58 | then priorities order by candidate type first, local preference second |
| Ice.PriorityNumbers | crates/traversal/src/ice.rs:40-58 | the priorities of the three types in numbers: 126, 100 and 0 times 2^24, plus 256 times the local preference, plus 255 |
| Ice.DirectBeatsRelayed | crates/traversal/src/ice.rs:40-58 | host above server-reflexive above relayed, whatever the local preferences |
| Ice.PairPriorityIsSum | crates/traversal/src/ice.rs:81-89 | in either role, shifts and ors give the sum of section 6.1.2.3 of RFC 8445 iff the larger priority is below 2^31 or the smaller is even |
| Ice.PairPriorityOrders | crates/traversal/src/ice.rs:81-89 | in either role, below 2^31 pairs compare lexicographically by smaller, larger and tie bit, and the pair priority determines both candidate priorities |
| Ice.RolesAgree | crates/traversal/src/ice.rs:81-89 | both sides of a pair compute the same priority |
| Ice.IceAgent.FormCheckList | crates/traversal/src/ice.rs:118-128 | the nested loops and the sort yield the sorted same-family product |
| Ice.CheckListIs | crates/traversal/src/ice.rs:118-128 | descending, and each pair occurs exactly as often as its two candidates do |
| Ice.FormedPairs | crates/traversal/src/ice.rs:118-128 | a pair is listed iff it joins known candidates of one address family under their pair priority, waiting |
| Ice.SortedIs | crates/traversal/src/ice.rs:127 | sorting permutes, orders downwards, and keeps pairs of equal priority in order |
| Ice.AgentsCheckAlike | crates/traversal/src/ice.rs:118-128 | two agents with mirrored candidates check the same pairs, and in the same order whenever no two share a priority |
| Ice.IceAgent.RunChecks | crates/traversal/src/ice.rs:132-151 | one pass over the list, given which peers answer |
| Ice.CheckedStops | crates/traversal/src/ice.rs:132-151 | it stops at the first waiting pair that answers; earlier waiting pairs have failed, nothing else changed |
| Ice.SelectedIsBest | crates/traversal/src/ice.rs:132-151 | on a descending list the selected pair has the highest priority of all waiting pairs that answer |
| Ice.FormedSelectsBest | crates/traversal/src/ice.rs:118-151 | forming the list and checking it selects the best of all pairs that answer, none iff none does |
| Ice.FailedPassIsFinal | crates/traversal/src/ice.rs:132-151 | after a pass without an answer another pass checks nothing |
| Ice.IceAgent.SelectedPair | crates/traversal/src/ice.rs:153-155 | the first succeeded pair of the list |
| Witnesses.HigherRemoteRanksLower | crates/traversal/src/ice.rs:81-89 | against a host candidate a remote priority of 2^31 ranks below one of 2^31 - 1 |
| Witnesses.LatePeerIsNeverAsked | crates/traversal/src/ice.rs:132-151 | a peer that comes up after the first pass is not checked again |
| Witnesses.TenPercentNeverSettles | crates/protocol/src/sack.rs:250-276 | one bad interval, then one packet lost in ten: after no number of heartbeats is the interval the 5 milliseconds of ten percent loss |
| Witnesses.SlowPathDelaysNewPackets | crates/protocol/src/sender.rs:255-323 | after a first round trip of 400 milliseconds a packet enqueued and offered to the batch at one instant is no candidate |
| Witnesses.FinStrandsSender | crates/protocol/src/receiver.rs:294-298 | one chunk and then a FIN: from there no steps end the sender's loop |
| Witnesses.RefusedPacketWaits | crates/protocol/src/sender.rs:225-351 | one chunk, then a SACK that claims nothing, the kernel taking nothing both times: the packet was never on the wire, has nak_count 1 and is in no queue |
| Witnesses.SmallFileFailsUnframed | crates/cli/src/receive.rs:198-220 | one file of 1500 bytes never gets through outside direct mode |
| Witnesses.LoopbackV6IsLost | crates/traversal/src/turn.rs:144-162 | the IPv6 loopback address does not survive the peer-address codec |
| Witnesses.AddressAttributesAreLost | crates/traversal/src/stun.rs:59-97 | neither a response carrying a mapped address nor a raw attribute of an address type survives serialising and parsing |
| Witnesses.BindingResponseReads | crates/traversal/src/stun.rs:74-97 | the bytes of a binding response, address and port of section 2.2 of RFC 5769, read as 192.0.2.1 port 32853 |
| Layouts.PacketLayout | crates/protocol/src/packet.rs:257-267 | offset and little-endian digits of every header field |
| Layouts.SackLayout | crates/protocol/src/sack.rs:147-155 | base, count, and word k at offset 9 + 8k, little-endian |
| Layouts.BlockLayout | crates/ioengine/src/packer.rs:219-243 | magic, version 1, id and entry count at 0, 4, 6 and 14, then manifest and payload |
| Layouts.EntryLayout | crates/ioengine/src/packer.rs:228-238 | the path behind its 2-byte length, then offset, size, part and parts |
| Layouts.FrameLayout | crates/cli/src/send.rs:137-140 | a block behind its 8-byte little-endian length |
| Layouts.AttributeLayout | crates/traversal/src/turn.rs:85-91 | type and length in network order, the value, zeros up to a multiple of four |
| Layouts.MessageLayout | crates/traversal/src/turn.rs:93-101 | type and length in network order, the cookie's bytes, the transaction id |

## Left out

- Packing.PackRoundTrip: states the result for files whose part count and number fit the manifest's 4-byte fields; a file above 2^56 bytes is not covered.
- Packer.PackFiles: a path is its UTF-8 form of at most 65535 bytes, which the manifest's 2-byte length can express; the lossy conversion that yields it, and files that cannot be read, are not modelled.
- WriterOrder.AnyOrderOfBlocksRestores: states it for files that fit the manifest's 4-byte fields, as the packing results do.
- EndToEnd.Transfer: needs fewer than 2^64 - 1024 datagrams, where the receiver's 64-bit arithmetic stops.
- Protocol.InvAlways: the sender accepts chunks as long as their numbers stay more than 1024 below 2^64.
- Unpacker.UnpackEntries: cursor and offset arithmetic is unbounded, so a hostile block whose offsets overflow a machine word is outside the model.
- Direct.Reassemble: adding the 8-byte prefix to a hostile length is unbounded arithmetic; the early return when the writer has gone is not modelled.
- Direct.SendDirect: a failed `send` is ignored by the code, so a sent datagram here is one handed to the socket.
- Writer.AsyncWriter.ReceiveAndWrite: which directory or write fails is given per request; the death of the writer thread is not modelled.
- Progress.ExitReachable: it says what the loops can do, not that a scheduler or a network will let them; the application takes what the receiver hands over, and the heartbeat's own period is not modelled.
- Sender.SenderTask.RunOnce: a turn is one ready event; which event a biased select picks is left to the environment (`Progress.Selects` states its priorities), closed channels are not modelled, and one clock reading is used per phase of a turn.
- Sender.SenderTask.SendBatch: the retransmit and packet counters of the statistics are not modelled.
- Session.SessionStats.UpdateRtt: only the RTT fields are modelled; the atomics are plain fields.
- SackManager.Manager.OnPacketReceived: needs sequence numbers below 2^64 - 1 and a base below 2^64 - 1024, where the code's own arithmetic stops.
- Congestion.BandwidthProfiler.EvaluateProbe: real arithmetic; rounding of f64 is not modelled.
- Ice.IceAgent.FormCheckList: the standard library's stable sort is its specification, a stable insertion sort; candidate foundations are not modelled.
- Turn.TurnMsg.BuildWithIntegrity: HMAC-SHA1 and MD5 are an arbitrary function with 20-byte results; transaction ids are given.
- `missing_seqs`, `error_code` and the statistics' ratios: short computations whose members would be easy.
- Sockets, sendmmsg and recvmmsg, buffer pools, io_uring, splice and sendfile, threads and channels: foreign calls.
- The control plane, the session life cycle, forward error correction fields, hole punching, the command line and directory walking: no protocol logic of their own.
- The command line's RUDP mode leaves the SACK channel unconnected; `Protocol` models the wiring described at crates/protocol/src/sender.rs:95-96 and crates/protocol/src/receiver.rs:97-98.
