# Verified model of CHRE

The Context Hub Runtime Environment (CHRE) runs nanoapps on a low-power processor. This project models the
parts of it whose correctness is a matter of whole runs rather than of single calls, and proves what they promise.
`dafny verify dfyconfig.toml` checks everything.

**The CHPP transport** (`chpp/transport.c`) carries datagrams between two processors over a lossy link. `Endpoint.dfy`
says what every call does to an endpoint, one byte and one packet at a time; `Transport.dfy` and `TxQueue.dfy` are the
updates in place, with the block copies, the link buffer and the ring of the C code, proved to do exactly that.
`Crc.dfy` and `Framing.dfy` cover checksums, framing, chunking, noise and aborts. `Arq.dfy` is the agreement between
a sender, a receiver and the packets in flight, and `Network.dfy` puts two endpoints and two FIFO links together.
`Handshake.dfy` and `Reliability.dfy` follow every run from a start or reset of one end: whenever the reset is over
the two ends agree, and each app has been handed a prefix of what the other queued, unless a RESET was repeated at
the wrong moment. `Retry.dfy` says exactly which moments those are. `Progress.dfy` shows that the two ends are never
stuck: the reset can still complete and what is queued can still arrive. `Reception.dfy` says what each kind of packet
does to an endpoint, and `GivingUp.dfy` what a peer that stays silent does: seven transmissions and a reset, three
resets and failure.

**The CHPP app layer** (`chpp/app.c`) caches the earliest request deadline: `AppTimeouts.dfy`.

**The code generator** (`api_parser/`) emits encoders and decoders for API structs: `Codec.dfy` is what the emitted
code computes for any schema, `ApiTypes.dfy` the type graph behind it.

**The CHRE core** (`core/`, `util/`): the reference count of events posted to several loops (`EventRefs.dfy`), the
binary heap (`Heap.dfy`), the timer pool on it (`TimerPool.dfy`), duplicate detection and delivery of reliable
messages, also on the heap (`ReliableMessages.dfy`), the sensor flush queue (`SensorFlush.dfy`), and the merging of
sensor requests (`SensorRequests.dfy`) and of BLE scan requests with their life cycle (`BleRequests.dfy`,
`BleLifecycle.dfy`).

What the environment decides is an input or is chosen freely: packet loss, noise, the choice of the next step, clock
readings (never going backwards), results of allocations and of platform calls, and whether a deferred callback is
accepted. A refused callback is accounted for: timers are then no longer handled on time, and a flush may be left
without completion. Each locked region or event-loop callback is one atomic step.

## What the code does otherwise than it says

Where the code differs from what it says or means to do, the model follows the code.

- `EventRefs.LeakExample`: an event can be lost for good. If the last loop refuses a broadcast event after the loops
  that took it have handled it, the poster drops the last reference, and dropping it there frees nothing.
  `EventRefs.FreedExactlyOnce` shows that this is the only case.
- `TimerPool.CancelAllLeavesOne`: `cancelAllNanoappTimers` can leave a timer behind. It scans the heap backwards, and
  a removal can move a timer it has not seen yet to a position it has passed; `TimerPool.CancelScanLeaves` counts
  them, and `TimerPool.CancelTwo` says when it happens to a nanoapp with two timers.
- `SensorRequests.LatencyWithinCap`: a comment says that the merged latency never exceeds the cap. It can, up to
  twice, when one of the requests has a default latency.
- `SensorRequests.DefaultsMakeOrderMatter`: what the platform is asked for can depend on the order of the requests,
  when an interval and a latency of different requests meet. `SensorRequests.OrderIrrelevantIff` says exactly when.
- `Codec.StringReadsPast`: generated decoders check where an array lies, but not where a string does, and so can read
  past their input. `Codec.UnknownDiscriminator`: a discriminator that selects no member of its union is not refused;
  an assertion fails, or without assertions decoding goes on with a union that is zero. `Codec.DecodeEnds` says
  exactly when each of these happens.
- `AppTimeouts.StaleServiceDeadlinePersists`: when a service deadline has passed and no request has one, the scan
  recalculates the clients' deadline instead.
- `AppTimeouts.StaleCacheReportsEarly`: a failed send leaves the cached deadline of the request that was not sent;
  `AppTimeouts.ExactAfter` shows that this matters exactly if it was the earliest.
- `Retry.NackThenRetryFails`: a NACK queued during a reset replaces the RESET mark, and the packet then sent can pass
  for an ACK. If the RESET is repeated after that, the reset can end with the two ends in disagreement for good.
  `Retry.RetrySafeUnlessRisky` shows when repeating it is safe.
- `TimerPool.ZeroPeriodNeverAdvances` and `TimerPool.ExpiryWraps`: a periodic timer with period zero keeps the expiry
  loop from ending, and a duration that overflows 64 bits puts the expiry into the past while the system timer is
  set for the future.
- The preamble goes out as 0x68, 0x43, which is the two characters of the documentation in the opposite order; and
  a NACK causes no retransmission by itself, only a timeout does.
- `Reception.RepeatedPayload`: a repeated payload is recognised by comparing its number with `expectedSeq - 1` as an
  `int`, so not when `expectedSeq` is zero; it is then answered with a NACK, which acknowledges it all the same.

## Model

| member | source | states |
|---|---|---|
| `Crc.TableIsByteStep` | chpp/platform/shared/crc.c:22-39 | for every register and every byte, the two table look-ups advance the register as eight single-bit division steps by the reflected polynomial do |
| `Crc.ChppCrc32` | chpp/platform/shared/crc.c:22-39 | the table-driven loop computes the bit-at-a-time CRC-32 of the whole buffer, from any starting value |
| `Crc.Chaining` | chpp/transport.c:718-736 | the checksum of the header continued over the payload is the checksum of the two together |
| `Crc.DetectsShortBursts` | chpp/transport.c:718-736 | damage confined to any four consecutive bytes, whatever is before and after, always changes the checksum |
| `Crc.OwnChecksumResidue` | chpp/platform/shared/crc.c:22-39 | any message followed by its own checksum, least significant byte first, has checksum 0x2144DF1C, the residue of the standard CRC-32 |
| `Crc.LeadingZeroCounts` | chpp/platform/shared/crc.c:22-39 | a zero byte put before any message changes its checksum |
| `EndpointState.AbortRxPacket` | chpp/transport.c:395-449 | from any receiver state the receiver is back to waiting for a preamble with consistent bookkeeping |
| `EndpointState.RegisterRxAck` | chpp/transport.c:771-820 | an ACK counts exactly if it is the number after the last, touches only the transmit side, and keeps the acknowledged offset inside the front datagram |
| `EndpointState.EnqueueDatagramLocked` | chpp/transport.c:1222-1267 | queueing touches only the queue and the code to send, and keeps the queue within its 16 slots and free of empty datagrams |
| `EndpointState.EnqueueDatagramOrFail` | chpp/transport.c:1598-1622 | a datagram is accepted exactly if no reset is under way, it is not empty and fewer than 16 are queued; it then goes to the end of the queue and, if that was empty, a plain packet is to be sent; otherwise nothing changes |
| `EndpointState.SendReset` | chpp/transport.c:1937-1972 | announcing a reset touches only the queue, the code to send and the reset state, with and without memory for the datagram |
| `EndpointState.Reset` | chpp/transport.c:1319-1365 | from any state whatever, a reset leaves the receiver idle and both invariants true |
| `EndpointState.ResetTimedOut` | chpp/transport.c:1771-1817 | a reset that times out is retried, and becomes a permanent failure exactly after the last retry |
| `EndpointState.ProcessResetAck` | chpp/transport.c:550-591 | receive and transmit invariants survive a RESET-ACK, expected or stray |
| `EndpointState.Reply` | chpp/transport.c:608-634 | the reply decided on changes nothing but the last ACK sent and the code to send |
| `EndpointState.ProcessRxPacket` | chpp/transport.c:598-651 | receive and transmit invariants survive every checksum-valid packet |
| `EndpointState.FooterDone` | chpp/transport.c:302-387 | after the last footer byte, whatever the packet, the receiver is between packets and the invariants hold |
| `EndpointState.HeaderDone` | chpp/transport.c:207-260 | a header that is too long, or for which there is no memory, or with a payload to follow, leaves the bookkeeping consistent |
| `EndpointState.RxBytes` | chpp/transport.c:1530-1584 | the receive bookkeeping (position in the packet, buffer length, bytes of this packet) and the transmit invariant hold after every byte of every stream |
| `EndpointState.DoWork` | chpp/transport.c:1050-1163 | transmitting, including giving up and starting a reset, keeps both invariants |
| `Framing.RxConcat` | chpp/transport.c:1530-1584 | receiving one stream and then another is receiving the two together |
| `Framing.ChunksConcatenate` | chpp/transport.c:1530-1584 | receiving a stream in chunks is receiving it at once |
| `Framing.ChunkingIrrelevant` | chpp/transport.c:1530-1584 | two ways of cutting the same bytes into chunks end in the same state, delivered datagrams included |
| `Framing.HeaderBulk` | chpp/transport.c:207-260 | copying any number of header bytes at once is the byte-at-a-time automaton |
| `Framing.PayloadBulk` | chpp/transport.c:273-289 | copying any number of payload bytes at once is the byte-at-a-time automaton |
| `Framing.FooterBulk` | chpp/transport.c:302-387 | copying any number of footer bytes at once, up to and including what completes the packet, is the byte-at-a-time automaton |
| `Framing.NoiseIgnored` | chpp/transport.c:160-194 | bytes without a complete preamble change nothing but the position in the preamble |
| `Framing.PreambleFound` | chpp/transport.c:160-194 | after any such noise, even if it ends in half a preamble, the next preamble is found |
| `Framing.AnyFrame` | chpp/transport.c:160-387 | noise, preamble, header, payload and any four footer bytes take an idle receiver to the footer decision with exactly that header, payload and footer loaded |
| `Framing.FrameRoundTrip` | chpp/transport.c:899-988 | a frame built by the transmit path, after any noise without a preamble, is received as exactly the packet it was built from and passes the checksum, for every packet the receiver has room for |
| `Framing.AcceptedStableOver` | chpp/transport.c:207-289 | while no packet completes, the bytes contributed by earlier packets do not change |
| `Framing.AbortRestores` | chpp/transport.c:395-449 | aborting after any part of a packet restores the datagram, its length and the position in it to what they were before the packet |
| `Framing.BurstRejected` | chpp/transport.c:718-736 | header or payload damage within four consecutive bytes never passes the footer comparison |
| `Framing.DamagedPayloadDropped` | chpp/transport.c:302-387 | a frame with such damage in its payload leaves the receiver as it was, but for a queued checksum NACK |
| `Framing.FrameResidue` | chpp/transport.c:718-736 | every frame is consistent as sent: after the preamble its checksum, footer included, is 0x2144DF1C |
| `Framing.WireFormat` | chpp/transport.c:899-988 | where every byte of a frame is: preamble, flags, code, ACK and sequence numbers, the length low byte first, two zero bytes, the payload |
| `Reception.ReceivePlain` | chpp/transport.c:598-694 | the whole effect of a plain packet outside a reset: the ACK is registered, the payload is taken, or delivered, exactly if it has the expected number, and which reply is queued |
| `Reception.ReceiveUnwanted` | chpp/transport.c:608-634 | an unexpected payload outside a reset is answered with a NACK, or with a repeated ACK exactly if its number is the expected one less one as an int, and is not taken |
| `Reception.RepeatedPayload` | chpp/transport.c:618-627 | a repeated payload is answered with a NACK exactly if the expected number is zero |
| `Reception.ReceiveDiscarded` | chpp/transport.c:302-387 | during a reset a packet that is neither RESET nor RESET-ACK changes nothing but the receive buffers |
| `Reception.ReceiveReset` | chpp/transport.c:1319-1365 | a RESET in any state leaves the endpoint as new, expecting the number after the one received, with a RESET-ACK and its configuration queued and the count of resets cleared; without memory for that it is left resetting, with nothing queued |
| `Reception.ReceiveResetAck` | chpp/transport.c:550-591 | a RESET-ACK during a reset ends it, clears the count of resets and takes over both sequence numbers |
| `Reception.ReceiveStrayResetAck` | chpp/transport.c:550-591 | a RESET-ACK outside a reset only drops the datagram being reassembled |
| `Reception.ReceiveWhenFailed` | chpp/transport.c:302-387 | after a permanent failure no undamaged packet but a RESET has any effect beyond the header and footer buffers |
| `Reception.ReceiveLoopback` | chpp/transport.c:302-387 | a loopback packet, whatever its checksum and the state, changes nothing but the receive buffers, where its payload stays |
| `Reception.RefusedHeader` | chpp/transport.c:207-260 | a header announcing more than the link carries, or than there is memory for, ends the packet with its own NACK and nothing else; any other is followed up |
| `Reception.ReceiveStartsNoReset` | chpp/transport.c:302-387 | only a RESET makes an endpoint reset or mark what it sends |
| `GivingUp.Transmits` | chpp/transport.c:1050-1163 | exactly when a packet is sent, that it carries the code, ACK and next piece of the queued datagram, and what is recorded of it |
| `GivingUp.SendsOnce` | chpp/transport.c:1050-1163 | once the link is free again nothing more is sent before an answer or a timeout, exactly if the packet was no RESET or RESET-ACK |
| `GivingUp.ResetStartsOver` | chpp/transport.c:1319-1365 | whatever the state, a reset leaves the endpoint as initialised, but for the header that caused it, the counts, and the announcement |
| `GivingUp.SamePacketAgain` | chpp/transport.c:934-988 | a retransmission has the payload, number and flags of the first transmission |
| `GivingUp.SevenAttempts` | chpp/transport.c:1050-1163 | a payload that is never acknowledged is sent exactly seven times, each time the same; the next time the queue is dropped and a reset with error max-retries is announced |
| `GivingUp.AnnouncesWithoutLimit` | chpp/transport.c:1050-1163 | during a reset the announcement is repeated as often as it is asked for |
| `GivingUp.ThreeResets` | chpp/transport.c:1771-1817 | however often a reset times out unanswered, the link is still resetting, announced again, before the third time, and permanently failed with nothing to send from then on |
| `Arq.ReassembleStream` | chpp/transport.c:934-967 | cutting any datagrams into fragments of any MTU and reassembling them gives the datagrams back |
| `Arq.PrefixReassembles` | chpp/transport.c:659-694 | what has been reassembled from any prefix of the fragments is a prefix of the datagrams |
| `Arq.FlowAck` | chpp/transport.c:771-820 | an ACK, new, repeated or old, keeps sender, receiver and links in agreement, and finds a datagram on the queue whenever it counts |
| `Arq.FlowDeliver` | chpp/transport.c:598-694 | a payload, new, repeated or old, keeps the agreement |
| `Arq.FlowSendData` | chpp/transport.c:1050-1163 | transmitting or retransmitting the pending fragment keeps the agreement |
| `Arq.FlowEnqueue` | chpp/transport.c:1598-1622 | queueing a datagram keeps the agreement |
| `Arq.FlowDeliversPrefix` | chpp/transport.c:598-694 | what the receiver has handed to its app is a prefix of what the sender queued |
| `Arq.FlowCompletes` | chpp/transport.c:997-1022 | and is all of it once the sender's queue is empty |
| `Network.LocalStepOk` | chpp/transport.c:1050-1163 | every step of an endpoint keeps its invariants and sends no packet its peer has no room for |
| `Handshake.FirstResetArrives` | chpp/transport.c:1319-1365 | the first RESET takes the peer, whatever its state, into answering it |
| `Handshake.AnswersPlain` | chpp/transport.c:598-651 | a packet of the resetting end that has lost its RESET mark at most passes for the ACK of the answering end's configuration, and exactly if it carries the number 1 |
| `Handshake.DuringResetDeliverAtB` | chpp/transport.c:598-651 | whatever of the resetting end arrives, RESET or not, the answering end goes on with one flow that starts with the RESET-ACK taken first |
| `Handshake.ResetEnds` | chpp/transport.c:550-591 | the first RESET-ACK taken puts the two ends in agreement, whether or not it is answered at once |
| `Handshake.RetryStartsOver` | chpp/transport.c:1771-1817 | a retry after the other end has stopped answering is a reset from the beginning |
| `Handshake.NackErasesReset` | chpp/transport.c:841-850 | a NACK queued during a reset replaces the RESET mark, and the configuration goes out as a plain payload with the number expected before the reset |
| `Handshake.UnansweredResetAckRepeatsReset` | chpp/transport.c:550-591 | a RESET-ACK that is not answered at once leaves the RESET mark, and working next, with nothing queued in between, sends another RESET, without a payload |
| `Reliability.AgreementRestartsB` | chpp/transport.c:1319-1365 | a RESET that arrives after agreement takes the answering end back to where it was without breaking the agreement |
| `Reliability.InvStep` | chpp/transport.c:538-820 | every step of either endpoint, NACKs during the reset included, and every loss keeps the three-phase invariant: before the peer has seen the reset, while it answers, and in agreement; the only step that needs care is a risky retry |
| `Reliability.AgreementLasts` | chpp/transport.c:598-694 | once reached, agreement lasts through every run until the next reset |
| `Reliability.AgreementDelivers` | chpp/transport.c:598-694 | agreement means that each app has been handed a prefix of what the other queued, all of it once the queue is empty, and that accepted and acknowledged fragments differ by at most one |
| `Reliability.ResetThenReliableDelivery` | chpp/transport.c:538-820 | in every run from a start or a reset of one end, with the other between packets in any state but a reset of its own, anything but a RESET or RESET-ACK in flight, losses, noise, NACKs, retransmissions, repeated RESETs and no risky retry, whenever the reset is over the two ends agree and nothing is lost, repeated or reordered |
| `Reliability.NoWraparoundAmbiguity` | chpp/transport.c:771-820 | comparing 8-bit sequence numbers is comparing the unbounded ones, and no ACK that counts finds an empty queue |
| `Retry.NackMisleads` | chpp/transport.c:841-850 | where the number expected before the reset is 1, a NACK between two transmissions puts a packet behind the RESET that passes for an ACK |
| `Retry.EndsDisagree` | chpp/transport.c:1771-1817 | once the other end has answered and is misled, there is a run after a retry in which the reset ends with one fragment more accepted than sent |
| `Retry.RiskyRetryFails` | chpp/transport.c:1771-1817 | every risky retry has a run after which the reset is over and the two ends disagree, unless the other end is about to give up |
| `Retry.RetrySafeUnlessRisky` | chpp/transport.c:1771-1817 | repeating the RESET is safe, that is, the ends agree whenever the reset is over in any run without a risky retry, if and only if it is not risky: not while a packet that passes for an ACK is behind a RESET or has been or will be taken, with the RESET-ACK still to come |
| `Retry.ExhaustedResets` | chpp/transport.c:1050-1163 | the one risky case not decided, a misled peer that has used up its retries: its next retransmission is the start of its own reset |
| `Retry.RiskyOnlyIfMisleading` | chpp/transport.c:1771-1817 | a retry is never risky while the RESET mark is in place or the number to acknowledge is not 1, which the resetting end can tell by itself |
| `Retry.NackThenRetryFails` | chpp/transport.c:1771-1817 | from every start with that number, a run with one NACK and one retry that ends the reset with the two ends in disagreement |
| `Progress.Round` | chpp/transport.c:934-988 | from agreement with nothing in flight, the next payload of either end can be transmitted, taken or recognised as repeated, and acknowledged |
| `Progress.EverythingCanArrive` | chpp/transport.c:1050-1163 | from every state of agreement, whatever is in flight or lost, all that both ends have queued can still arrive, unless one of them is about to give up |
| `Progress.ResetCanComplete` | chpp/transport.c:550-591 | from every point of every reset, whatever is in flight or lost, the reset can still complete, unless a NACK has erased the mark of the last RESET |
| `TxQueue.TxDatagramQueue.Enqueue` | chpp/transport.c:1222-1267 | the ring refines a queue: a datagram goes to its end exactly if it is not empty and there is a free slot |
| `TxQueue.TxDatagramQueue.Dequeue` | chpp/transport.c:997-1022 | the front datagram goes; an empty ring stays empty |
| `TxQueue.TxDatagramQueue.Clear` | chpp/transport.c:1029-1033 | the ring is empty |
| `TxQueue.TxDatagramQueue.FreeAll` | chpp/transport.c:1336-1348 | the buffers freed on a reset are exactly the pending datagrams, each once |
| `TxQueue.RingMultiset` | chpp/transport.c:1336-1348 | the slots with a length are exactly the pending window, across the wrap of the ring |
| `Transport.ChppTransportState.constructor` | chpp/transport.c:1450-1495 | a new endpoint is the initial one of the specification, resetting with nothing queued, and satisfies both invariants |
| `Transport.ChppTransportState.AbortRxPacket` | chpp/transport.c:395-449 | the update in place is the specified abort |
| `Transport.ChppTransportState.RegisterRxAck` | chpp/transport.c:771-820 | the update in place, dequeueing from the ring included, is the specified one |
| `Transport.ChppTransportState.EnqueueTxDatagramOrFail` | chpp/transport.c:1598-1622 | the update in place is the specified one: accepted exactly if no reset is under way, the datagram is not empty and a slot is free, and then it is last in the ring |
| `Transport.ChppTransportState.ResetTransportContext` | chpp/transport.c:1292-1302 | everything is wiped, and exactly the datagram being received and the queued ones are freed |
| `Transport.ChppTransportState.Reset` | chpp/transport.c:1319-1365 | the update in place is the specified reset |
| `Transport.ChppTransportState.HandleResetTimeout` | chpp/transport.c:1771-1817 | the update in place is the specified retry or failure |
| `Transport.ChppTransportState.ProcessResetAck` | chpp/transport.c:550-591 | the update in place is the specified one |
| `Transport.ChppTransportState.ProcessRxPacket` | chpp/transport.c:598-651 | the update in place is the specified one |
| `Transport.ChppTransportState.RxChecksumIsOk` | chpp/transport.c:718-736 | the chained computation over header and end of the datagram is the comparison with the checksum of the covered bytes |
| `Transport.ChppTransportState.ConsumePreamble` | chpp/transport.c:160-194 | the scanning loop is the automaton on the bytes consumed, and consumes at least one |
| `Transport.ChppTransportState.ConsumeHeader` | chpp/transport.c:207-260 | the block copy is the automaton on the bytes consumed |
| `Transport.ChppTransportState.ConsumePayload` | chpp/transport.c:273-289 | the block copy is the automaton on the bytes consumed |
| `Transport.ChppTransportState.ConsumeFooter` | chpp/transport.c:302-387 | the block copy is the automaton on the bytes consumed |
| `Transport.ChppTransportState.CheckRxPacketTimeout` | chpp/transport.c:1819-1830 | a packet is given up exactly if it has taken longer than the timeout |
| `Transport.ChppTransportState.RxDataCb` | chpp/transport.c:1530-1584 | the consuming loop over any buffer is the byte-at-a-time automaton, after a packet that took too long is given up, and reports exactly whether the receiver is between packets |
| `Transport.ChppTransportState.RxPacketCompleteCb` | chpp/transport.c:1586-1596 | a packet that ends early is given up, with a NACK |
| `Transport.ChppTransportState.DoWork` | chpp/transport.c:1050-1163 | the state change is the specified one, and the link buffer holds exactly the frame of the packet reported |
| `Transport.ChppTransportState.LinkSendDoneCb` | chpp/transport.c:1836-1850 | the link is free again, and nothing else changes |
| `Transport.ChppTransportState.AddFooter` | chpp/transport.c:974-988 | the footer is the checksum of header and payload as they are in the link buffer |
| `AppTimeouts.MinDeadlineExact` | chpp/app.c:1198-1228 | the double scan gives the earliest outstanding deadline, or none |
| `AppTimeouts.TimestampOutgoingOk` | chpp/app.c:920-975 | sending keeps the cached deadline a lower bound, and exact if it was |
| `AppTimeouts.TimestampIncomingOk` | chpp/app.c:977-1057 | a response keeps the cached deadline a lower bound, and exact if it was |
| `AppTimeouts.CloseOpenOk` | chpp/app.c:1236-1282 | closing an endpoint's requests keeps the cached deadline a lower bound, and exact if it was |
| `AppTimeouts.AnsweredOnce` | chpp/app.c:977-1057 | a response is taken exactly if its request is outstanding under that transaction; it is taken once, and no other request changes |
| `AppTimeouts.RequestThenResponse` | chpp/app.c:920-1057 | for every request and later response: the response is taken exactly if the transactions agree, and counts as a timeout exactly if it comes after the request time plus timeout, which wraps at 64 bits |
| `AppTimeouts.CloseOpenEach` | chpp/app.c:1236-1282 | what closing makes of every request: the endpoint's open ones are cleared or answered, or stay when there is no memory for the answer; all others, and other endpoints' requests, are untouched |
| `AppTimeouts.CacheSound` | chpp/app.c:920-1057 | in every run, recalculations included, the cached deadline is no later than any outstanding one, and is the earliest of them in every run without failed sends and abandoned waits |
| `AppTimeouts.ExactAfter` | chpp/app.c:1119-1127 | from an exact cache, an operation leaves an exact one if and only if it is no failed send or abandoned wait of the earliest deadline of all |
| `AppTimeouts.ExactInHarmlessRuns` | chpp/app.c:920-1057 | the cache is exact throughout a run if and only if no failed send and no abandoned wait in it has a deadline before all others |
| `AppTimeouts.PickedRequestIsDue` | chpp/transport.c:1375-1444 | with an exact cache the request picked as timed out is the one that is due; otherwise it is due exactly if some deadline has passed |
| `AppTimeouts.StaleCacheReportsEarly` | chpp/app.c:1119-1127 | after a failed send, a request can be reported as timed out before its deadline |
| `AppTimeouts.StaleServiceDeadlinePersists` | chpp/transport.c:1417-1417 | a stale service deadline is not refreshed by the scan that runs when it has passed, because the clients' deadline is recalculated in its place, and keeps the worker from sleeping |
| `AppTimeouts.AppState.RecalculateNextTimeout` | chpp/app.c:1198-1228 | the nested loops compute the specified minimum, for one endpoint type and not the other |
| `AppTimeouts.AppState.TimestampOutgoingRequest` | chpp/app.c:920-975 | the update in place is the specified one |
| `AppTimeouts.AppState.TimestampIncomingResponse` | chpp/app.c:977-1057 | the update in place and the verdict are the specified ones, for every request state |
| `AppTimeouts.AppState.SendTimestampedRequestOrFail` | chpp/app.c:1097-1130 | a failed send undoes the request's state and nothing else |
| `AppTimeouts.AppState.CloseOpenRequests` | chpp/app.c:1236-1282 | the loop closes every open request of the endpoint and recalculates exactly if there was one |
| `AppTimeouts.AppState.GetRequestTimeout` | chpp/transport.c:1375-1444 | the scan finds the earliest request with a deadline, and recalculates exactly if a deadline had passed and there is none |
| `AppTimeouts.AppState.GetNextTimerTimeoutNs` | chpp/app.c:1300-1313 | the earliest timer of all clients and services, or none |
| `AppTimeouts.AppState.GetTimeUntilNextDoWorkNs` | chpp/transport.c:1658-1698 | the worker sleeps exactly until the earliest deadline of an outstanding request, of a timer or of the transport: not at all if it has passed, and for ever exactly if there is none |
| `Codec.MemberRoundTrip` | api_parser/chpp_code_generator.py:446-558 | decoding an encoded member of fixed size, nested structs and unions included, gives its value with fixed_value members at their fixed value |
| `Codec.StructRoundTrip` | api_parser/chpp_code_generator.py:560-631 | the same for all members of a struct |
| `Codec.ItemsRoundTrip` | api_parser/chpp_code_generator.py:400-440 | the same for every element of a variable-length array |
| `Codec.CStringRoundTrip` | api_parser/chpp_code_generator.py:378-398 | a string without NUL survives being written with one |
| `Codec.TailAt` | api_parser/chpp_code_generator.py:400-440 | the array or string of every member is found at its recorded offset, within the 16-bit range |
| `Codec.RoundTrip` | api_parser/chpp_code_generator.py:704-732 | for every schema of the supported class and every value whose size fits 16 bits, decoding the encoding gives the value, with fixed_value members at their fixed value |
| `Codec.Supported` | api_parser/chpp_code_generator.py:446-558 | which members the class admits: of fixed width or value, strings, arrays of anything of fixed size counted by another member, and such structs without strings and arrays inside others |
| `Codec.TailsDisjoint` | api_parser/chpp_code_generator.py:400-440 | arrays and strings lie behind the struct and do not overlap |
| `Codec.InactiveUnionBytesZero` | api_parser/chpp_code_generator.py:508-558 | the bytes of a union past its selected member are zero |
| `Codec.EncodedSize` | api_parser/chpp_code_generator.py:273-329 | the computed size is the header plus exactly the bytes that encoding produces |
| `Codec.Encode` | api_parser/chpp_code_generator.py:704-732 | the generated encoder fills a buffer of exactly the computed size with the specified bytes, and the final vlaOffset is that size |
| `Codec.DecodeEnds` | api_parser/chpp_code_generator.py:514-842 | exactly when decoding gives a value, is refused, reads past its input or fails an assertion: the first bad member decides, an array outside the input or not of the size its count says, a string outside the input, or a union whose discriminator selects nothing |
| `Codec.MemberEnds` | api_parser/chpp_code_generator.py:446-558 | members of fixed size are always decoded, unless a discriminator selects nothing and assertions are on |
| `Codec.StringReadsPast` | api_parser/chpp_code_generator.py:771-789 | four bytes of input on which decoding reads past their end |
| `Codec.UnknownDiscriminator` | api_parser/chpp_code_generator.py:554-556 | two bytes of input whose discriminator selects nothing: an assertion fails, or without assertions the union is zero and decoding succeeds |
| `Codec.Decode` | api_parser/chpp_code_generator.py:771-842 | the loop over the members comes to the specified end |
| `ApiTypes.ApiParser.CollectTypes` | api_parser/api_parser.py:76-118 | the work list collects exactly the types reachable from the roots, and fails exactly if one of them is not defined |
| `ApiTypes.ApiParser.LinkReverse` | api_parser/api_parser.py:120-124 | each type learns exactly in which types it appears |
| `ApiTypes.ApiParser.MarkAround` | api_parser/api_parser.py:126-141 | the propagation without a visited set terminates on every acyclic graph and marks everything around the listed types |
| `ApiTypes.ApiParser.BubbleUp` | api_parser/api_parser.py:126-141 | the flagged types are the least set that holds those flagged before and is closed under containment |
| `ApiTypes.ApiParser.Parse` | api_parser/api_parser.py:71-141 | the result holds exactly the reachable types, each flagged exactly if a variable-length array lies inside it at any depth |
| `ApiTypes.FlagMeaning` | api_parser/api_parser.py:126-141 | flagged is the same as having, or nesting at any depth, a type with a variable-length array of its own |
| `ApiTypes.ParentsWeigh` | api_parser/api_parser.py:126-141 | a type weighs more than all types around it, so each step of the propagation shrinks the work list |
| `ApiTypes.ConversionGenerator.GenConversionFunction` | api_parser/chpp_code_generator.py:560-631 | nothing is emitted twice, and everything the type's function needs is emitted before it |
| `ApiTypes.ConversionGenerator.GenConversionFunctions` | api_parser/chpp_code_generator.py:633-639 | all functions the roots need are emitted, once each, in call order |
| `ApiTypes.CalleesFirst` | api_parser/chpp_code_generator.py:560-631 | a function that another calls, directly or through a union, comes before it and only once |
| `EventRefs.InvStep` | core/event_loop_manager.cc:128-170 | every atomic step of the poster, a loop or a deferred free keeps the reference count equal to the references outstanding |
| `EventRefs.NeverFreedTwiceNorTouchedAfter` | core/event_loop.cc:701-757 | on every interleaving the event is freed at most once, never used after that, and its count never goes below zero |
| `EventRefs.FreedExactlyOnce` | core/event_loop_manager.cc:128-170 | when everything has drained, the event has been freed exactly once, unless the last loop refused it after all loops that took it were done with it; then it was never freed |
| `EventRefs.FreedWhenPostedFirst` | core/event_loop_manager.cc:128-170 | it is freed exactly once if no loop releases it before posting is through, and if no loop refuses it |
| `EventRefs.LeakExample` | core/event_loop_manager.cc:210-217 | a run of two loops in which the event is never freed |
| `EventRefs.RunsDrain` | core/event_loop.cc:701-757 | no run goes on for ever, and one that cannot go on has drained |
| `Heap.TopIsFirst` | util/include/chre/util/heap_impl.h:31-108 | the top of a heap has the smallest key |
| `Heap.SiftUpRestores` | util/include/chre/util/heap_impl.h:31-45 | sifting up restores a heap with one element too small for its place |
| `Heap.SiftDownRestores` | util/include/chre/util/heap_impl.h:47-74 | sifting down restores a heap with one element too large for its place |
| `Heap.PushKeepsHeap` | util/include/chre/util/priority_queue_impl.h:54-62 | pushing keeps the heap and adds exactly the element |
| `Heap.RemoveKeepsHeap` | util/include/chre/util/heap_impl.h:95-108 | removing at any position, by sifting up or down as needed, keeps the heap and takes exactly that element |
| `Heap.PriorityQueue.SiftUp` | util/include/chre/util/heap_impl.h:31-45 | the loop computes the specified sift |
| `Heap.PriorityQueue.SiftDown` | util/include/chre/util/heap_impl.h:47-74 | the loop computes the specified sift of all but the last element |
| `Heap.PriorityQueue.Push` | util/include/chre/util/priority_queue_impl.h:54-62 | the update in place is the specified push, or none without memory |
| `Heap.PriorityQueue.Pop` | util/include/chre/util/priority_queue_impl.h:96-102 | the top goes; an empty queue stays empty |
| `Heap.PriorityQueue.Remove` | util/include/chre/util/priority_queue_impl.h:104-114 | the update in place is the specified removal |
| `TimerPool.TimerPool.InsertTimerRequest` | core/timer_pool.cc:222-234 | a request is stored exactly if its quota, for nanoapps or for the system, and the memory allow it; the count of nanoapp timers stays right |
| `TimerPool.TimerPool.RescheduleAndRemoveExpiredTimers` | core/timer_pool.cc:316-328 | exactly the expired request is replaced by its next expiry, or removed; the re-insertion never fails the quota |
| `TimerPool.TimerPool.HandleExpiredTimersAndScheduleNext` | core/timer_pool.cc:275-314 | the loop terminates, leaves no expiry in the past, and the system timer armed for exactly the earliest finite expiry; it loses no nanoapp timer, changes histories only by expiries, and tells exactly whether there was one |
| `TimerPool.TimerPool.ExpireTop` | core/timer_pool.cc:279-301 | an expiry posts the timer's callback, if the loop takes it, and every expiry stays accounted for: delivered, in flight, or dropped |
| `TimerPool.TimerPool.GenerateUniqueTimerHandle` | core/timer_pool.cc:187-199 | the search ends, with a valid handle that no request has |
| `TimerPool.TimerPool.GenerateTimerHandle` | core/timer_pool.cc:169-185 | also before the handles wrap around, where nothing is searched, the new handle is one that no request has |
| `TimerPool.TimerPool.SetTimer` | core/timer_pool.cc:89-127 | refused exactly if quota or memory is exhausted; otherwise the timer has a fresh handle, no other timer is affected, no expiry can be missed that could not before, and the system timer is not set before the earliest |
| `TimerPool.TimerPool.RemoveTimerRequest` | core/timer_pool.cc:248-263 | exactly the request goes, no expiry is missed, and the system timer is set for exactly the next expiry if the first timer went, and left alone otherwise |
| `TimerPool.TimerPool.CancelTimer` | core/timer_pool.cc:129-149 | succeeds exactly if the caller owns a timer with the handle, which then is gone |
| `TimerPool.TimerPool.HandleTimerExpiredCallback` | core/timer_pool.cc:359-386 | the event is delivered exactly if the timer is still pending, with the cookie it was set with; a one-shot timer is then gone, and a cancelled one is never delivered |
| `TimerPool.TimerPool.HandleSystemTimerCallback` | core/timer_pool.cc:342-357 | the fired system timer leaves a tick to be handled if the event loop takes it; if not, timers are still handled on time exactly if another tick is waiting or none is pending |
| `TimerPool.TimerPool.HandleTick` | core/timer_pool.cc:265-314 | after the tick no expiry is in the past and the system timer is set for the next one, neither later nor earlier |
| `TimerPool.TimerPool.CancelAllNanoappTimers` | core/timer_pool.cc:70-87 | as many timers of the nanoapp go as are counted, namely those the backward scan comes across; each of its timers is marked as cancelled or still there, and no other nanoapp's timer is marked |
| `TimerPool.ExpiryKeeps` | core/timer_pool.cc:316-328 | one expiry keeps every pending request where its history says, handles distinct, and no expiry early |
| `TimerPool.InsertOnTime` | core/timer_pool.cc:110-124 | comparing handles with the new top tells whether the system timer must be set, whatever ties there are |
| `TimerPool.OneShotDeliveredOnce` | core/timer_pool.cc:359-386 | a one-shot timer is delivered at most once, counting the callback in flight, if no handle is reissued while a callback for it is in flight |
| `TimerPool.PeriodicDoesNotDrift` | core/timer_pool.cc:316-328 | a periodic timer has expired exactly as often as whole periods have passed since it was set, and its k-th expiry is at start plus k periods, however late each was noticed |
| `TimerPool.ExpiryWraps` | core/timer_pool.cc:99-122 | setting the system timer for the duration of a new first timer covers the queue exactly if clock plus duration fits 64 bits; otherwise that timer is overdue already |
| `TimerPool.ZeroPeriodNeverAdvances` | core/timer_pool.cc:273-328 | with an expired periodic timer of period zero in the queue, every round of the expiry loop leaves it there and an expired timer on top, so that the loop never ends |
| `TimerPool.RoundAdvances` | core/timer_pool.cc:273-328 | a round for any other timer brings the end of the loop nearer |
| `TimerPool.RemovedNoneFrom` | core/timer_pool.cc:76-84 | a removal leaves one of the nanoapp's timers where the scan has been exactly if the parent's is one of them and expires after the last of the queue, which takes its place |
| `TimerPool.CancelScanLeaves` | core/timer_pool.cc:70-87 | exactly so many timers survive as removals move down past the scan, less those they move up again |
| `TimerPool.CancelScanComplete` | core/timer_pool.cc:70-87 | cancelling all timers of a nanoapp is complete if and only if that count is zero |
| `TimerPool.CancelTwo` | core/timer_pool.cc:70-87 | of a nanoapp's two timers one survives if and only if it is the parent of the other in the heap and expires after the last of the queue |
| `TimerPool.CancelAllApart` | core/timer_pool.cc:70-87 | a nanoapp loses all its timers, however many, if none of them lies above another in the heap |
| `TimerPool.CancelAllLeavesOne` | core/timer_pool.cc:70-87 | a family of queues in which one of a nanoapp's two timers survives the cancellation of all |
| `TimerPool.CancelAllLeavesOneExample` | core/timer_pool.cc:70-87 | the family is not empty |
| `ReliableMessages.DuplicateMessageDetector.FindLocked` | util/duplicate_message_detector.cc:86-100 | the search, from either end, finds a record with the key exactly if there is one |
| `ReliableMessages.DuplicateMessageDetector.AddLocked` | util/duplicate_message_detector.cc:72-84 | the new record is the one found again, also after the heap has been re-ordered |
| `ReliableMessages.DuplicateMessageDetector.FindOrAdd` | util/duplicate_message_detector.cc:25-45 | a duplicate is reported exactly if there is a record with the key, or no memory for one, with the error on record |
| `ReliableMessages.DuplicateMessageDetector.FindAndSetError` | util/duplicate_message_detector.cc:47-58 | exactly the record with the key gets the error |
| `ReliableMessages.DuplicateMessageDetector.RemoveOldEntries` | util/duplicate_message_detector.cc:60-70 | exactly the records that have timed out go |
| `ReliableMessages.HostCommsManager.ShouldSendReliableMessageToNanoapp` | core/host_comms_manager.cc:574-600 | a duplicate is answered with the outcome on record and never tried again |
| `ReliableMessages.HostCommsManager.DeliverNanoappMessageFromHost` | core/host_comms_manager.cc:367-402 | a reliable message is handed over exactly if its nanoapp is there and it is not on record; it always gets a status, and a duplicate gets the outcome on record; deliveries of the same message are at least the timeout apart; and no outcome on record invites another try |
| `ReliableMessages.SpacedAfterNew` | core/host_comms_manager.cc:367-402 | a message that is not on record was last delivered at least the timeout ago |
| `ReliableMessages.RememberedAfterDrop` | util/duplicate_message_detector.cc:60-70 | dropping what has timed out forgets no delivery within the timeout |
| `SensorFlush.SensorRequestManager.FlushAsync` | core/sensor_request_manager.cc:427-448 | a flush is accepted and stays queued, in last place, or is with the platform, or is refused without a trace: exactly for a wrong sensor, a full queue, a sensor switched off, a passed deadline or a refusal by the platform |
| `SensorFlush.SensorRequestManager.QueueAndMake` | core/sensor_request_manager.cc:439-444 | a flush that cannot be made leaves the queue, the sensors and what is accepted as they were |
| `SensorFlush.SensorRequestManager.MakeFlushRequest` | core/sensor_request_manager.cc:934-995 | a request is handed to the platform only if it is the sensor's first and none is pending, with an error exactly for a sensor switched off, a deadline that has passed or a refusal by the platform, and is then watched by a timer set for its deadline |
| `SensorFlush.SensorRequestManager.CompleteFlushRequestAtIndex` | core/sensor_request_manager.cc:718-730 | exactly one completion for exactly that request, and the sensor is free if it was active |
| `SensorFlush.SensorRequestManager.DispatchNextFlushRequest` | core/sensor_request_manager.cc:732-745 | the erase-while-iterating loop ends with the sensor's first request active, or none queued and none pending; a request fails only for a sensor switched off, a deadline that has passed or a refusal by the platform |
| `SensorFlush.SensorRequestManager.HandleFlushCompleteEventSync` | core/sensor_request_manager.cc:754-763 | the sensor's first request completes with the given code and its timer is off; others of the sensor fail only for a cause; other sensors are not affected, and without a request nothing happens |
| `SensorFlush.SensorRequestManager.HandleFlushCompleteEvent` | core/sensor_request_manager.cc:477-502 | the timer is cancelled with the completion on its way, or with the sensor recorded as one whose completion the event loop did not take |
| `SensorFlush.SensorRequestManager.HandleFlushCompleteCallback` | core/sensor_request_manager.cc:489-495 | the deferred completion completes the sensor's first request, or changes nothing if there is none |
| `SensorFlush.SensorRequestManager.HandleFlushTimeout` | core/sensor_request_manager.cc:953-971 | a timeout, also one that comes after the flush it was set for, completes the sensor's first request as timed out, or nothing if there is none |
| `SensorFlush.SensorRequestManager.CancelFlushRequests` | core/sensor_request_manager.cc:798-814 | exactly the cancelled requests complete, in order, as disabled; none of them is left; the next one is dispatched if the active one went, and any other completion is a request that could not be made |
| `SensorFlush.EraseLater` | core/sensor_request_manager.cc:718-730 | erasing a request that is not the sensor's first leaves the first in place and active |
| `SensorFlush.EraseFirst` | core/sensor_request_manager.cc:718-730 | erasing the first leaves none active |
| `SensorFlush.EraseConserves` | core/sensor_request_manager.cc:718-730 | completing a request keeps every accepted flush queued or completed exactly once |
| `SensorRequests.MakeRequest` | core/sensor_request.cc:46-62 | the capped request is one whose interval and latency can be added without overflow |
| `SensorRequests.MergeIsSafe` | core/sensor_request.cc:76-139 | merging requests with any mix of defaults neither overflows nor underflows and gives such a request again |
| `SensorRequests.FoldIsSafe` | core/sensor_request.cc:76-139 | nor does any merge while folding over any list |
| `SensorRequests.FoldMeans` | core/sensor_request.cc:76-139 | without defaults, the result has the shortest interval, the shortest batch interval, the highest mode and the bias of any, with the latency within the cap; requests that are off do not count |
| `SensorRequests.FoldMadeOf` | core/sensor_request.cc:76-139 | whatever is default, the result has the shortest interval, the highest mode and the bias of any, and a batch interval that is at most that of every full request and is that of one of them or of an interval and a latency from different requests; before there is one, the shortest latency |
| `SensorRequests.FoldOrderIrrelevant` | core/sensor_request.cc:76-139 | requests that agree give the same result in every order |
| `SensorRequests.OrderIrrelevantIff` | core/sensor_request.cc:76-139 | the result is the same in every order if and only if the requests agree: none has only an interval, or none only a latency, or some full request batches no longer than any interval and latency of such requests together, or there is no full request and those intervals are all the same and those latencies are |
| `SensorRequests.DisagreeingOrders` | core/sensor_request.cc:76-139 | otherwise, two orders with different batch intervals |
| `SensorRequests.DefaultsMakeOrderMatter` | core/sensor_request.cc:90-98 | three requests whose merged latency is 3 or 110, depending on their order |
| `SensorRequests.LatencyWithinCap` | core/sensor_request.cc:99-109 | exactly when the merged latency of two requests stays within the cap |
| `SensorRequests.DefaultsExceedCap` | core/sensor_request.cc:99-109 | two requests whose merged latency is twice the cap |
| `SensorRequests.MaximalRequest.MergeWith` | core/sensor_request.cc:76-139 | the update in place is the specified merge, no branch is missing, and the result tells exactly whether anything changed |
| `SensorRequests.SensorRequestMultiplexer.UpdateMaximalRequest` | core/include/chre/core/request_multiplexer_impl.h:114-129 | the cached request becomes the merge of all stored ones, and the result tells exactly whether it changed |
| `SensorRequests.SensorRequestMultiplexer.AddRequest` | core/include/chre/core/request_multiplexer_impl.h:25-39 | merging the new request into the cached one is merging all again |
| `SensorRequests.SensorRequestMultiplexer.UpdateRequest` | core/include/chre/core/request_multiplexer_impl.h:57-67 | the cached request stays the merge of all stored ones |
| `SensorRequests.SensorRequestMultiplexer.RemoveRequest` | core/include/chre/core/request_multiplexer_impl.h:81-91 | the cached request stays the merge of all stored ones |
| `BleRequests.AddMissingCovers` | core/ble_request.cc:126-143 | the merged filter list covers exactly what one of the two lists covers, up to matching |
| `BleRequests.AddMissingExtends` | core/ble_request.cc:126-143 | merging only appends, and adds no duplicate to a list without |
| `BleRequests.FoldMeans` | core/ble_request.cc:99-162 | the result has the highest mode, the shortest delay and the lowest threshold of the enabled requests, and lists without duplicates that cover exactly the filters they ask for |
| `BleRequests.FoldOrderIrrelevant` | core/ble_request.cc:99-162 | the order of the requests makes no difference to mode, delay, threshold, what is covered and how many filters there are |
| `BleRequests.MergedAlike` | core/ble_request.cc:164-191 | requests that are equivalent stay so when the same request is merged into both |
| `BleRequests.FoldWithout` | core/ble_request_multiplexer.cc:71-87 | a disabled request makes no difference to the merge |
| `BleRequests.AddMissingFilters` | core/ble_request.cc:126-143 | the nested loops compute the specified list, and the result tells exactly whether it grew |
| `BleRequests.MaximalRequest.MergeWith` | core/ble_request.cc:99-162 | the update in place is the specified merge, and the result tells exactly whether anything changed |
| `BleLifecycle.IsEquivalentTo` | core/ble_request.cc:164-191 | the loops decide equivalence: both enabled, equal parameters, filters pairwise matching |
| `BleLifecycle.BleRequestMultiplexer.FindRequest` | core/ble_request_multiplexer.cc:27-38 | finds a request of the nanoapp exactly if there is one |
| `BleLifecycle.BleRequestMultiplexer.UpdateMaximalRequest` | core/include/chre/core/request_multiplexer_impl.h:114-129 | the cached request is alike to the merge of all stored ones, and the result tells exactly whether they were not equivalent before |
| `BleLifecycle.BleRequestMultiplexer.AddRequest` | core/include/chre/core/request_multiplexer_impl.h:41-55 | merging the new request into the cached one keeps it alike to the merge of all |
| `BleLifecycle.BleRequestMultiplexer.UpdateRequest` | core/include/chre/core/request_multiplexer_impl.h:69-79 | the cached request stays alike to the merge of all stored ones |
| `BleLifecycle.BleRequestMultiplexer.RemoveRequests` | core/ble_request_multiplexer.cc:49-69 | exactly the requests with the status go, and the cached request follows |
| `BleLifecycle.BleRequestMultiplexer.RemoveDisabledRequests` | core/ble_request_multiplexer.cc:71-87 | exactly the disabled, applied requests go, and the cached request is right without being recomputed |
| `BleLifecycle.ValidateParams` | core/ble_request_manager.cc:691-703 | the nested loops decide whether every filter of an enabled request is valid |
| `BleLifecycle.ValidMeansShowable` | core/ble_request_manager.cc:691-703 | a filter is valid exactly if its type is supported, it is not empty, and there is data that shows its bytes under its mask |
| `BleLifecycle.BleRequestManager.Configure` | core/ble_request_manager.cc:190-229 | afterwards exactly this request is stored for the nanoapp, or none if it was a stop with nothing to stop, was refused or failed, and those of other nanoapps are untouched; at most one request per nanoapp; every call has exactly one result, unless its request is stored and not applied, or it returned false, or it is a stop that finds nothing to stop while the platform is busy; without a platform request in progress all stored requests are applied; the platform is asked, for the scan all requests come to, exactly if it is idle and the merged request has changed |
| `BleLifecycle.BleRequestManager.HandleExistingRequest` | core/ble_request_manager.cc:44-56 | a request about to be replaced that has had no result gets one, once |
| `BleLifecycle.BleRequestManager.RejectDisabled` | core/ble_request_manager.cc:58-74 | with the setting off the call gets its result at once and the nanoapp's stored request goes |
| `BleLifecycle.BleRequestManager.UpdateRequests` | core/ble_request_manager.cc:76-92 | the request replaces the nanoapp's or is added, if there is memory; a stop without one is not stored; the result tells exactly whether the merged request changed |
| `BleLifecycle.BleRequestManager.ApplyNow` | core/ble_request_manager.cc:205-224 | with the platform idle, the call gets its result now, or the platform is asked for the scan all requests come to, or the call fails and leaves nothing behind |
| `BleLifecycle.BleRequestManager.StoreAndApply` | core/ble_request_manager.cc:202-224 | the rest of a call with valid parameters that the setting allows: while the platform is busy it is not asked, otherwise it is asked exactly if the merged request changed |
| `BleLifecycle.BleRequestManager.ControlPlatform` | core/ble_request_manager.cc:231-259 | the platform is asked for the merge of all stored requests, or to stop if there is none or the setting is off, and no request loses or gains a result |
| `BleLifecycle.BleRequestManager.HandlePlatformChangeSync` | core/ble_request_manager.cc:298-342 | every request that was with the platform gets exactly one result, with the platform's verdict, in order, and is applied or removed; the scan recorded as active is the one asked for exactly if the platform took it; and what was missed meanwhile is made up for |
| `BleLifecycle.BleRequestManager.FinishPlatformChange` | core/ble_request_manager.cc:328-339 | requests that waited are dispatched or fail with one result each; then no resync or setting change is pending: the platform has been asked for the scan wanted, or is in the wanted state, or CHRE aborts |
| `BleLifecycle.BleRequestManager.DispatchOrResync` | core/ble_request_manager.cc:328-332 | the platform is asked exactly if requests waited and the setting allows them, or none did and a resync was missed after a failed change; a refused resync is fatal |
| `BleLifecycle.BleRequestManager.AnswerAll` | core/ble_request_manager.cc:309-317 | exactly the requests with the status get a result, once each, in order |
| `BleLifecycle.BleRequestManager.DispatchPendingRequests` | core/ble_request_manager.cc:344-360 | the waiting requests go to the platform together, or each gets one result, saying why, and is removed |
| `BleLifecycle.BleRequestManager.UpdatePlatformRequest` | core/ble_request_manager.cc:574-589 | the platform is asked exactly if forced, or if it scans and should not or should and does not; a refusal is fatal; no request changes or gets a result |
| `BleLifecycle.BleRequestManager.OnSettingChanged` | core/ble_request_manager.cc:563-572 | while the platform is busy the change is only recorded; otherwise the platform is asked exactly if it should start or stop scanning |
| `BleLifecycle.BleRequestManager.HandleRequestStateResyncCallbackSync` | core/ble_request_manager.cc:404-410 | while the platform is busy the resync is only recorded; otherwise the platform is asked again, and a refusal is fatal |
| `BleLifecycle.AnswerOne` | core/ble_request_manager.cc:362-371 | a result for an open call closes it and no other |

## Left out

- Transport loopback packets are dropped unprocessed; loopback is a diagnostic path.
- Resets started by both ends at once, and giving up a payload after the last retry, which starts a new reset:
  a run ends where a second reset begins.
- `Reliability.ResetThenReliableDelivery`: assumes that the configuration datagram fits one packet and that
  allocations succeed. A failed one for a received packet acts as a loss and a NACK; one for the configuration of a
  reset leaves the endpoint resetting with nothing to send (`Reception.ReceiveReset`), from which it only gets by
  another reset, and is not part of the runs. Nor does a run start in the middle of a packet.
- `Retry.RetrySafeUnlessRisky`: does not decide the case of a misled peer that has used up its retries; its next
  retransmission starts a reset of its own (`Retry.ExhaustedResets`), which is where a run ends.
- `Progress.EverythingCanArrive`, `Progress.ResetCanComplete`: that it can happen, not that every fair schedule makes
  it happen.
- `AppTimeouts.AppState.GetTimeUntilNextDoWorkNs`: the transport's own TX, RX and reset timeouts are one input.
- `Codec.RoundTrip`: arrays and strings are members of the top-level struct only, as the generated size function
  supports no others; schemas with strings but without arrays are covered too, though the generator emits the extra
  parameters only for structs with arrays.
- `Codec.DecodeEnds`: failed allocations; and a string that is not terminated within its length, which is for whoever
  uses it to find.
- `Codec.Encode`: values whose discriminator selects a member of the union; for others the encoder fails an assertion.
- `ApiTypes.ApiParser.Parse`: graphs without cycles only; that the propagation does not end on a cycle around a
  flagged type is not shown.
- `TimerPool.TimerPool.SetTimer`: requires a positive period and a clock plus duration below 2^64 - 1; two lemmas
  show what happens otherwise. The system timer is taken to be set at the instant of the last clock reading.
- `TimerPool.OneShotDeliveredOnce`: assumes that no handle is given out while a callback for it is in flight, which
  takes 2^32 timers.
- `TimerPool.CancelScanComplete`: for a nanoapp with more than two timers, some above others, the condition is a
  count over the scan itself.
- `ReliableMessages.DuplicateMessageDetector.RemoveOldEntries`: the sum of timestamp and timeout does not overflow.
- `SensorFlush.SensorRequestManager.HandleFlushTimeout`: stale completions and timeouts may close a later request
  early, as the source notes; that each request completes once holds regardless.
- `BleLifecycle.BleRequestManager.Configure`: registration of nanoapps for broadcast events, request logs and scan
  status events; a fatal error is recorded as a flag.
- Events: the two priority lanes, distribution to nanoapps and the event pool itself.
- Link, mutex and notifier implementations, logging, debug dumps, settings, and the GNSS, WiFi, WWAN, audio, message
  hub, data flow and BLE socket managers.
- Naming and formatting in the code generator, and `_sorted_structs`.
