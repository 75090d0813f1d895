/** What receiving one undamaged packet does, by packet attribute and reset state. */
module Reception {
  import opened Bytes
  import opened EndpointState
  import opened Framing

  /** The packet's payload is the one the receiver is waiting for. */
  predicate Wanted(e: Endpoint, p: Packet) {
    p.payload != [] && p.seqNo == e.expectedSeq
  }

  predicate IsPlain(p: Packet) {
    Attr(p.packetCode) !in {ATTR_RESET, ATTR_RESET_ACK, ATTR_LOOPBACK_REQUEST, ATTR_LOOPBACK_RESPONSE}
  }

  lemma LoadedHeader(e: Endpoint, p: Packet)
    requires Idle(e) && |p.payload| < 0x1_0000
    ensures var h := Loaded(e, p).rxHeader;
            && h[0] == p.flags && h[1] == p.packetCode && h[2] == p.ackSeq && h[3] == p.seqNo
            && RxLength(Loaded(e, p)) == |p.payload|
  {
  }

  ghost predicate PlainOutcome(env: Env, e: Endpoint, p: Packet, r: Endpoint)
    requires env.Valid()
  {
    var e1 := RegisterRxAck(env, e, p.ackSeq).0;
    var got := p.ackSeq == Successor(e.receivedAckSeq);
    var repeated := p.payload != [] && p.seqNo as int == e.expectedSeq as int - 1;
    && r.receivedAckSeq == e1.receivedAckSeq && r.txQueue == e1.txQueue
    && r.ackedLocInDatagram == e1.ackedLocInDatagram && r.txAttempts == e1.txAttempts
    && r.resetState == e.resetState && r.linkBusy == e.linkBusy
    && r.expectedSeq == (if Wanted(e, p) then Successor(e.expectedSeq) else e.expectedSeq)
    && r.rxDatagram == (if !Wanted(e, p) then e.rxDatagram
                        else if p.flags % 2 == 1 then e.rxDatagram + p.payload else [])
    && r.delivered == (if Wanted(e, p) && p.flags % 2 == 0
                       then e.delivered + [e.rxDatagram + p.payload] else e.delivered)
    && (r.packetCodeToSend == e.packetCodeToSend || Attr(r.packetCodeToSend) == ATTR_NONE)
    && (Wanted(e, p) || (got && e1.txQueue != []) ==> Attr(r.packetCodeToSend) == ATTR_NONE)
    && r.sentAckSeq == (if repeated then Predecessor(e.sentAckSeq) else e.sentAckSeq)
    && r.packetCodeToSend == (if repeated then ERROR_NONE
                              else if p.payload != [] && !Wanted(e, p) then ERROR_ORDER
                              else if Wanted(e, p) || (got && e1.txQueue != []) then ERROR_NONE
                              else e.packetCodeToSend)
  }

  /** Registering an ACK reads and writes only the transmit side. */
  lemma RegisterFrame(env: Env, e: Endpoint, l: Endpoint, ackSeq: byte)
    requires env.Valid()
    requires l.receivedAckSeq == e.receivedAckSeq && l.txQueue == e.txQueue
    requires l.ackedLocInDatagram == e.ackedLocInDatagram && l.txAttempts == e.txAttempts
    ensures var (e1, got) := RegisterRxAck(env, e, ackSeq);
            var (l1, got') := RegisterRxAck(env, l, ackSeq);
            && got == got'
            && l1 == l.(receivedAckSeq := e1.receivedAckSeq, txQueue := e1.txQueue,
                        ackedLocInDatagram := e1.ackedLocInDatagram, txAttempts := e1.txAttempts,
                        sentLocInDatagram := l1.sentLocInDatagram)
  {
  }

  lemma ProcessPlain(env: Env, e: Endpoint, l: Endpoint, p: Packet)
    requires env.Valid() && Idle(e) && |p.payload| < 0x1_0000 && l == Loaded(e, p)
    ensures PlainOutcome(env, e, p, ProcessRxPacket(env, l))
  {
    hide Checksum, Le32, HeaderBytes, RegisterRxAck;
    LoadedHeader(e, p);
    RegisterFrame(env, e, l.(receivedPacketCode := p.packetCode), p.ackSeq);
    assert l.rxDatagram[..|l.rxDatagram| - |p.payload|] == e.rxDatagram;
    assert p.payload == [] ==> l.rxDatagram == e.rxDatagram;
  }

  /** A plain packet outside a reset: its ACK is registered and its payload taken if wanted. */
  lemma ReceivePlain(env: Env, e: Endpoint, p: Packet)
    requires env.Valid() && Idle(e) && |p.payload| < 0x1_0000
    requires IsPlain(p) && e.resetState == NotResetting
    ensures PlainOutcome(env, e, p, Receive(env, e, p))
  {
    hide Checksum, Le32, HeaderBytes, RegisterRxAck;
    LoadedHeader(e, p);
    var l := Loaded(e, p);
    assert Receive(env, e, p) == SetRxState(ProcessRxPacket(env, l), Preamble);
    ProcessPlain(env, e, l, p);
  }

  /**
   * A payload that is not the expected one is answered with a NACK, unless its number is the one before in
   * C's `int`: then it is taken for a repetition and its ACK is sent again.
   */
  lemma ReceiveUnwanted(env: Env, e: Endpoint, p: Packet)
    requires env.Valid() && Idle(e) && p.payload != [] && |p.payload| < 0x1_0000
    requires IsPlain(p) && e.resetState == NotResetting && p.seqNo != e.expectedSeq
    ensures var r := Receive(env, e, p); var repeated := p.seqNo as int == e.expectedSeq as int - 1;
            && r.packetCodeToSend == (if repeated then ERROR_NONE else ERROR_ORDER)
            && r.sentAckSeq == (if repeated then Predecessor(e.sentAckSeq) else e.sentAckSeq)
            && r.expectedSeq == e.expectedSeq && r.delivered == e.delivered && r.rxDatagram == e.rxDatagram
  {
    hide Checksum, Le32, HeaderBytes, RegisterRxAck;
    LoadedHeader(e, p);
    var l := Loaded(e, p);
    assert Receive(env, e, p) == SetRxState(ProcessRxPacket(env, l), Preamble);
    ReceivePlain(env, e, p);
  }

  /** So a repeated payload gets a NACK exactly when the expected number has wrapped around to zero. */
  lemma RepeatedPayload(env: Env, e: Endpoint, p: Packet)
    requires env.Valid() && Idle(e) && p.payload != [] && |p.payload| < 0x1_0000
    requires IsPlain(p) && e.resetState == NotResetting && p.seqNo == Predecessor(e.expectedSeq)
    ensures Receive(env, e, p).packetCodeToSend == (if e.expectedSeq == 0 then ERROR_ORDER else ERROR_NONE)
  {
    hide Receive;
    ReceiveUnwanted(env, e, p);
  }

  /** During a reset, packets other than RESET and RESET-ACK touch only the receive buffers. */
  lemma ReceiveDiscarded(env: Env, e: Endpoint, p: Packet)
    requires env.Valid() && Idle(e) && |p.payload| < 0x1_0000
    requires Attr(p.packetCode) != ATTR_RESET && Attr(p.packetCode) != ATTR_RESET_ACK
    requires e.resetState == Resetting
    ensures var r := Receive(env, e, p);
            r == e.(rxHeader := r.rxHeader, rxFooter := r.rxFooter, allocations := r.allocations,
                    rxDatagram := r.rxDatagram, locInDatagram := r.locInDatagram)
  {
    hide Checksum, Le32, HeaderBytes;
    LoadedHeader(e, p);
  }

  /**
   * A RESET, in any state, leaves the endpoint as new and with a RESET-ACK to send; if there is no memory
   * for that, it is left resetting with nothing to send.
   */
  lemma ReceiveReset(env: Env, e: Endpoint, p: Packet)
    requires env.Valid() && Idle(e) && |p.payload| < 0x1_0000
    requires Attr(p.packetCode) == ATTR_RESET
    ensures var r := Receive(env, e, p);
            && r.receivedAckSeq == 0 && r.expectedSeq == Successor(p.seqNo)
            && r.ackedLocInDatagram == 0 && r.sentLocInDatagram == 0 && r.txAttempts == 0
            && r.rxDatagram == [] && r.delivered == [] && !r.linkBusy && r.sentAckSeq == 0
            && if env.mem(Loaded(e, p).allocations) then
                 r.txQueue == [CONFIG] && r.resetState == NotResetting && r.packetCodeToSend == ATTR_RESET_ACK
                 && r.resetCount == 0
               else
                 r.txQueue == [] && r.resetState == Resetting && r.packetCodeToSend == 0
                 && r.resetCount == e.resetCount
  {
    hide Checksum, Le32, HeaderBytes;
    LoadedHeader(e, p);
  }

  /** A RESET-ACK ends the reset: both sequence numbers are taken from it. */
  lemma ReceiveResetAck(env: Env, e: Endpoint, p: Packet)
    requires env.Valid() && Idle(e) && |p.payload| < 0x1_0000
    requires Attr(p.packetCode) == ATTR_RESET_ACK && e.resetState == Resetting
    ensures var r := Receive(env, e, p);
            var e1 := RegisterRxAck(env, e, p.ackSeq).0;
            && r.receivedAckSeq == e1.receivedAckSeq && r.txQueue == e1.txQueue
            && r.ackedLocInDatagram == e1.ackedLocInDatagram && r.txAttempts == e1.txAttempts
            && r.expectedSeq == Successor(p.seqNo)
            && r.rxDatagram == [] && r.delivered == e.delivered && r.resetState == NotResetting
            && r.resetCount == 0 && r.linkBusy == e.linkBusy && r.sentAckSeq == e.sentAckSeq
            && (env.answersResetAck ==> r.packetCodeToSend == ERROR_NONE)
            && (!env.answersResetAck ==> r.packetCodeToSend == e.packetCodeToSend)
  {
    hide Checksum, Le32, HeaderBytes;
    LoadedHeader(e, p);
  }

  /** A RESET-ACK outside a reset only drops the datagram being reassembled. */
  lemma ReceiveStrayResetAck(env: Env, e: Endpoint, p: Packet)
    requires env.Valid() && Idle(e) && |p.payload| < 0x1_0000
    requires Attr(p.packetCode) == ATTR_RESET_ACK && e.resetState == NotResetting
    ensures var r := Receive(env, e, p);
            r == e.(rxHeader := r.rxHeader, rxFooter := r.rxFooter, allocations := r.allocations,
                    rxDatagram := [], locInDatagram := 0)
  {
    hide Checksum, Le32, HeaderBytes;
    LoadedHeader(e, p);
  }

  /** Once the link has failed for good, no undamaged packet but a RESET has any effect. */
  lemma ReceiveWhenFailed(env: Env, e: Endpoint, p: Packet)
    requires env.Valid() && Idle(e) && |p.payload| < 0x1_0000
    requires e.resetState == PermanentFailure && Attr(p.packetCode) != ATTR_RESET
    requires Attr(p.packetCode) != ATTR_LOOPBACK_REQUEST && Attr(p.packetCode) != ATTR_LOOPBACK_RESPONSE
    ensures var r := Receive(env, e, p);
            r == e.(rxHeader := r.rxHeader, rxFooter := r.rxFooter, allocations := r.allocations)
  {
    hide Checksum, Le32, HeaderBytes;
    LoadedHeader(e, p);
    assert Loaded(e, p).rxDatagram[..|e.rxDatagram|] == e.rxDatagram;
  }

  /** A loopback packet is left in the receive buffers, whatever its checksum, and changes nothing else. */
  lemma ReceiveLoopback(env: Env, e: Endpoint, p: Packet, footer: seq<byte>)
    requires env.Valid() && Idle(e) && |p.payload| < 0x1_0000 && |footer| == FOOTER_LEN
    requires Attr(p.packetCode) == ATTR_LOOPBACK_REQUEST || Attr(p.packetCode) == ATTR_LOOPBACK_RESPONSE
    ensures var r := FooterDone(env, WithFooter(e, p, footer));
            r == e.(rxHeader := r.rxHeader, rxFooter := footer, allocations := r.allocations,
                    rxDatagram := e.rxDatagram + p.payload, locInDatagram := e.locInDatagram + |p.payload|)
  {
    hide HeaderBytes;
    assert WithFooter(e, p, footer).rxHeader[1] == p.packetCode by { LoadedHeader(e, p); }
  }

  /**
   * A header that announces more than the link can carry, or more than there is memory for, is
   * answered with its own error and ends the packet; the datagram being reassembled is kept.
   */
  lemma RefusedHeader(env: Env, e: Endpoint, noise: seq<byte>, header: seq<byte>)
    requires env.Valid() && Idle(e) && !ContainsPreamble(noise) && |header| == HEADER_LEN
    ensures var r := RxBytes(env, e, noise + [PREAMBLE_FIRST, PREAMBLE_SECOND] + header);
            var length := header[4] as int + 0x100 * header[5] as int;
            && (length > env.rxMtu ==> r == e.(rxHeader := header, packetCodeToSend := ERROR_HEADER))
            && (0 < length <= env.rxMtu && !env.mem(e.allocations) ==>
                  r == e.(rxHeader := header, packetCodeToSend := ERROR_OOM, allocations := e.allocations + 1))
            && (r.rxState == Preamble <==> length > env.rxMtu || (length > 0 && !env.mem(e.allocations)))
  {
    hide RxBytes, ContainsPreamble;
    var start := noise + [PREAMBLE_FIRST, PREAMBLE_SECOND];
    PreambleFound(env, e, noise);
    RxConcat(env, e, start, header);
    HeaderBulk(env, SetRxState(e, Header), header);
    assert Splice(e.rxHeader, 0, header) == header;
  }

  /** Only a RESET makes an endpoint reset or mark what it sends. */
  lemma ReceiveStartsNoReset(env: Env, e: Endpoint, p: Packet)
    requires env.Valid() && Idle(e) && |p.payload| < 0x1_0000
    requires Attr(p.packetCode) != ATTR_RESET
    ensures var r := Receive(env, e, p);
            && (r.packetCodeToSend == e.packetCodeToSend || Attr(r.packetCodeToSend) == ATTR_NONE)
            && (e.resetState != Resetting ==> r.resetState != Resetting)
  {
    hide Checksum, Le32, HeaderBytes, RegisterRxAck;
    LoadedHeader(e, p);
    if Attr(p.packetCode) == ATTR_RESET_ACK {
      if e.resetState == Resetting { ReceiveResetAck(env, e, p); }
    } else if e.resetState == NotResetting && IsPlain(p) {
      ReceivePlain(env, e, p);
    }
  }
}
