/**
 * What a silent peer leads to: how often a payload is sent again before the endpoint resets, how
 * often the reset is announced before the link is given up, and what a reset leaves behind.
 */
module GivingUp {
  import opened Bytes
  import opened Util
  import opened EndpointState

  // ----------------------------------------------------------------------------------------
  // One pass of the transmit loop

  /** The payload an endpoint with a queued datagram sends: what is left of it, up to the link's limit. */
  predicate CarriesPending(env: Env, e: Endpoint, p: Packet) {
    && e.txQueue != [] && e.ackedLocInDatagram <= |e.txQueue[0]|
    && p.payload <= e.txQueue[0][e.ackedLocInDatagram..]
    && |p.payload| <= env.txMtu
    && p.seqNo == e.receivedAckSeq
    && (p.flags == FLAG_UNFINISHED_DATAGRAM <==> e.ackedLocInDatagram + |p.payload| < |e.txQueue[0]|)
    && (p.flags == 0 <==> e.ackedLocInDatagram + |p.payload| == |e.txQueue[0]|)
    && (p.flags != 0 ==> |p.payload| == env.txMtu)
  }

  /**
   * When `chppTransportDoWork` sends a packet, which packet it is, and what it records: the error
   * is sent once, the attribute stays, and the link is busy until the packet is out.
   */
  lemma Transmits(env: Env, e: Endpoint, resend: bool)
    requires env.Valid() && RxInv(e) && TxInv(e)
    ensures var (r, out) := DoWork(env, e, resend);
            var attached := e.txQueue != [] && (e.txAttempts == 0 || resend);
            && (out.Some? <==>
                  && !e.linkBusy && !GivesUpResending(e, resend)
                  && (attached || e.sentAckSeq != e.expectedSeq || e.packetCodeToSend != 0))
            && (out.None? && !GivesUpResending(e, resend) ==> r == e)
            && (out.Some? ==>
                  && out.value.packetCode == e.packetCodeToSend && out.value.ackSeq == e.expectedSeq
                  && (attached ==> CarriesPending(env, e, out.value))
                  && (!attached ==> out.value.payload == [] && out.value.flags == 0)
                  && r == e.(linkBusy := true, sentAckSeq := e.expectedSeq,
                             packetCodeToSend := Attr(e.packetCodeToSend),
                             sentSeq := if attached then out.value.seqNo else e.sentSeq,
                             sentLocInDatagram := if attached then e.ackedLocInDatagram + |out.value.payload|
                                                  else e.sentLocInDatagram,
                             txAttempts := if attached then e.txAttempts + 1 else e.txAttempts))
  {
  }

  /**
   * Once the link is free again, nothing more is sent until the peer answers or a timeout asks for
   * a resend, exactly if the packet was neither RESET nor RESET-ACK.
   */
  lemma SendsOnce(env: Env, e: Endpoint, resend: bool)
    requires env.Valid() && RxInv(e) && TxInv(e) && DoWork(env, e, resend).1.Some?
    ensures DoWork(env, DoWork(env, e, resend).0.(linkBusy := false), false).1.None? <==>
              Attr(e.packetCodeToSend) == ATTR_NONE
  {
    Transmits(env, e, resend);
    var r := DoWork(env, e, resend).0.(linkBusy := false);
    Transmits(env, r, false);
  }

  // ----------------------------------------------------------------------------------------
  // Resets

  /**
   * After a reset an endpoint is as it was when initialised, but for the header that caused it, the
   * number of allocations and resets, and the announcement, for which there may be no memory.
   */
  lemma ResetStartsOver(env: Env, e: Endpoint, resetType: byte, error: byte)
    requires |e.rxHeader| == HEADER_LEN && |e.rxFooter| == FOOTER_LEN
    requires Error(resetType) == 0 && Attr(error) == 0
    ensures var announced := env.mem(e.allocations);
            var answered := announced && resetType == ATTR_RESET_ACK;
            Reset(env, e, resetType, error) ==
            INITIAL.(rxHeader := e.rxHeader, rxFooter := e.rxFooter, allocations := e.allocations + 1,
                     receivedPacketCode := e.rxHeader[1], expectedSeq := Successor(e.rxHeader[3]),
                     txQueue := if announced then [CONFIG] else [],
                     packetCodeToSend := if announced then resetType + error else 0,
                     resetState := if answered then NotResetting else Resetting,
                     resetCount := if answered then 0 else e.resetCount)
  {
  }

  // ----------------------------------------------------------------------------------------
  // Resending to a silent peer

  /** The link is free again, and the answer to the last packet is overdue. */
  function Overdue(env: Env, e: Endpoint): (r: (Endpoint, Option<Packet>))
    requires env.Valid() && RxInv(e) && TxInv(e)
    ensures RxInv(r.0) && TxInv(r.0)
  {
    DoWork(env, e.(linkBusy := false), true)
  }

  function OverdueTimes(env: Env, e: Endpoint, n: nat): (r: Endpoint)
    requires env.Valid() && RxInv(e) && TxInv(e)
    ensures RxInv(r) && TxInv(r)
  {
    if n == 0 then e else Overdue(env, OverdueTimes(env, e, n - 1)).0
  }

  /** What the transmit side keeps while it repeats a payload. */
  predicate SamePayload(e: Endpoint, r: Endpoint) {
    && r.txQueue == e.txQueue && r.ackedLocInDatagram == e.ackedLocInDatagram
    && r.receivedAckSeq == e.receivedAckSeq && r.resetState == e.resetState
    && r.allocations == e.allocations && r.rxHeader == e.rxHeader && r.resetCount == e.resetCount
  }

  lemma SamePacketAgain(env: Env, e: Endpoint, r: Endpoint)
    requires env.Valid() && RxInv(e) && TxInv(e) && RxInv(r) && TxInv(r)
    requires SamePayload(e, r) && e.txQueue != []
    requires Overdue(env, e).1.Some? && Overdue(env, r).1.Some?
    ensures var p, q := Overdue(env, e).1.value, Overdue(env, r).1.value;
            p.payload == q.payload && p.seqNo == q.seqNo && p.flags == q.flags
  {
  }

  lemma OverdueStep(env: Env, e: Endpoint)
    requires env.Valid() && RxInv(e) && TxInv(e) && e.txQueue != []
    ensures var (r, out) := Overdue(env, e);
            if e.txAttempts > MAX_RETX && e.resetState != Resetting then out.None?
            else out.Some? && SamePayload(e, r) && r.txAttempts == e.txAttempts + 1
  {
    Transmits(env, e.(linkBusy := false), true);
  }

  /**
   * A payload the peer never acknowledges is sent seven times, each time as the same payload under
   * the same number.  The eighth time a reset is announced instead, unless one is under way.
   */
  lemma {:induction false} SevenAttempts(env: Env, e: Endpoint, n: nat)
    requires env.Valid() && RxInv(e) && TxInv(e)
    requires e.txQueue != [] && e.txAttempts == 0 && e.resetState != Resetting && n <= 7
    ensures var r := OverdueTimes(env, e, n);
            && SamePayload(e, r) && r.txAttempts == n
            && (Overdue(env, r).1.Some? <==> n < 7)
            && (n < 7 ==>
                  var p, q := Overdue(env, e).1.value, Overdue(env, r).1.value;
                  p.payload == q.payload && p.seqNo == q.seqNo && p.flags == q.flags)
            && (n == 7 ==>
                  var r' := Overdue(env, r).0;
                  && r'.resetState == Resetting && r'.resetCount == e.resetCount && r'.txAttempts == 0
                  && (env.mem(e.allocations) ==>
                        r'.txQueue == [CONFIG] && r'.packetCodeToSend == ATTR_RESET + ERROR_MAX_RETRIES)
                  && (!env.mem(e.allocations) ==> r'.txQueue == [] && r'.packetCodeToSend == 0))
  {
    hide Overdue;
    if n > 0 {
      SevenAttempts(env, e, n - 1);
      OverdueStep(env, OverdueTimes(env, e, n - 1));
    }
    var r := OverdueTimes(env, e, n);
    OverdueStep(env, e);
    OverdueStep(env, r);
    if n == 7 {
      AttemptEight(env, r);
    } else {
      SamePacketAgain(env, e, r);
    }
  }

  lemma AttemptEight(env: Env, e: Endpoint)
    requires env.Valid() && RxInv(e) && TxInv(e)
    requires e.txQueue != [] && e.txAttempts > MAX_RETX && e.resetState != Resetting
    ensures var r := Overdue(env, e).0;
            && r.resetState == Resetting && r.resetCount == e.resetCount && r.txAttempts == 0
            && (env.mem(e.allocations) ==>
                  r.txQueue == [CONFIG] && r.packetCodeToSend == ATTR_RESET + ERROR_MAX_RETRIES)
            && (!env.mem(e.allocations) ==> r.txQueue == [] && r.packetCodeToSend == 0)
  {
    var e1 := e.(linkBusy := true, packetCodeToSend := Attr(e.packetCodeToSend), sentAckSeq := e.expectedSeq,
                 sentSeq := e.receivedAckSeq);
    ResetStartsOver(env, e1, ATTR_RESET, ERROR_MAX_RETRIES);
  }

  /** During a reset there is no such limit: the announcement is repeated for as long as it is asked for. */
  lemma {:induction false} AnnouncesWithoutLimit(env: Env, e: Endpoint, n: nat)
    requires env.Valid() && RxInv(e) && TxInv(e) && e.txQueue != [] && e.resetState == Resetting
    ensures var r := OverdueTimes(env, e, n);
            SamePayload(e, r) && r.txAttempts == e.txAttempts + n && Overdue(env, r).1.Some?
  {
    hide Overdue;
    if n > 0 {
      AnnouncesWithoutLimit(env, e, n - 1);
      OverdueStep(env, OverdueTimes(env, e, n - 1));
    }
    OverdueStep(env, OverdueTimes(env, e, n));
  }

  // ----------------------------------------------------------------------------------------
  // Resets that nobody answers

  /** `n` times in a row the answer to the announced reset does not come in time. */
  function Unanswered(env: Env, e: Endpoint, n: nat): (r: Endpoint)
    requires RxReady(e) && TxInv(e)
    ensures RxReady(r) && TxInv(r)
  {
    if n == 0 then e
    else
      var r := Unanswered(env, e, n - 1);
      if r.resetState == Resetting then ResetTimedOut(env, r) else r
  }

  /**
   * A reset is announced three times in all.  When the third goes unanswered too the link has failed
   * for good, with nothing left to send; before that it is still resetting, with the reset announced
   * again if there is memory for it.
   */
  lemma {:induction false} ThreeResets(env: Env, e: Endpoint, n: nat)
    requires RxReady(e) && TxInv(e) && e.resetState == Resetting && e.resetCount == 0
    ensures var r := Unanswered(env, e, n);
            if n < 3 then
              && r.resetState == Resetting && r.resetCount == n && r.allocations == e.allocations + n
              && (n > 0 && env.mem(e.allocations + n - 1) ==>
                    r.txQueue == [CONFIG] && r.packetCodeToSend == ATTR_RESET + ERROR_TIMEOUT)
              && (n > 0 && !env.mem(e.allocations + n - 1) ==> r.txQueue == [] && r.packetCodeToSend == 0)
            else
              && r.resetState == PermanentFailure
              && r.txQueue == [] && r.packetCodeToSend == 0 && r.txAttempts == 0
  {
    if n > 0 {
      ThreeResets(env, e, n - 1);
      var r := Unanswered(env, e, n - 1);
      ResetStartsOver(env, r.(resetCount := r.resetCount + 1), ATTR_RESET, ERROR_TIMEOUT);
    }
  }
}
