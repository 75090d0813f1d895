/**
 * One end of a CHPP transport link as a value: the fields of `ChppTransportState` that decide its
 * behaviour, and every operation on them as a function.  Timestamps and the notifier are left out.
 * The build modelled is the one with both transport loopback features compiled out.
 */
module EndpointState {
  import opened Bytes
  import opened Util
  import Crc

  const PREAMBLE_FIRST: byte := 0x68
  const PREAMBLE_SECOND: byte := 0x43
  const PREAMBLE_LEN := 2
  const HEADER_LEN := 8
  const FOOTER_LEN := 4
  const TX_DATAGRAM_QUEUE_LEN := 16
  const MAX_RETX := 6
  const MAX_RESET := 3

  const FLAG_UNFINISHED_DATAGRAM: byte := 1

  const ERROR_NONE: byte := 0
  const ERROR_CHECKSUM: byte := 1
  const ERROR_OOM: byte := 2
  const ERROR_HEADER: byte := 4
  const ERROR_ORDER: byte := 5
  const ERROR_TIMEOUT: byte := 6
  const ERROR_MAX_RETRIES: byte := 7

  const ATTR_NONE: byte := 0x00
  const ATTR_RESET: byte := 0x10
  const ATTR_RESET_ACK: byte := 0x20
  const ATTR_LOOPBACK_REQUEST: byte := 0x30
  const ATTR_LOOPBACK_RESPONSE: byte := 0x40

  /** `ChppTransportConfiguration`, the payload of RESET and RESET-ACK: version 1.0.0, rest zero. */
  const CONFIG: seq<byte> := [1, 0, 0, 0, 0, 0, 0, 0, 0, 0]

  function Attr(code: byte): byte { code - code % 0x10 }

  function Error(code: byte): byte { code % 0x10 }

  function Successor(seqNo: byte): byte { (seqNo + 1) % 0x100 }

  function Predecessor(seqNo: byte): byte { (seqNo + 0xFF) % 0x100 }

  /** A packet between its preamble and its checksum. The reserved field is always sent as zero. */
  datatype Packet = Packet(flags: byte, packetCode: byte, ackSeq: byte, seqNo: byte, payload: seq<byte>)

  datatype RxState = Preamble | Header | Payload | Footer

  datatype ResetState = Resetting | NotResetting | PermanentFailure

  /**
   * What the surroundings decide: the payload capacity of the two link buffers, which of this
   * endpoint's allocations succeed, and whether a RESET-ACK is answered at once (it is unless the
   * discovery client is built in and discovery is still running).
   */
  datatype Env = Env(txMtu: nat, rxMtu: nat, mem: nat -> bool, answersResetAck: bool) {
    /** The link leaves room for a payload, and lengths fit the 16-bit header field. */
    predicate Valid() { 0 < txMtu < 0x1_0000 && 0 < rxMtu < 0x1_0000 }
  }

  datatype Endpoint = Endpoint(
    // rxStatus
    rxState: RxState, locInState: nat, expectedSeq: byte, receivedPacketCode: byte,
    receivedAckSeq: byte, locInDatagram: nat,
    // rxHeader, rxFooter, rxDatagram
    rxHeader: seq<byte>, rxFooter: seq<byte>, rxDatagram: seq<byte>,
    // txStatus
    sentAckSeq: byte, sentSeq: byte, packetCodeToSend: byte, txAttempts: nat,
    sentLocInDatagram: nat, ackedLocInDatagram: nat, linkBusy: bool,
    // txDatagramQueue, front first
    txQueue: seq<seq<byte>>,
    resetState: ResetState, resetCount: nat,
    // allocations made so far, and datagrams handed to the app layer since the last reset
    allocations: nat, delivered: seq<seq<byte>>)

  /** What `chppTransportInit` leaves: an endpoint starts out resetting, with nothing queued. */
  const INITIAL: Endpoint :=
    Endpoint(Preamble, 0, 0, 0, 0, 0, Zeros(HEADER_LEN), Zeros(FOOTER_LEN), [],
             0, 0xFF, 0, 0, 0, 0, false, [], Resetting, 0, 0, [])

  // ----------------------------------------------------------------------------------------
  // Header fields

  function HeaderLength(header: seq<byte>): uint16
    requires |header| == HEADER_LEN
  {
    FromLe16(header[4..6])
  }

  function RxLength(e: Endpoint): uint16
    requires |e.rxHeader| == HEADER_LEN
  {
    HeaderLength(e.rxHeader)
  }

  /** The bytes of the datagram buffer that belong to the packet being received. */
  function InPacket(e: Endpoint): nat
    requires |e.rxHeader| == HEADER_LEN
  {
    if e.rxState == Payload || e.rxState == Footer then RxLength(e) else 0
  }

  // ----------------------------------------------------------------------------------------
  // Invariants

  /** RX bookkeeping: where the receiver is in the packet, and that the buffer length agrees. */
  predicate RxInv(e: Endpoint) {
    && |e.rxHeader| == HEADER_LEN
    && |e.rxFooter| == FOOTER_LEN
    && match e.rxState {
         case Preamble => e.locInState < PREAMBLE_LEN && e.locInDatagram == |e.rxDatagram|
         case Header => e.locInState < HEADER_LEN && e.locInDatagram == |e.rxDatagram|
         case Payload =>
           && e.locInState < RxLength(e) && e.locInState <= e.locInDatagram
           && e.locInDatagram + (RxLength(e) - e.locInState) == |e.rxDatagram|
         case Footer =>
           && e.locInState <= FOOTER_LEN
           && e.locInDatagram == |e.rxDatagram| && RxLength(e) <= |e.rxDatagram|
       }
  }

  predicate RxReady(e: Endpoint) { RxInv(e) && (e.rxState == Footer ==> e.locInState < FOOTER_LEN) }

  predicate NonEmpty(queue: seq<seq<byte>>) { forall i :: 0 <= i < |queue| ==> queue[i] != [] }

  /** TX bookkeeping: the acknowledged offset lies inside the front datagram. */
  predicate TxInv(e: Endpoint) {
    && |e.txQueue| <= TX_DATAGRAM_QUEUE_LEN
    && NonEmpty(e.txQueue)
    && (e.txQueue == [] ==> e.ackedLocInDatagram == 0)
    && (e.txQueue != [] ==> e.ackedLocInDatagram < |e.txQueue[0]|)
    && (e.resetState == Resetting ==> e.ackedLocInDatagram == 0)
  }

  /** Between packets, waiting for a preamble. */
  predicate Idle(e: Endpoint) {
    RxInv(e) && e.rxState == Preamble && e.locInState == 0
  }

  // ----------------------------------------------------------------------------------------
  // Small steps

  function SetRxState(e: Endpoint, state: RxState): Endpoint {
    e.(rxState := state, locInState := 0)
  }

  function EnqueuePacket(e: Endpoint, code: byte): Endpoint {
    e.(packetCodeToSend := code)
  }

  function ClearRxDatagram(e: Endpoint): Endpoint {
    e.(locInDatagram := 0, rxDatagram := [])
  }

  /** `chppAbortRxPacket`: takes back what the packet being received added to the datagram. */
  function AbortRxPacket(e: Endpoint): (r: Endpoint)
    requires RxInv(e)
    ensures RxReady(r) && r.rxState == Preamble
  {
    var undoLen := InPacket(e);
    var undoLoc := if e.rxState == Payload then e.locInState else undoLen;
    SetRxState(if undoLen == 0 then e
               else e.(rxDatagram := e.rxDatagram[..|e.rxDatagram| - undoLen],
                       locInDatagram := e.locInDatagram - undoLoc),
               Preamble)
  }

  function FrontLength(e: Endpoint): nat {
    if e.txQueue == [] then 0 else |e.txQueue[0]|
  }

  /** `chppRegisterRxAck`. */
  function RegisterRxAck(env: Env, e: Endpoint, ackSeq: byte): (r: (Endpoint, bool))
    requires env.Valid()
    ensures TxInv(e) && e.resetState != Resetting ==> TxInv(r.0)
    ensures RxInv(e) ==> RxInv(r.0)
    ensures r.0 == e.(receivedAckSeq := r.0.receivedAckSeq, txAttempts := r.0.txAttempts,
                      ackedLocInDatagram := r.0.ackedLocInDatagram,
                      sentLocInDatagram := r.0.sentLocInDatagram, txQueue := r.0.txQueue)
    ensures (r.1 <==> ackSeq == Successor(e.receivedAckSeq)) && (!r.1 ==> r.0 == e)
  {
    if ackSeq == e.receivedAckSeq || ackSeq != Successor(e.receivedAckSeq) then (e, false)
    else
      var acked := e.ackedLocInDatagram + env.txMtu;
      var e1 := e.(receivedAckSeq := ackSeq, txAttempts := 0);
      (if acked >= FrontLength(e) then
         e1.(ackedLocInDatagram := 0, sentLocInDatagram := 0,
             txQueue := if e.txQueue == [] then [] else e.txQueue[1..])
       else e1.(ackedLocInDatagram := acked), true)
  }

  /** `chppEnqueueTxDatagramLocked`. */
  function EnqueueDatagramLocked(e: Endpoint, code: byte, datagram: seq<byte>): (r: (Endpoint, bool))
    ensures TxInv(e) ==> TxInv(r.0)
    ensures r.0 == e.(txQueue := r.0.txQueue, packetCodeToSend := r.0.packetCodeToSend)
  {
    if datagram == [] || |e.txQueue| >= TX_DATAGRAM_QUEUE_LEN then (e, false)
    else
      var e1 := e.(txQueue := e.txQueue + [datagram]);
      (if |e1.txQueue| == 1 then EnqueuePacket(e1, code) else e1, true)
  }

  /** `chppEnqueueTxDatagramOrFail`: room for 16, and none during a reset. */
  function EnqueueDatagramOrFail(e: Endpoint, datagram: seq<byte>): (r: (Endpoint, bool))
    ensures TxInv(e) ==> TxInv(r.0)
    ensures r.1 <==> e.resetState != Resetting && datagram != [] && |e.txQueue| < 16
    ensures r.1 ==>
              && r.0.txQueue == e.txQueue + [datagram]
              && r.0.packetCodeToSend == if e.txQueue == [] then ERROR_NONE else e.packetCodeToSend
    ensures r.0 == e.(txQueue := r.0.txQueue, packetCodeToSend := r.0.packetCodeToSend) && (!r.1 ==> r.0 == e)
  {
    if e.resetState == Resetting then (e, false) else EnqueueDatagramLocked(e, ERROR_NONE, datagram)
  }

  // ----------------------------------------------------------------------------------------
  // Reset

  function ResetTransportContext(e: Endpoint): Endpoint
  {
    e.(rxState := Preamble, locInState := 0, expectedSeq := 0, receivedPacketCode := 0,
       receivedAckSeq := 0, locInDatagram := 0, rxDatagram := [],
       sentAckSeq := 0, sentSeq := 0xFF, packetCodeToSend := 0, txAttempts := 0,
       sentLocInDatagram := 0, ackedLocInDatagram := 0, linkBusy := false,
       txQueue := [], resetState := Resetting, delivered := [])
  }

  /** `chppTransportSendResetLocked`. */
  function SendReset(env: Env, e: Endpoint, resetType: byte, error: byte): (r: Endpoint)
    requires Error(resetType) == 0 && Attr(error) == 0
    ensures TxInv(e) ==> TxInv(r)
    ensures r == e.(allocations := e.allocations + 1, resetState := r.resetState,
                    resetCount := r.resetCount, txQueue := r.txQueue,
                    packetCodeToSend := r.packetCodeToSend)
  {
    var e1 := e.(allocations := e.allocations + 1);
    if !env.mem(e.allocations) then e1
    else
      var e2 := if resetType == ATTR_RESET_ACK then e1.(resetState := NotResetting, resetCount := 0)
                else e1;
      EnqueueDatagramLocked(e2, resetType + error, CONFIG).0
  }

  /** `chppReset`: wipes the state, then announces it with RESET or RESET-ACK. */
  function Reset(env: Env, e: Endpoint, resetType: byte, error: byte): (r: Endpoint)
    requires |e.rxHeader| == HEADER_LEN && |e.rxFooter| == FOOTER_LEN
    requires Error(resetType) == 0 && Attr(error) == 0
    ensures RxReady(r) && r.rxState == Preamble && r.locInState == 0
    ensures TxInv(r)
  {
    var e1 := ResetTransportContext(e).(receivedPacketCode := e.rxHeader[1],
                                        expectedSeq := Successor(e.rxHeader[3]));
    SendReset(env, e1, resetType, error)
  }

  /** The reset branch of `chppWorkHandleTimeout`: try again, or give up after the last try. */
  function ResetTimedOut(env: Env, e: Endpoint): (r: Endpoint)
    requires RxReady(e) && TxInv(e) && e.resetState == Resetting
    ensures RxReady(r) && TxInv(r)
    ensures r.resetState == PermanentFailure <==> e.resetCount + 1 >= MAX_RESET
  {
    if e.resetCount + 1 < MAX_RESET then
      Reset(env, e.(resetCount := e.resetCount + 1), ATTR_RESET, ERROR_TIMEOUT)
    else e.(txAttempts := 0, resetState := PermanentFailure, txQueue := [], packetCodeToSend := 0)
  }

  /** `chppProcessResetAck`. */
  function ProcessResetAck(env: Env, e: Endpoint): (r: Endpoint)
    requires env.Valid() && RxInv(e) && e.rxState == Footer
    ensures RxInv(SetRxState(r, Preamble))
    ensures TxInv(e) ==> TxInv(r)
  {
    if e.resetState == NotResetting then ClearRxDatagram(e)
    else
      var e1 := e.(resetState := NotResetting, resetCount := 0, receivedPacketCode := e.rxHeader[1],
                   expectedSeq := Successor(e.rxHeader[3]));
      var e2 := ClearRxDatagram(RegisterRxAck(env, e1, e.rxHeader[2]).0);
      if env.answersResetAck then EnqueuePacket(e2, ERROR_NONE) else e2
  }

  // ----------------------------------------------------------------------------------------
  // Processing a received packet

  /** `chppProcessRxPayload`. */
  function ProcessRxPayload(e: Endpoint): (r: Endpoint)
    requires |e.rxHeader| == HEADER_LEN
  {
    var e1 := e.(expectedSeq := Successor(e.expectedSeq));
    var e2 := if e.rxHeader[0] % 2 == FLAG_UNFINISHED_DATAGRAM then e1
              else ClearRxDatagram(e1.(delivered := e1.delivered + [e1.rxDatagram]));
    EnqueuePacket(e2, ERROR_NONE)
  }

  /**
   * The reply `chppProcessRxPacket` queues: a plain ACK when a queued payload was acknowledged, a
   * repeated ACK for a payload already accepted, or a NACK for any other unexpected payload.  The
   * comparison with the predecessor of `expectedSeq` is done in C's `int`, so a repeated payload
   * is not recognised when `expectedSeq` is zero.
   */
  function Reply(e: Endpoint, gotExpectedAck: bool, outOfOrder: bool): (r: Endpoint)
    requires |e.rxHeader| == HEADER_LEN
    ensures r == e.(sentAckSeq := r.sentAckSeq, packetCodeToSend := r.packetCodeToSend)
  {
    if !(gotExpectedAck && e.txQueue != []) && !outOfOrder then e
    else if RxLength(e) > 0 && e.rxHeader[3] as int == e.expectedSeq as int - 1 then
      EnqueuePacket(e.(sentAckSeq := Predecessor(e.sentAckSeq)), ERROR_NONE)
    else EnqueuePacket(e, if outOfOrder then ERROR_ORDER else ERROR_NONE)
  }

  /** `chppProcessRxPacket`. */
  function ProcessRxPacket(env: Env, e: Endpoint): (r: Endpoint)
    requires env.Valid() && RxInv(e) && e.rxState == Footer
    ensures RxInv(SetRxState(r, Preamble))
    ensures TxInv(e) && e.resetState != Resetting ==> TxInv(r)
  {
    var (e1, gotExpectedAck) := RegisterRxAck(env, e.(receivedPacketCode := e.rxHeader[1]), e.rxHeader[2]);
    var outOfOrder := RxLength(e) > 0 && e.rxHeader[3] != e1.expectedSeq;
    var e2 := Reply(e1, gotExpectedAck, outOfOrder);
    if outOfOrder then AbortRxPacket(e2)
    else if RxLength(e) > 0 then ProcessRxPayload(e2)
    else e2
  }

  /** The bytes the checksum covers: header, then the payload of this packet. */
  function Covered(e: Endpoint): seq<byte>
    requires RxInv(e) && e.rxState == Footer
  {
    e.rxHeader + e.rxDatagram[|e.rxDatagram| - RxLength(e)..]
  }

  /** The bytes of a register, as sent. */
  function WordBytes(x: bv32): (s: seq<byte>)
    ensures |s| == 4
  {
    var b := Crc.LsbFirst(x);
    [b[0] as int, b[1] as int, b[2] as int, b[3] as int]
  }

  /** A register as a number. */
  function Number(x: bv32): uint32 { FromLe32(WordBytes(x)) }

  function Checksum(s: seq<byte>): uint32 { Number(Crc.Crc32(0, AsBits(s))) }

  predicate ChecksumOk(e: Endpoint)
    requires RxInv(e) && e.rxState == Footer
  {
    FromLe32(e.rxFooter) == Checksum(Covered(e))
  }

  /** What `chppConsumeFooter` does once the last footer byte is in. */
  function FooterDone(env: Env, e: Endpoint): (r: Endpoint)
    requires env.Valid() && RxInv(e) && e.rxState == Footer
    ensures RxReady(r) && r.rxState == Preamble && r.locInState == 0
    ensures TxInv(e) ==> TxInv(r)
  {
    var attr := Attr(e.rxHeader[1]);
    SetRxState(
      if attr == ATTR_LOOPBACK_REQUEST || attr == ATTR_LOOPBACK_RESPONSE then e
      else if !ChecksumOk(e) then EnqueuePacket(AbortRxPacket(e), ERROR_CHECKSUM)
      else if attr == ATTR_RESET then Reset(env, e, ATTR_RESET_ACK, ERROR_NONE)
      else if e.resetState == PermanentFailure then AbortRxPacket(e)
      else if attr == ATTR_RESET_ACK then ProcessResetAck(env, e)
      else if e.resetState == Resetting then AbortRxPacket(e)
      else ProcessRxPacket(env, e),
      Preamble)
  }

  /** What `chppConsumeHeader` does once the last header byte is in. */
  function HeaderDone(env: Env, e: Endpoint): (r: Endpoint)
    requires |e.rxHeader| == HEADER_LEN && |e.rxFooter| == FOOTER_LEN
    requires e.locInDatagram == |e.rxDatagram|
    ensures RxReady(r)
    ensures TxInv(e) ==> TxInv(r)
  {
    var length := RxLength(e);
    if length > env.rxMtu then SetRxState(EnqueuePacket(e, ERROR_HEADER), Preamble)
    else if length == 0 then SetRxState(e, Footer)
    else
      var e1 := e.(allocations := e.allocations + 1);
      if !env.mem(e.allocations) then SetRxState(EnqueuePacket(e1, ERROR_OOM), Preamble)
      else SetRxState(e1.(rxDatagram := e.rxDatagram + Zeros(length)), Payload)
  }

  // ----------------------------------------------------------------------------------------
  // The receiver, one byte at a time

  function PreambleLoc(loc: nat, b: byte): nat {
    if (loc == 0 && b == PREAMBLE_FIRST) || (loc == 1 && b == PREAMBLE_SECOND) then loc + 1
    else if b == PREAMBLE_FIRST then 1
    else 0
  }

  function RxHeaderByte(env: Env, e: Endpoint, b: byte): (r: Endpoint)
    requires RxReady(e) && e.rxState == Header
    ensures RxReady(r)
    ensures TxInv(e) ==> TxInv(r)
  {
    var e1 := e.(rxHeader := e.rxHeader[e.locInState := b], locInState := e.locInState + 1);
    if e1.locInState == HEADER_LEN then HeaderDone(env, e1) else e1
  }

  function RxPayloadByte(e: Endpoint, b: byte): (r: Endpoint)
    requires RxReady(e) && e.rxState == Payload
    ensures RxReady(r)
    ensures TxInv(e) ==> TxInv(r)
  {
    var e1 := e.(rxDatagram := e.rxDatagram[e.locInDatagram := b],
                 locInDatagram := e.locInDatagram + 1, locInState := e.locInState + 1);
    if e1.locInState == RxLength(e) then SetRxState(e1, Footer) else e1
  }

  function RxFooterByte(env: Env, e: Endpoint, b: byte): (r: Endpoint)
    requires env.Valid() && RxReady(e) && e.rxState == Footer
    ensures RxReady(r)
    ensures TxInv(e) ==> TxInv(r)
  {
    var e1 := e.(rxFooter := e.rxFooter[e.locInState := b], locInState := e.locInState + 1);
    if e1.locInState == FOOTER_LEN then FooterDone(env, e1) else e1
  }

  function RxByte(env: Env, e: Endpoint, b: byte): (r: Endpoint)
    requires env.Valid() && RxReady(e)
    ensures RxReady(r)
    ensures TxInv(e) ==> TxInv(r)
  {
    match e.rxState
    case Preamble =>
      var loc := PreambleLoc(e.locInState, b);
      if loc == PREAMBLE_LEN then SetRxState(e, Header) else e.(locInState := loc)
    case Header => RxHeaderByte(env, e, b)
    case Payload => RxPayloadByte(e, b)
    case Footer => RxFooterByte(env, e, b)
  }

  function RxBytes(env: Env, e: Endpoint, bs: seq<byte>): (r: Endpoint)
    requires env.Valid() && RxReady(e)
    ensures RxReady(r)
    ensures TxInv(e) ==> TxInv(r)
    decreases |bs|
  {
    if bs == [] then e else RxBytes(env, RxByte(env, e, bs[0]), bs[1..])
  }

  // ----------------------------------------------------------------------------------------
  // Transmission

  predicate ShouldAttachPayload(e: Endpoint, resend: bool) {
    e.txQueue != [] && (e.txAttempts == 0 || resend)
  }

  predicate ShouldSendPossiblyEmptyPacket(e: Endpoint) {
    e.expectedSeq != e.sentAckSeq || e.packetCodeToSend != ATTR_NONE + ERROR_NONE
  }

  predicate GivesUpResending(e: Endpoint, resend: bool) {
    && !e.linkBusy && ShouldAttachPayload(e, resend)
    && e.txAttempts > MAX_RETX && e.resetState != Resetting
  }

  /** Builds and hands over one packet, with or without the pending payload. */
  function SendPacket(env: Env, e: Endpoint, sendPayload: bool): (r: (Endpoint, Option<Packet>))
    requires env.Valid() && RxInv(e) && TxInv(e) && (sendPayload ==> e.txQueue != [])
    ensures RxInv(r.0) && TxInv(r.0)
    ensures RxReady(e) ==> RxReady(r.0)
  {
    var code := e.packetCodeToSend;
    var e1 := e.(linkBusy := true, packetCodeToSend := Attr(code), sentAckSeq := e.expectedSeq);
    if !sendPayload then (e1, Some(Packet(0, code, e.expectedSeq, 0, [])))
    else
      var e2 := e1.(sentSeq := e.receivedAckSeq);
      if e.txAttempts > MAX_RETX && e.resetState != Resetting then
        (Reset(env, e2, ATTR_RESET, ERROR_MAX_RETRIES), None)
      else
        var rest := e.txQueue[0][e.ackedLocInDatagram..];
        var unfinished := |rest| > env.txMtu;
        var length := if unfinished then env.txMtu else |rest|;
        (e2.(sentLocInDatagram := e.ackedLocInDatagram + length, txAttempts := e.txAttempts + 1),
         Some(Packet(if unfinished then FLAG_UNFINISHED_DATAGRAM else 0, code, e.expectedSeq,
                     e.receivedAckSeq, rest[..length])))
  }

  /** The transmit half of `chppTransportDoWork`: the new state and the packet given to the link. */
  function DoWork(env: Env, e: Endpoint, resend: bool): (r: (Endpoint, Option<Packet>))
    requires env.Valid() && RxInv(e) && TxInv(e)
    ensures RxInv(r.0) && TxInv(r.0)
    ensures RxReady(e) ==> RxReady(r.0)
  {
    var sendPayload := ShouldAttachPayload(e, resend);
    if e.linkBusy || !(sendPayload || ShouldSendPossiblyEmptyPacket(e)) then (e, None)
    else SendPacket(env, e, sendPayload)
  }
}
