/** The transport layer as the C code runs it: a mutable context updated in place. */
module Transport {
  import opened Bytes
  import opened Util
  import opened EndpointState
  import Spec = EndpointState
  import opened Framing
  import opened TxQueue
  import Crc

  const ENCODING_OVERHEAD := PREAMBLE_LEN + HEADER_LEN + FOOTER_LEN

  /** `struct ChppRxStatus`, without its statistics. */
  datatype RxStatus = RxStatus(state: RxState, locInState: nat, expectedSeq: byte,
                               receivedPacketCode: byte, receivedAckSeq: byte,
                               packetStartTimeNs: nat, locInDatagram: nat)

  /** `struct ChppTxStatus`, without the time of the last transmission. */
  datatype TxStatus = TxStatus(sentAckSeq: byte, sentSeq: byte, packetCodeToSend: byte, txAttempts: nat,
                               sentLocInDatagram: nat, ackedLocInDatagram: nat, linkBusy: bool)

  const ZERO_RX := RxStatus(Preamble, 0, 0, 0, 0, 0, 0)

  const INITIAL_TX := TxStatus(0, 0xFF, 0, 0, 0, 0, false)

  class ChppTransportState {
    const env: Env

    var rx: RxStatus
    var rxHeader: seq<byte>
    var rxFooter: seq<byte>
    var rxDatagram: seq<byte>

    var tx: TxStatus

    const txDatagramQueue: TxDatagramQueue
    const linkTxBuffer: array<byte>
    var linkBufferSize: nat

    var resetState: ResetState
    var resetCount: nat

    // Allocations made so far; datagrams handed to the app layer since the last reset.
    var allocations: nat
    var delivered: seq<seq<byte>>

    ghost predicate Valid()
      reads this, txDatagramQueue, txDatagramQueue.datagram
    {
      && env.Valid()
      && linkTxBuffer.Length == env.txMtu + ENCODING_OVERHEAD
      && txDatagramQueue.Valid()
      && |rxHeader| == HEADER_LEN && |rxFooter| == FOOTER_LEN
    }

    ghost function State(): Endpoint
      requires Valid()
      reads this, txDatagramQueue, txDatagramQueue.datagram
    {
      Endpoint(rx.state, rx.locInState, rx.expectedSeq, rx.receivedPacketCode, rx.receivedAckSeq,
               rx.locInDatagram, rxHeader, rxFooter, rxDatagram,
               tx.sentAckSeq, tx.sentSeq, tx.packetCodeToSend, tx.txAttempts, tx.sentLocInDatagram,
               tx.ackedLocInDatagram, tx.linkBusy, txDatagramQueue.contents,
               resetState, resetCount, allocations, delivered)
    }

    /** `chppTransportInit`: an endpoint starts out resetting. */
    constructor (env: Env)
      requires env.Valid()
      ensures Valid() && this.env == env && fresh(txDatagramQueue) && fresh(txDatagramQueue.datagram)
      ensures fresh(linkTxBuffer)
      ensures State() == INITIAL && Idle(INITIAL) && TxInv(INITIAL)
    {
      this.env := env;
      rx, tx := ZERO_RX, INITIAL_TX;
      rxHeader, rxFooter, rxDatagram := Zeros(HEADER_LEN), Zeros(FOOTER_LEN), [];
      txDatagramQueue := new TxDatagramQueue();
      linkTxBuffer := new byte[env.txMtu + ENCODING_OVERHEAD];
      linkBufferSize := 0;
      resetState, resetCount, allocations, delivered := Resetting, 0, 0, [];
    }

    // --------------------------------------------------------------------------------------
    // Small steps

    method SetRxState(newState: RxState)
      requires Valid()
      modifies this`rx
      ensures Valid() && State() == Spec.SetRxState(old(State()), newState)
    {
      rx := rx.(locInState := 0);
      rx := rx.(state := newState);
    }

    method EnqueueTxPacket(packetCode: byte)
      requires Valid()
      modifies this`tx
      ensures Valid() && State() == EnqueuePacket(old(State()), packetCode)
    {
      tx := tx.(packetCodeToSend := packetCode);
    }

    method ClearRxDatagram()
      requires Valid()
      modifies this`rx, this`rxDatagram
      ensures Valid() && State() == Spec.ClearRxDatagram(old(State()))
    {
      rx := rx.(locInDatagram := 0);
      rxDatagram := [];
    }

    method Malloc() returns (ok: bool)
      requires Valid()
      modifies this`allocations
      ensures Valid() && State() == old(State()).(allocations := old(allocations) + 1)
      ensures ok == env.mem(old(allocations))
    {
      ok := env.mem(allocations);
      allocations := allocations + 1;
    }

    method AbortRxPacket()
      requires Valid() && RxInv(State())
      modifies this
      ensures Valid() && State() == Spec.AbortRxPacket(old(State()))
    {
      var undoLen, undoLoc := 0, 0;
      match rx.state {
        case Preamble =>
        case Header =>
        case Payload =>
          undoLen := HeaderLength(rxHeader);
          undoLoc := rx.locInState;
        case Footer =>
          undoLen := HeaderLength(rxHeader);
          undoLoc := HeaderLength(rxHeader);
      }
      if undoLen > 0 {
        rxDatagram := rxDatagram[..|rxDatagram| - undoLen];
        rx := rx.(locInDatagram := rx.locInDatagram - undoLoc);
      }
      SetRxState(Preamble);
    }

    method RegisterRxAck() returns (gotExpectedAck: bool)
      requires Valid()
      modifies this, txDatagramQueue, txDatagramQueue.datagram
      ensures Valid()
      ensures (State(), gotExpectedAck) == Spec.RegisterRxAck(env, old(State()), old(rxHeader)[2])
    {
      hide RingOk, Window, NonEmpty, TxDatagramQueue.Valid;
      var rxAckSeq := rxHeader[2];
      gotExpectedAck := false;
      if rx.receivedAckSeq != rxAckSeq {
        if Successor(rx.receivedAckSeq) == rxAckSeq {
          gotExpectedAck := true;
          rx := rx.(receivedAckSeq := rxAckSeq);
          tx := tx.(txAttempts := 0);
          tx := tx.(ackedLocInDatagram := tx.ackedLocInDatagram + env.txMtu);
          var frontLength := txDatagramQueue.FrontLength();
          if tx.ackedLocInDatagram >= frontLength {
            tx := tx.(ackedLocInDatagram := 0);
            tx := tx.(sentLocInDatagram := 0);
            var _ := txDatagramQueue.Dequeue();
          }
        }
      }
    }

    method EnqueueTxDatagramLocked(packetCode: byte, buf: seq<byte>) returns (success: bool)
      requires Valid()
      modifies this`tx, txDatagramQueue, txDatagramQueue.datagram
      ensures Valid()
      ensures (State(), success) == EnqueueDatagramLocked(old(State()), packetCode, buf)
    {
      success := txDatagramQueue.Enqueue(buf);
      if success && txDatagramQueue.pending == 1 {
        EnqueueTxPacket(packetCode);
      }
    }

    method EnqueueTxDatagramOrFail(buf: seq<byte>) returns (success: bool)
      requires Valid()
      modifies this`tx, txDatagramQueue, txDatagramQueue.datagram
      ensures Valid()
      ensures (State(), success) == EnqueueDatagramOrFail(old(State()), buf)
      ensures success <==> resetState != Resetting && buf != [] && |old(txDatagramQueue.contents)| < 16
      ensures txDatagramQueue.contents == old(txDatagramQueue.contents) + (if success then [buf] else [])
      ensures tx.packetCodeToSend
           == if success && old(txDatagramQueue.contents) == [] then ERROR_NONE else old(tx.packetCodeToSend)
    {
      success := false;
      if resetState != Resetting {
        success := EnqueueTxDatagramLocked(ERROR_NONE, buf);
      }
    }

    // --------------------------------------------------------------------------------------
    // Reset

    method TransportSendResetLocked(resetType: byte, error: byte)
      requires Valid()
      requires Error(resetType) == 0 && Attr(error) == 0
      modifies this, txDatagramQueue, txDatagramQueue.datagram
      ensures Valid() && State() == SendReset(env, old(State()), resetType, error)
    {
      var ok := Malloc();
      if ok {
        if resetType == ATTR_RESET_ACK {
          resetState := NotResetting;
          resetCount := 0;
        }
        var _ := EnqueueTxDatagramLocked(resetType + error, CONFIG);
      }
    }

    /** Frees the datagram being received, if any, and every queued datagram, and wipes the state. */
    method ResetTransportContext() returns (freed: seq<seq<byte>>)
      requires Valid()
      modifies this, txDatagramQueue, txDatagramQueue.datagram
      ensures Valid() && State() == Spec.ResetTransportContext(old(State()))
      ensures multiset(freed) == multiset((if old(rxDatagram) == [] then [] else [old(rxDatagram)])
                                          + old(State()).txQueue)
    {
      hide RingOk, Window, NonEmpty, TxDatagramQueue.Valid;
      freed := if |rxDatagram| > 0 then [rxDatagram] else [];
      var freedTx := txDatagramQueue.FreeAll();
      freed := freed + freedTx;
      rx, tx, rxDatagram := ZERO_RX, INITIAL_TX, [];
      resetState, delivered := Resetting, [];
    }

    method Reset(resetType: byte, error: byte)
      requires Valid()
      requires Error(resetType) == 0 && Attr(error) == 0
      modifies this, txDatagramQueue, txDatagramQueue.datagram
      ensures Valid() && State() == Spec.Reset(env, old(State()), resetType, error)
    {
      hide RingOk, Window, NonEmpty, TxDatagramQueue.Valid, SendReset;
      var _ := ResetTransportContext();
      rx := rx.(receivedPacketCode := rxHeader[1]);
      rx := rx.(expectedSeq := Successor(rxHeader[3]));
      TransportSendResetLocked(resetType, error);
    }

    method HandleResetTimeout()
      requires Valid() && RxReady(State()) && TxInv(State()) && resetState == Resetting
      modifies this, txDatagramQueue, txDatagramQueue.datagram
      ensures Valid() && State() == ResetTimedOut(env, old(State()))
    {
      hide RingOk, Window, NonEmpty, TxDatagramQueue.Valid, Spec.Reset;
      if resetCount + 1 < MAX_RESET {
        resetCount := resetCount + 1;
        Reset(ATTR_RESET, ERROR_TIMEOUT);
      } else {
        tx := tx.(txAttempts := 0);
        resetState := PermanentFailure;
        txDatagramQueue.Clear();
        tx := tx.(packetCodeToSend := 0);
      }
    }

    method ProcessResetAck()
      requires Valid() && RxInv(State()) && rx.state == Footer
      modifies this, txDatagramQueue, txDatagramQueue.datagram
      ensures Valid() && State() == Spec.ProcessResetAck(env, old(State()))
    {
      hide RingOk, Window, NonEmpty, TxDatagramQueue.Valid, Spec.RegisterRxAck;
      if resetState == NotResetting {
        ClearRxDatagram();
        return;
      }
      resetState := NotResetting;
      resetCount := 0;
      rx := rx.(receivedPacketCode := rxHeader[1]);
      rx := rx.(expectedSeq := Successor(rxHeader[3]));
      var _ := RegisterRxAck();
      ClearRxDatagram();
      if env.answersResetAck {
        EnqueueTxPacket(ERROR_NONE);
      }
    }

    // --------------------------------------------------------------------------------------
    // Processing a packet

    method ProcessRxPayload()
      requires Valid()
      modifies this
      ensures Valid() && State() == Spec.ProcessRxPayload(old(State()))
    {
      rx := rx.(expectedSeq := Successor(rx.expectedSeq));
      if rxHeader[0] % 2 != FLAG_UNFINISHED_DATAGRAM {
        delivered := delivered + [rxDatagram];
        ClearRxDatagram();
      }
      EnqueueTxPacket(ERROR_NONE);
    }

    method ProcessRxPacket()
      requires Valid() && RxInv(State()) && rx.state == Footer
      modifies this, txDatagramQueue, txDatagramQueue.datagram
      ensures Valid() && State() == Spec.ProcessRxPacket(env, old(State()))
    {
      hide RingOk, Window, NonEmpty, TxDatagramQueue.Valid;
      hide Spec.RegisterRxAck, Spec.AbortRxPacket, Spec.ProcessRxPayload;
      rx := rx.(receivedPacketCode := rxHeader[1]);
      var gotExpectedAck := RegisterRxAck();
      ghost var e1 := State();
      var errorCode := ERROR_NONE;
      if HeaderLength(rxHeader) > 0 && rxHeader[3] != rx.expectedSeq {
        errorCode := ERROR_ORDER;
      }
      if (gotExpectedAck && txDatagramQueue.pending > 0) || errorCode == ERROR_ORDER {
        var errorCodeToSend := errorCode;
        if HeaderLength(rxHeader) > 0 && rxHeader[3] as int == rx.expectedSeq as int - 1 {
          tx := tx.(sentAckSeq := Predecessor(tx.sentAckSeq));
          errorCodeToSend := ERROR_NONE;
        }
        EnqueueTxPacket(errorCodeToSend);
      }
      assert State() == Reply(e1, gotExpectedAck, errorCode == ERROR_ORDER);
      if errorCode == ERROR_ORDER {
        AbortRxPacket();
      } else if HeaderLength(rxHeader) > 0 {
        ProcessRxPayload();
      }
    }

    method RxChecksumIsOk() returns (ok: bool)
      requires Valid() && RxInv(State()) && rx.state == Footer
      ensures ok <==> ChecksumOk(State())
    {
      hide RingOk, Window, NonEmpty, TxDatagramQueue.Valid, Crc.Crc32, Number, FromLe32;
      var payload := rxDatagram[rx.locInDatagram - HeaderLength(rxHeader)..];
      var crc := Crc.ChppCrc32(0, AsBits(rxHeader));
      crc := Crc.ChppCrc32(crc, AsBits(payload));
      Crc.Chaining(0, AsBits(rxHeader), AsBits(payload));
      BitsConcat(rxHeader, payload);
      ok := FromLe32(rxFooter) == Number(crc);
    }

    // --------------------------------------------------------------------------------------
    // The receiver, a block at a time

    method ConsumePreamble(buf: seq<byte>, now: nat) returns (consumed: nat)
      requires Valid() && RxReady(State()) && rx.state == Preamble && buf != []
      modifies this
      ensures Valid() && 0 < consumed <= |buf|
      ensures State() == RxBytes(env, old(State()), buf[..consumed])
    {
      hide RingOk, Window, NonEmpty, TxDatagramQueue.Valid, RxBytes;
      consumed := 0;
      RxNothing(env, State());
      assert buf[..0] == [];
      while consumed < |buf| && rx.locInState < PREAMBLE_LEN
        invariant Valid() && consumed <= |buf| && rx.state == Preamble
        invariant consumed == 0 ==> State() == old(State())
        invariant rx.locInState <= PREAMBLE_LEN && (consumed == 0 ==> rx.locInState < PREAMBLE_LEN)
        invariant (if rx.locInState == PREAMBLE_LEN then Spec.SetRxState(State(), Header) else State())
               == RxBytes(env, old(State()), buf[..consumed])
      {
        var offset := rx.locInState;
        if (offset == 0 && buf[consumed] == PREAMBLE_FIRST) || (offset == 1 && buf[consumed] == PREAMBLE_SECOND) {
          rx := rx.(locInState := rx.locInState + 1);
        } else if buf[consumed] == PREAMBLE_FIRST {
          rx := rx.(locInState := 1);
        } else {
          rx := rx.(locInState := 0);
        }
        RxOneMore(env, old(State()), buf, consumed);
        consumed := consumed + 1;
      }
      if rx.locInState == PREAMBLE_LEN {
        rx := rx.(packetStartTimeNs := now);
        SetRxState(Header);
      }
    }

    method ConsumeHeader(buf: seq<byte>) returns (consumed: nat)
      requires Valid() && RxReady(State()) && rx.state == Header && buf != []
      modifies this
      ensures Valid() && 0 < consumed <= |buf|
      ensures State() == RxBytes(env, old(State()), buf[..consumed])
    {
      var bytesToCopy := if |buf| < HEADER_LEN - rx.locInState then |buf| else HEADER_LEN - rx.locInState;
      HeaderBulk(env, State(), buf[..bytesToCopy]);
      rxHeader := Splice(rxHeader, rx.locInState, buf[..bytesToCopy]);
      rx := rx.(locInState := rx.locInState + bytesToCopy);
      if rx.locInState == HEADER_LEN {
        HandleHeader();
      }
      consumed := bytesToCopy;
    }

    method HandleHeader()
      requires Valid() && rx.locInDatagram == |rxDatagram|
      modifies this
      ensures Valid() && State() == HeaderDone(env, old(State()))
    {
      if HeaderLength(rxHeader) > env.rxMtu {
        EnqueueTxPacket(ERROR_HEADER);
        SetRxState(Preamble);
      } else if HeaderLength(rxHeader) == 0 {
        SetRxState(Footer);
      } else {
        var ok := Malloc();
        if !ok {
          EnqueueTxPacket(ERROR_OOM);
          SetRxState(Preamble);
        } else {
          rxDatagram := rxDatagram + Zeros(HeaderLength(rxHeader));
          SetRxState(Payload);
        }
      }
    }

    method ConsumePayload(buf: seq<byte>) returns (consumed: nat)
      requires Valid() && RxReady(State()) && rx.state == Payload && buf != []
      modifies this
      ensures Valid() && 0 < consumed <= |buf|
      ensures State() == RxBytes(env, old(State()), buf[..consumed])
    {
      var left := HeaderLength(rxHeader) - rx.locInState;
      var bytesToCopy := if |buf| < left then |buf| else left;
      PayloadBulk(env, State(), buf[..bytesToCopy]);
      rxDatagram := Splice(rxDatagram, rx.locInDatagram, buf[..bytesToCopy]);
      rx := rx.(locInDatagram := rx.locInDatagram + bytesToCopy);
      rx := rx.(locInState := rx.locInState + bytesToCopy);
      if rx.locInState == HeaderLength(rxHeader) {
        SetRxState(Footer);
      }
      consumed := bytesToCopy;
    }

    method ConsumeFooter(buf: seq<byte>) returns (consumed: nat)
      requires Valid() && RxReady(State()) && rx.state == Footer && buf != []
      modifies this, txDatagramQueue, txDatagramQueue.datagram
      ensures Valid() && 0 < consumed <= |buf|
      ensures State() == RxBytes(env, old(State()), buf[..consumed])
    {
      hide RingOk, Window, NonEmpty, TxDatagramQueue.Valid, FooterDone, RxBytes;
      var bytesToCopy := if |buf| < FOOTER_LEN - rx.locInState then |buf| else FOOTER_LEN - rx.locInState;
      FooterBulk(env, State(), buf[..bytesToCopy]);
      rxFooter := Splice(rxFooter, rx.locInState, buf[..bytesToCopy]);
      rx := rx.(locInState := rx.locInState + bytesToCopy);
      if rx.locInState == FOOTER_LEN {
        HandleFooter();
      }
      consumed := bytesToCopy;
    }

    method HandleFooter()
      requires Valid() && RxInv(State()) && rx.state == Footer
      modifies this, txDatagramQueue, txDatagramQueue.datagram
      ensures Valid() && State() == FooterDone(env, old(State()))
    {
      hide Spec.AbortRxPacket, Spec.Reset, Spec.ProcessResetAck, Spec.ProcessRxPacket,
           ChecksumOk, Checksum;
      var attr := Attr(rxHeader[1]);
      if attr != ATTR_LOOPBACK_REQUEST && attr != ATTR_LOOPBACK_RESPONSE {
        var checksumOk := RxChecksumIsOk();
        if !checksumOk {
          AbortRxPacket();
          EnqueueTxPacket(ERROR_CHECKSUM);
        } else if attr == ATTR_RESET {
          Reset(ATTR_RESET_ACK, ERROR_NONE);
        } else if resetState == PermanentFailure {
          AbortRxPacket();
        } else if attr == ATTR_RESET_ACK {
          ProcessResetAck();
        } else if resetState == Resetting {
          AbortRxPacket();
        } else {
          ProcessRxPacket();
        }
      }
      SetRxState(Preamble);
    }

    /** `chppCheckRxPacketTimeout`. */
    method CheckRxPacketTimeout(now: nat, rxTimeoutNs: nat) returns (timedOut: bool)
      requires Valid() && RxReady(State())
      modifies this
      ensures Valid()
      ensures timedOut <==> old(rx.state) != Preamble && now > old(rx.packetStartTimeNs) + rxTimeoutNs
      ensures State() == if timedOut
                         then EnqueuePacket(Spec.AbortRxPacket(old(State())), ERROR_TIMEOUT)
                         else old(State())
    {
      timedOut := rx.state != Preamble && now > rx.packetStartTimeNs + rxTimeoutNs;
      if timedOut {
        AbortRxPacket();
        EnqueueTxPacket(ERROR_TIMEOUT);
      }
    }

    /**
     * `chppRxDataCb`: consuming a buffer in blocks is consuming it byte by byte, after a packet
     * that has taken too long is given up.
     */
    method RxDataCb(buf: seq<byte>, now: nat, rxTimeoutNs: nat) returns (idle: bool, ghost timedOut: bool)
      requires Valid() && RxReady(State())
      modifies this, txDatagramQueue, txDatagramQueue.datagram
      ensures Valid() && RxReady(State())
      ensures timedOut <==> old(rx.state) != Preamble && now > old(rx.packetStartTimeNs) + rxTimeoutNs
      ensures !timedOut ==> State() == RxBytes(env, old(State()), buf)
      ensures timedOut ==>
                State() == RxBytes(env, EnqueuePacket(Spec.AbortRxPacket(old(State())), ERROR_TIMEOUT), buf)
      ensures idle <==> Idle(State())
      ensures TxInv(old(State())) ==> TxInv(State())
    {
      hide RingOk, Window, NonEmpty, TxDatagramQueue.Valid, RxByte, RxBytes;
      var late := CheckRxPacketTimeout(now, rxTimeoutNs);
      timedOut := late;
      ghost var start := State();
      var consumed := 0;
      assert buf[..0] == [];
      RxNothing(env, start);
      while consumed < |buf|
        invariant Valid() && consumed <= |buf|
        invariant State() == RxBytes(env, start, buf[..consumed])
        decreases |buf| - consumed
      {
        var n;
        match rx.state {
          case Preamble => n := ConsumePreamble(buf[consumed..], now);
          case Header => n := ConsumeHeader(buf[consumed..]);
          case Payload => n := ConsumePayload(buf[consumed..]);
          case Footer => n := ConsumeFooter(buf[consumed..]);
        }
        RxConcat(env, start, buf[..consumed], buf[consumed..][..n]);
        assert buf[..consumed] + buf[consumed..][..n] == buf[..consumed + n];
        consumed := consumed + n;
      }
      assert buf[..|buf|] == buf;
      idle := rx.state == Preamble && rx.locInState == 0;
    }

    /** `chppRxPacketCompleteCb`: a packet that ends early is given up. */
    method RxPacketCompleteCb()
      requires Valid() && RxReady(State())
      modifies this
      ensures Valid()
      ensures State() == if old(rx.state) == Preamble then old(State())
                         else EnqueuePacket(Spec.AbortRxPacket(old(State())), ERROR_HEADER)
    {
      if rx.state != Preamble {
        AbortRxPacket();
        EnqueueTxPacket(ERROR_HEADER);
      }
    }

    // --------------------------------------------------------------------------------------
    // Transmission

    /** `chppAppendToPendingTxPacket`. */
    method AppendToPendingTxPacket(buf: seq<byte>)
      requires linkBufferSize + |buf| <= linkTxBuffer.Length
      modifies this`linkBufferSize, linkTxBuffer
      ensures linkBufferSize == old(linkBufferSize) + |buf|
      ensures linkTxBuffer[..linkBufferSize] == old(linkTxBuffer[..linkBufferSize]) + buf
    {
      forall i | 0 <= i < |buf| {
        linkTxBuffer[linkBufferSize + i] := buf[i];
      }
      linkBufferSize := linkBufferSize + |buf|;
    }

    /** `chppAddFooter`. */
    method AddFooter()
      requires PREAMBLE_LEN <= linkBufferSize && linkBufferSize + FOOTER_LEN <= linkTxBuffer.Length
      modifies this`linkBufferSize, linkTxBuffer
      ensures linkBufferSize == old(linkBufferSize) + FOOTER_LEN
      ensures linkTxBuffer[..linkBufferSize]
           == old(linkTxBuffer[..linkBufferSize])
              + Le32(Checksum(old(linkTxBuffer[PREAMBLE_LEN..linkBufferSize])))
    {
      var covered := linkTxBuffer[PREAMBLE_LEN..linkBufferSize];
      var crc := Crc.ChppCrc32(0, AsBits(covered));
      AppendToPendingTxPacket(Le32(Number(crc)));
    }

    /** `memset` and `chppAddPreamble`, then the code and ACK fields of `chppAddHeader`. */
    method StartPacket()
      requires linkTxBuffer.Length >= PREAMBLE_LEN + HEADER_LEN
      modifies this`linkBufferSize, linkTxBuffer
      ensures linkBufferSize == PREAMBLE_LEN + HEADER_LEN
      ensures linkTxBuffer[..linkBufferSize]
           == Started(tx.packetCodeToSend, rx.expectedSeq, 0)
    {
      forall i | 0 <= i < linkTxBuffer.Length {
        linkTxBuffer[i] := 0;
      }
      linkTxBuffer[0] := PREAMBLE_FIRST;
      linkTxBuffer[1] := PREAMBLE_SECOND;
      linkBufferSize := PREAMBLE_LEN + HEADER_LEN;
      linkTxBuffer[PREAMBLE_LEN + 1] := tx.packetCodeToSend;
      linkTxBuffer[PREAMBLE_LEN + 2] := rx.expectedSeq;
    }

    /** The bookkeeping of `chppAddHeader`: a packet's attribute outlives it, its error does not. */
    method NoteHeaderSent()
      requires Valid()
      modifies this`tx
      ensures Valid()
      ensures State() == old(State()).(packetCodeToSend := Attr(old(tx.packetCodeToSend)),
                                       sentAckSeq := old(rx.expectedSeq))
    {
      tx := tx.(packetCodeToSend := Attr(tx.packetCodeToSend));
      tx := tx.(sentAckSeq := rx.expectedSeq);
    }

    /** `chppAddPayload`, after the rest of the header is filled in. */
    method AddPayload(ghost code: byte, ghost ackSeq: byte, ghost seqNo: byte, datagram: seq<byte>)
      returns (p: Packet)
      requires Valid() && tx.ackedLocInDatagram < |datagram|
      requires linkBufferSize == PREAMBLE_LEN + HEADER_LEN
      requires linkTxBuffer[..linkBufferSize] == Started(code, ackSeq, seqNo)
      modifies this`linkBufferSize, this`tx, linkTxBuffer
      ensures Valid()
      ensures var rest := datagram[old(tx.ackedLocInDatagram)..];
              var length := if |rest| > env.txMtu then env.txMtu else |rest|;
              && p == Packet(if |rest| > env.txMtu then FLAG_UNFINISHED_DATAGRAM else 0,
                             code, ackSeq, seqNo, rest[..length])
              && State() == old(State()).(sentLocInDatagram := old(tx.ackedLocInDatagram) + length)
      ensures linkBufferSize == PREAMBLE_LEN + HEADER_LEN + |p.payload|
      ensures linkTxBuffer[..linkBufferSize] == [PREAMBLE_FIRST, PREAMBLE_SECOND] + HeaderBytes(p) + p.payload
    {
      ghost var before := linkTxBuffer[..linkBufferSize];
      assert linkTxBuffer[3] == before[3] && linkTxBuffer[4] == before[4] && linkTxBuffer[5] == before[5];
      var remainingBytes := |datagram| - tx.ackedLocInDatagram;
      var flags, length := 0, remainingBytes;
      if remainingBytes > env.txMtu {
        flags, length := FLAG_UNFINISHED_DATAGRAM, env.txMtu;
      }
      p := Packet(flags, linkTxBuffer[3], linkTxBuffer[4], linkTxBuffer[5],
                  datagram[tx.ackedLocInDatagram..][..length]);
      linkTxBuffer[PREAMBLE_LEN] := flags;
      linkTxBuffer[PREAMBLE_LEN + 4] := Le16(length)[0];
      linkTxBuffer[PREAMBLE_LEN + 5] := Le16(length)[1];
      assert linkTxBuffer[..linkBufferSize] == [PREAMBLE_FIRST, PREAMBLE_SECOND] + HeaderBytes(p);
      AppendToPendingTxPacket(p.payload);
      tx := tx.(sentLocInDatagram := tx.ackedLocInDatagram + length);
    }

    /** The transmit half of `chppTransportDoWork`: what it hands to the link is a whole frame. */
    method DoWork(resendPayload: bool) returns (packet: Option<Packet>)
      requires Valid() && RxInv(State()) && TxInv(State())
      modifies this, txDatagramQueue, txDatagramQueue.datagram, linkTxBuffer
      ensures Valid() && (State(), packet) == Spec.DoWork(env, old(State()), resendPayload)
      ensures packet.Some? ==> |packet.value.payload| <= env.txMtu
      ensures packet.Some? ==> linkBufferSize <= linkTxBuffer.Length
                               && linkTxBuffer[..linkBufferSize] == Frame(packet.value)
    {
      hide RingOk, Window, NonEmpty, TxDatagramQueue.Valid, Spec.SendPacket, Frame;
      packet := None;
      var sendPayload := txDatagramQueue.pending > 0 && (tx.txAttempts == 0 || resendPayload);
      if !tx.linkBusy && (sendPayload || rx.expectedSeq != tx.sentAckSeq || tx.packetCodeToSend != 0) {
        packet := SendPacket(sendPayload);
      }
    }

    method SendPacket(sendPayload: bool) returns (packet: Option<Packet>)
      requires Valid() && RxInv(State()) && TxInv(State())
      requires sendPayload ==> txDatagramQueue.pending > 0
      modifies this, txDatagramQueue, txDatagramQueue.datagram, linkTxBuffer
      ensures Valid() && (State(), packet) == Spec.SendPacket(env, old(State()), sendPayload)
      ensures packet.Some? ==> |packet.value.payload| <= env.txMtu
      ensures packet.Some? ==> linkBufferSize <= linkTxBuffer.Length
                               && linkTxBuffer[..linkBufferSize] == Frame(packet.value)
    {
      hide RingOk, Window, NonEmpty, TxDatagramQueue.Valid, Spec.Reset, Frame, HeaderBytes, Checksum, Started;
      StartPacket();
      var code := tx.packetCodeToSend;
      NoteHeaderSent();
      tx := tx.(linkBusy := true);
      if !sendPayload {
        var p := Packet(0, code, rx.expectedSeq, 0, []);
        EmptyHeader(p);
        FinishFrame(p);
        packet := Some(p);
      } else {
        packet := SendPayload(code, rx.expectedSeq);
      }
    }

    method SendPayload(ghost code: byte, ghost ackSeq: byte) returns (packet: Option<Packet>)
      requires Valid() && TxInv(State()) && txDatagramQueue.pending > 0
      requires linkBufferSize == PREAMBLE_LEN + HEADER_LEN
      requires linkTxBuffer[..linkBufferSize] == Started(code, ackSeq, 0)
      modifies this, txDatagramQueue, txDatagramQueue.datagram, linkTxBuffer
      ensures Valid()
      ensures var e2 := old(State()).(sentSeq := old(rx.receivedAckSeq));
              if old(tx.txAttempts) > MAX_RETX && old(resetState) != Resetting then
                packet.None? && State() == Spec.Reset(env, e2, ATTR_RESET, ERROR_MAX_RETRIES)
              else
                var rest := e2.txQueue[0][e2.ackedLocInDatagram..];
                var length := if |rest| > env.txMtu then env.txMtu else |rest|;
                && State() == e2.(sentLocInDatagram := e2.ackedLocInDatagram + length,
                                  txAttempts := old(tx.txAttempts) + 1)
                && packet == Some(Packet(if |rest| > env.txMtu then FLAG_UNFINISHED_DATAGRAM else 0,
                                         code, ackSeq, old(rx.receivedAckSeq), rest[..length]))
                && linkBufferSize <= linkTxBuffer.Length
                && linkTxBuffer[..linkBufferSize] == Frame(packet.value)
    {
      hide RingOk, Window, NonEmpty, Spec.Reset, Frame, HeaderBytes, Checksum;
      packet := None;
      linkTxBuffer[PREAMBLE_LEN + 3] := rx.receivedAckSeq;
      tx := tx.(sentSeq := rx.receivedAckSeq);
      assert linkTxBuffer[..linkBufferSize] == Started(code, ackSeq, rx.receivedAckSeq);
      if tx.txAttempts > MAX_RETX && resetState != Resetting {
        Reset(ATTR_RESET, ERROR_MAX_RETRIES);
      } else {
        var datagram := txDatagramQueue.Front();
        var p := AddPayload(code, ackSeq, rx.receivedAckSeq, datagram);
        FinishFrame(p);
        tx := tx.(txAttempts := tx.txAttempts + 1);
        packet := Some(p);
      }
    }

    method FinishFrame(p: Packet)
      requires Valid() && |p.payload| <= env.txMtu
      requires linkBufferSize == PREAMBLE_LEN + HEADER_LEN + |p.payload|
      requires linkTxBuffer[..linkBufferSize] == [PREAMBLE_FIRST, PREAMBLE_SECOND] + HeaderBytes(p) + p.payload
      modifies this`linkBufferSize, linkTxBuffer
      ensures Valid() && State() == old(State())
      ensures linkBufferSize <= linkTxBuffer.Length && linkTxBuffer[..linkBufferSize] == Frame(p)
    {
      assert linkTxBuffer[PREAMBLE_LEN..linkBufferSize] == linkTxBuffer[..linkBufferSize][PREAMBLE_LEN..];
      assert linkTxBuffer[PREAMBLE_LEN..linkBufferSize] == HeaderBytes(p) + p.payload;
      AddFooter();
    }

    /** `chppLinkSendDoneCb`. */
    method LinkSendDoneCb()
      requires Valid()
      modifies this`tx
      ensures Valid() && State() == old(State()).(linkBusy := false)
    {
      tx := tx.(linkBusy := false);
    }
  }

  /** The link buffer once preamble and header are in, before flags and length. */
  function Started(code: byte, ackSeq: byte, seqNo: byte): seq<byte> {
    [PREAMBLE_FIRST, PREAMBLE_SECOND, 0, code, ackSeq, seqNo, 0, 0, 0, 0]
  }

  lemma EmptyHeader(p: Packet)
    requires p.flags == 0 && p.seqNo == 0 && p.payload == []
    ensures Started(p.packetCode, p.ackSeq, 0)
         == [PREAMBLE_FIRST, PREAMBLE_SECOND] + HeaderBytes(p) + p.payload
  {
  }

  lemma RxNothing(env: Env, e: Endpoint)
    requires env.Valid() && RxReady(e)
    ensures RxBytes(env, e, []) == e
  {}

  lemma RxOneMore(env: Env, e: Endpoint, buf: seq<byte>, i: nat)
    requires env.Valid() && RxReady(e) && i < |buf|
    ensures RxBytes(env, e, buf[..i + 1]) == RxByte(env, RxBytes(env, e, buf[..i]), buf[i])
  {
    assert buf[..i + 1] == buf[..i] + [buf[i]];
    RxConcat(env, e, buf[..i], [buf[i]]);
    var m := RxBytes(env, e, buf[..i]);
    assert RxBytes(env, m, [buf[i]]) == RxByte(env, m, buf[i]);
  }
}
