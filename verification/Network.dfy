/**
 * Two endpoints joined by FIFO links that may lose packets and put noise between them.  `A` starts a
 * reset.  `B` may be in any state but a reset of its own, and anything but a RESET or RESET-ACK may still
 * be in flight.  Each step is one call into an endpoint.
 */
module Network {
  import opened Bytes
  import opened EndpointState
  import opened Framing
  import opened Reception
  import opened Arq

  /** An endpoint with its history since its last reset. */
  datatype Side = Side(e: Endpoint, sent: seq<seq<byte>>, acked: nat, accepted: nat)

  /** `ab` holds what `A` sent and `B` has not received, oldest first; `ba` the converse. */
  datatype Net = Net(a: Side, b: Side, ab: seq<Flight>, ba: seq<Flight>)

  datatype Links = Links(envA: Env, envB: Env)

  datatype Action =
    | Enqueue(datagram: seq<byte>)
    | Work(resend: bool)
    | SendDone
    | Deliver(noise: seq<byte>)
    | Lose(i: nat)
    | Nack(error: byte)
    | RetryReset

  datatype Step = Step(atA: bool, action: Action)

  predicate LinkOk(env: Env, peer: Env) {
    env.Valid() && |CONFIG| <= env.txMtu <= peer.rxMtu
  }

  ghost predicate LinksOk(links: Links) {
    && LinkOk(links.envA, links.envB) && LinkOk(links.envB, links.envA)
    && (forall k :: links.envA.mem(k)) && (forall k :: links.envB.mem(k))
  }

  function SenderOf(s: Side): Sender {
    Sender(s.sent, s.acked, s.e.receivedAckSeq, s.e.txQueue, s.e.ackedLocInDatagram)
  }

  function ReceiverOf(s: Side): Receiver {
    Receiver(s.accepted, s.e.expectedSeq, s.e.delivered, s.e.rxDatagram)
  }

  // ----------------------------------------------------------------------------------------
  // Steps of one side

  predicate Fits(env: Env, ch: seq<Flight>) {
    forall i :: 0 <= i < |ch| ==> |ch[i].p.payload| <= env.rxMtu
  }

  /** Between packets, with consistent bookkeeping. */
  predicate SideOk(s: Side) { Idle(s.e) && TxInv(s.e) }

  /** Giving up on a payload starts a new reset, and with it a new history. */
  ghost predicate Enabled(me: Side, inbound: seq<Flight>, action: Action)
  {
    match action
    case Enqueue(_) => true
    case Work(resend) => !GivesUpResending(me.e, resend)
    case SendDone => true
    case Deliver(noise) => inbound != [] && !ContainsPreamble(noise)
    case Lose(i) => i < |inbound|
    case Nack(error) => Attr(error) == ATTR_NONE
    case RetryReset => me.e.resetState == Resetting && me.e.resetCount + 1 < MAX_RESET
  }

  function AfterReset(e: Endpoint, accepted: nat): Side { Side(e, [CONFIG], 0, accepted) }

  /** The history after `p` took the endpoint from `me.e` to `e`. */
  function AfterPacket(me: Side, p: Packet, e: Endpoint): Side {
    if Attr(p.packetCode) == ATTR_RESET then AfterReset(e, 1)
    else
      Side(e, me.sent,
           if e.receivedAckSeq != me.e.receivedAckSeq then me.acked + 1 else me.acked,
           if Attr(p.packetCode) == ATTR_RESET_ACK && me.e.resetState == Resetting then 1
           else if e.expectedSeq != me.e.expectedSeq then me.accepted + 1 else me.accepted)
  }

  /**
   * How many fragments a packet acknowledges.  What an endpoint in a reset acknowledges is left from
   * before, so its number counts for nothing unless it happens to be the first: without the RESET mark
   * the peer takes that for an ACK of its own configuration.
   */
  function AckIndex(me: Side, p: Packet): nat {
    if me.e.resetState == Resetting && Attr(p.packetCode) == ATTR_NONE && p.ackSeq == 1 then 1
    else me.accepted
  }

  /** What an action puts on the link. */
  function Emits(env: Env, me: Side, action: Action): seq<Flight>
    requires env.Valid() && SideOk(me)
  {
    if !action.Work? then []
    else
      var packet := DoWork(env, me.e, action.resend).1;
      if packet.None? then [] else [Flight(packet.value, me.acked, AckIndex(me, packet.value))]
  }

  datatype Local = Local(me: Side, inbound: seq<Flight>, outbound: seq<Flight>)

  ghost function LocalStep(env: Env, l: Local, action: Action): Local
    requires env.Valid() && SideOk(l.me) && Fits(env, l.inbound) && Enabled(l.me, l.inbound, action)
  {
    var me := l.me;
    match action
    case Enqueue(d) =>
      var (e, ok) := EnqueueDatagramOrFail(me.e, d);
      l.(me := me.(e := e, sent := if ok then me.sent + [d] else me.sent))
    case Work(resend) =>
      l.(me := me.(e := DoWork(env, me.e, resend).0), outbound := l.outbound + Emits(env, me, action))
    case SendDone => l.(me := me.(e := me.e.(linkBusy := false)))
    case Deliver(noise) =>
      var p := l.inbound[0].p;
      var e := RxBytes(env, me.e, noise + Frame(p));
      l.(me := AfterPacket(me, p, e), inbound := l.inbound[1..])
    case Lose(i) => l.(inbound := Without(l.inbound, i))
    case Nack(error) => l.(me := me.(e := EnqueuePacket(me.e, error)))
    case RetryReset => l.(me := AfterReset(ResetTimedOut(env, me.e), 0))
  }

  lemma DeliverIsReceive(env: Env, l: Local, noise: seq<byte>)
    requires env.Valid() && SideOk(l.me) && Fits(env, l.inbound)
    requires Enabled(l.me, l.inbound, Deliver(noise))
    requires forall k :: env.mem(k)
    ensures RxBytes(env, l.me.e, noise + Frame(l.inbound[0].p)) == Receive(env, l.me.e, l.inbound[0].p)
  {
    FrameRoundTrip(env, l.me.e, noise, l.inbound[0].p);
  }

  lemma LocalStepOk(env: Env, peer: Env, l: Local, action: Action)
    requires LinkOk(env, peer) && SideOk(l.me) && Fits(env, l.inbound) && Fits(peer, l.outbound)
    requires Enabled(l.me, l.inbound, action)
    requires forall k :: env.mem(k)
    ensures var l' := LocalStep(env, l, action);
            SideOk(l'.me) && Fits(env, l'.inbound) && Fits(peer, l'.outbound)
  {
    hide RxBytes, Receive, Reset, Frame;
    if action.Deliver? {
      DeliverIsReceive(env, l, action.noise);
    }
  }

  // ----------------------------------------------------------------------------------------
  // Outside a reset: both directions agree

  /** Agreement seen from one side; `me` and `peer` can be swapped. */
  predicate Synced(mtu: nat, peerMtu: nat, me: Side, peer: Side, inbound: seq<Flight>, outbound: seq<Flight>)
    requires 0 < mtu && 0 < peerMtu
  {
    && Flow(mtu, SenderOf(me), ReceiverOf(peer), outbound, inbound)
    && Flow(peerMtu, SenderOf(peer), ReceiverOf(me), inbound, outbound)
  }

  lemma WorkCarries(env: Env, me: Side, resend: bool)
    requires env.Valid() && SideOk(me) && SenderOk(env.txMtu, SenderOf(me))
    requires !GivesUpResending(me.e, resend)
    requires DoWork(env, me.e, resend).1.Some?
    ensures Carries(Stream(env.txMtu, me.sent),
                    Flight(DoWork(env, me.e, resend).1.value, me.acked, me.accepted))
  {
    hide Stream;
    if ShouldAttachPayload(me.e, resend) {
      FirstPending(env.txMtu, me.e.txQueue, me.e.ackedLocInDatagram);
      var fs := Stream(env.txMtu, me.sent);
      assert Pending(env.txMtu, me.e.txQueue, me.e.ackedLocInDatagram)[0] == fs[me.acked];
      var rest := me.e.txQueue[0][me.e.ackedLocInDatagram..];
      assert rest[..|rest|] == rest;
    }
  }

  lemma SyncedWork(env: Env, peerMtu: nat, me: Side, peer: Side, inbound: seq<Flight>, outbound: seq<Flight>,
                   resend: bool)
    requires env.Valid() && SideOk(me) && Fits(env, inbound) && 0 < peerMtu
    requires Synced(env.txMtu, peerMtu, me, peer, inbound, outbound)
    requires !GivesUpResending(me.e, resend) && me.e.resetState == NotResetting
    ensures var l' := LocalStep(env, Local(me, inbound, outbound), Work(resend));
            Synced(env.txMtu, peerMtu, l'.me, peer, l'.inbound, l'.outbound)
  {
    hide Flow, SenderOk, Carries;
    var (e, packet) := DoWork(env, me.e, resend);
    var me' := me.(e := e);
    assert SenderOf(me') == SenderOf(me) && ReceiverOf(me') == ReceiverOf(me);
    if packet.None? {
      assert outbound + Emits(env, me, Work(resend)) == outbound;
    } else {
      var f := Flight(packet.value, me.acked, me.accepted);
      FlowParts(env.txMtu, SenderOf(me), ReceiverOf(peer), outbound, inbound);
      WorkCarries(env, me, resend);
      FlowSendData(env.txMtu, SenderOf(me), ReceiverOf(peer), outbound, inbound, f);
      FlowSendAck(peerMtu, SenderOf(peer), ReceiverOf(me), inbound, outbound, f);
    }
  }

  lemma FlowParts(mtu: nat, tx: Sender, rx: Receiver, ch: seq<Flight>, back: seq<Flight>)
    requires 0 < mtu && Flow(mtu, tx, rx, ch, back)
    ensures SenderOk(mtu, tx)
  {
  }

  lemma SyncedEnqueue(env: Env, peerMtu: nat, me: Side, peer: Side, inbound: seq<Flight>, outbound: seq<Flight>,
                      d: seq<byte>)
    requires env.Valid() && SideOk(me) && Fits(env, inbound) && 0 < peerMtu
    requires Synced(env.txMtu, peerMtu, me, peer, inbound, outbound)
    ensures var l' := LocalStep(env, Local(me, inbound, outbound), Enqueue(d));
            Synced(env.txMtu, peerMtu, l'.me, peer, l'.inbound, l'.outbound)
  {
    hide Flow;
    FlowEnqueue(env.txMtu, SenderOf(me), ReceiverOf(peer), outbound, inbound, d);
    var (e, ok) := EnqueueDatagramOrFail(me.e, d);
    var me' := me.(e := e, sent := if ok then me.sent + [d] else me.sent);
    assert ReceiverOf(me') == ReceiverOf(me);
    assert SenderOf(me') == if ok then SenderOf(me).(sent := me.sent + [d], queue := me.e.txQueue + [d])
                            else SenderOf(me);
  }

  lemma SyncedLose(mtu: nat, peerMtu: nat, me: Side, peer: Side, inbound: seq<Flight>, outbound: seq<Flight>, i: nat)
    requires 0 < mtu && 0 < peerMtu && i < |inbound|
    requires Synced(mtu, peerMtu, me, peer, inbound, outbound)
    ensures Synced(mtu, peerMtu, me, peer, Without(inbound, i), outbound)
  {
    hide Flow;
    FlowLoseAck(mtu, SenderOf(me), ReceiverOf(peer), outbound, inbound, i);
    FlowLoseData(peerMtu, SenderOf(peer), ReceiverOf(me), inbound, outbound, i);
  }

  /** A plain packet acts on the two directions independently. */
  lemma PlainIsAckAndAccept(env: Env, me: Side, f: Flight)
    requires env.Valid() && SideOk(me) && |f.p.payload| < 0x1_0000
    requires Attr(f.p.packetCode) == ATTR_NONE && me.e.resetState == NotResetting
    ensures var me' := AfterPacket(me, f.p, Receive(env, me.e, f.p));
            && SenderOf(me') == Acknowledge(env.txMtu, SenderOf(me), f.p.ackSeq)
            && ReceiverOf(me') == Accept(ReceiverOf(me), f.p)
  {
    hide Receive;
    ReceivePlain(env, me.e, f.p);
  }

  lemma SyncedPlain(env: Env, peerMtu: nat, me: Side, peer: Side, inbound: seq<Flight>, outbound: seq<Flight>)
    requires env.Valid() && SideOk(me) && Fits(env, inbound) && 0 < peerMtu
    requires Synced(env.txMtu, peerMtu, me, peer, inbound, outbound)
    requires inbound != [] && Attr(inbound[0].p.packetCode) == ATTR_NONE
    requires me.e.resetState == NotResetting
    ensures var me' := AfterPacket(me, inbound[0].p, Receive(env, me.e, inbound[0].p));
            Synced(env.txMtu, peerMtu, me', peer, inbound[1..], outbound)
    ensures inbound[0].p.ackSeq == Successor(me.e.receivedAckSeq) ==> me.e.txQueue != []
  {
    hide Flow, Receive, Acknowledge, Accept;
    PlainIsAckAndAccept(env, me, inbound[0]);
    FlowAck(env.txMtu, SenderOf(me), ReceiverOf(peer), outbound, inbound);
    FlowDeliver(peerMtu, SenderOf(peer), ReceiverOf(me), inbound, outbound);
  }

  // ----------------------------------------------------------------------------------------
  // The whole network

  ghost predicate StepEnabled(links: Links, net: Net, step: Step) {
    if step.atA then Enabled(net.a, net.ba, step.action) else Enabled(net.b, net.ab, step.action)
  }

  predicate NetOk(links: Links, net: Net) {
    && SideOk(net.a) && SideOk(net.b) && Fits(links.envB, net.ab) && Fits(links.envA, net.ba)
  }

  ghost function Next(links: Links, net: Net, step: Step): Net
    requires LinksOk(links) && NetOk(links, net) && StepEnabled(links, net, step)
  {
    if step.atA then
      var l := LocalStep(links.envA, Local(net.a, net.ba, net.ab), step.action);
      Net(l.me, net.b, l.outbound, l.inbound)
    else
      var l := LocalStep(links.envB, Local(net.b, net.ab, net.ba), step.action);
      Net(net.a, l.me, l.inbound, l.outbound)
  }

  /** An endpoint that has wiped its state to announce it; a NACK erases the RESET mark. */
  predicate Announcing(s: Side) {
    && s.e.resetState == Resetting && s.e.txQueue == [CONFIG] && s.e.ackedLocInDatagram == 0
    && s.e.receivedAckSeq == 0 && s.e.delivered == []
    && (Attr(s.e.packetCodeToSend) == ATTR_RESET || Attr(s.e.packetCodeToSend) == ATTR_NONE)
    && s.sent == [CONFIG] && s.acked == 0 && s.accepted == 0
  }

  /** A resetting endpoint whose next packet will pass for an ACK of the peer's configuration. */
  predicate Misleads(s: Side) {
    Attr(s.e.packetCodeToSend) == ATTR_NONE && s.e.expectedSeq == 1
  }

  predicate ResetFlight(f: Flight) {
    && IsReset(f) && f.p.seqNo == 0 && (f.p.payload == [] || f.p.payload == CONFIG)
    && f.p.flags == 0
  }

  /** What an endpoint sends during its reset: a RESET, or the same without the mark. */
  predicate Preliminary(f: Flight) {
    && f.n == 0 && f.p.seqNo == 0 && (f.p.payload == [] || f.p.payload == CONFIG) && f.p.flags == 0
    && ((IsReset(f) && f.a == 0)
        || (Attr(f.p.packetCode) == ATTR_NONE && (Blank(f) || (f.a == 1 && f.p.ackSeq == 1))))
  }

  /** Sent without the mark, and with the number that passes for an ACK. */
  predicate Misleading(f: Flight) { Preliminary(f) && f.a == 1 }

  predicate HasMisleading(ch: seq<Flight>) { exists i :: 0 <= i < |ch| && Misleading(ch[i]) }

  predicate HasReset(ch: seq<Flight>) { exists i :: 0 <= i < |ch| && IsReset(ch[i]) }

  predicate HasResetAck(ch: seq<Flight>) { exists i :: 0 <= i < |ch| && IsResetAck(ch[i]) }

  predicate AllPreliminary(ch: seq<Flight>) { forall i :: 0 <= i < |ch| ==> Preliminary(ch[i]) }

  predicate MisleadingLast(ch: seq<Flight>) {
    forall i, j :: 0 <= i < j < |ch| && Misleading(ch[i]) ==> Misleading(ch[j])
  }

  /** A RESET with a misleading packet behind it. */
  predicate MisleadsAfterReset(ch: seq<Flight>) {
    exists i, j :: 0 <= i < j < |ch| && IsReset(ch[i]) && Misleading(ch[j])
  }

  predicate OldThenPreliminary(ch: seq<Flight>) {
    && (forall i, j :: 0 <= i <= j < |ch| && IsReset(ch[i]) ==> Preliminary(ch[j]))
    && (forall i, j, k :: 0 <= i < j < k < |ch| && IsReset(ch[i]) && Misleading(ch[j]) ==> Misleading(ch[k]))
  }

  predicate NoResets(ch: seq<Flight>) {
    forall i :: 0 <= i < |ch| ==> !IsReset(ch[i]) && !IsResetAck(ch[i])
  }

  /** `B` has not seen the reset: it may be in any state and use any sequence numbers. */
  predicate BeforeReset(net: Net) {
    && Announcing(net.a) && OldThenPreliminary(net.ab) && (MisleadsAfterReset(net.ab) ==> Misleads(net.a))
    && NoResets(net.ba)
    && Attr(net.b.e.packetCodeToSend) == ATTR_NONE && net.b.e.resetState != Resetting
  }

  /** A payload after the first fragment. */
  predicate Late(f: Flight) { f.p.payload != [] && f.n >= 1 }

  predicate PlainOrReset(ch: seq<Flight>) {
    forall i :: 0 <= i < |ch| ==> Attr(ch[i].p.packetCode) == ATTR_NONE || ResetFlight(ch[i])
  }

  predicate PlainOrResetAck(ch: seq<Flight>) {
    forall i :: 0 <= i < |ch| ==> Attr(ch[i].p.packetCode) == ATTR_NONE || IsResetAck(ch[i])
  }

  /** Packets still marked RESET-ACK travel ahead of all fragments but the first. */
  predicate MarksFirst(accepted: nat, ch: seq<Flight>) {
    && (forall i :: 0 <= i < |ch| && IsResetAck(ch[i]) ==> accepted == 1)
    && (forall i, j :: 0 <= i <= j < |ch| && IsResetAck(ch[j]) ==> !Late(ch[i]))
  }

  /** So far as `s` still marks its packets RESET-ACK, no fragment but the first has been sent or taken. */
  predicate MarkerOk(s: Side, accepted: nat, ch: seq<Flight>) {
    || Attr(s.e.packetCodeToSend) == ATTR_NONE
    || (&& Attr(s.e.packetCodeToSend) == ATTR_RESET_ACK
        && accepted == 1 && s.accepted == 1 && (forall i :: 0 <= i < |ch| ==> !Late(ch[i]))
        && (s.acked == 0 || s.e.txQueue == []))
  }

  // ----------------------------------------------------------------------------------------
  // B has reset; A has not yet heard of it

  predicate AnswerFlight(f: Flight) {
    && (Attr(f.p.packetCode) == ATTR_NONE || IsResetAck(f))
    && f.a == 1 && f.p.ackSeq == 1 && (IsResetAck(f) ==> f.p.seqNo == 0)
  }

  /** `s` has answered a RESET with `ch`: the flow that starts when the peer takes the first of it. */
  predicate Answers(mtu: nat, s: Side, ch: seq<Flight>)
    requires 0 < mtu
  {
    && Flow(mtu, SenderOf(s), FRESH_RECEIVER, ch, [])
    && (forall i :: 0 <= i < |ch| ==> AnswerFlight(ch[i]))
    && MarksFirst(1, ch) && MarkerOk(s, 1, ch)
  }

  /** Whatever RESET-ACK is taken first, the rest answers it; and so will what comes next. */
  predicate AnswersFrom(mtu: nat, s: Side, ch: seq<Flight>, i: nat)
    requires 0 < mtu
  {
    (i < |ch| && IsResetAck(ch[i])) || i == |ch| ==> Answers(mtu, s, ch[i..])
  }

  /** An endpoint that has answered a RESET and taken nothing since. */
  predicate Responding(s: Side) {
    s.e.resetState == NotResetting && ReceiverOf(s) == FRESH_RECEIVER
  }

  /** `B` may count its configuration as acknowledged, by a packet that only looks like an ACK. */
  predicate Misled(net: Net) { net.b.acked != 0 || HasMisleading(net.ab) }

  ghost predicate DuringReset(links: Links, net: Net)
    requires links.envB.Valid()
  {
    && Announcing(net.a) && AllPreliminary(net.ab) && MisleadingLast(net.ab)
    && (Misled(net) ==> Misleads(net.a))
    && (net.b.acked != 0 ==> forall i :: 0 <= i < |net.ab| ==> Misleading(net.ab[i]))
    && Responding(net.b)
    && (forall i :: 0 <= i < |net.ba| ==> !IsReset(net.ba[i]))
    && (forall i: nat :: AnswersFrom(links.envB.txMtu, net.b, net.ba, i))
  }

  // ----------------------------------------------------------------------------------------
  // Both have reset

  /** Neither an ACK nor a payload to a peer that has just answered a RESET. */
  predicate Harmless(f: Flight) { IsReset(f) || (f.a == 0 && f.n == 0) }

  /** A RESET that arrives late finds `B` as it left it. */
  predicate ResetsFirst(b: Side, ch: seq<Flight>) {
    && (HasReset(ch) ==> b.acked == 0 && b.accepted == 1)
    && (forall i, j :: 0 <= i < j < |ch| && IsReset(ch[j]) ==> Harmless(ch[i]))
  }

  /** `A` drops the RESET mark, at once or when it next has something to say; so long `B` stays as new. */
  predicate InitiatorMark(net: Net) {
    || Attr(net.a.e.packetCodeToSend) == ATTR_NONE
    || (&& Attr(net.a.e.packetCodeToSend) == ATTR_RESET
        && net.a.acked == 1 && net.a.accepted == 1 && net.a.e.txQueue == []
        && net.b.acked == 0 && net.b.accepted == 1
        && forall i :: 0 <= i < |net.ab| ==> Harmless(net.ab[i]))
  }

  predicate Agreement(links: Links, net: Net)
    requires links.envA.Valid() && links.envB.Valid()
  {
    && Synced(links.envA.txMtu, links.envB.txMtu, net.a, net.b, net.ba, net.ab)
    && net.a.e.resetState == NotResetting && net.b.e.resetState == NotResetting && 1 <= net.a.acked
    && InitiatorMark(net) && PlainOrReset(net.ab) && ResetsFirst(net.b, net.ab)
    && PlainOrResetAck(net.ba) && MarksFirst(net.a.accepted, net.ba) && MarkerOk(net.b, net.a.accepted, net.ba)
  }

  ghost predicate Inv(links: Links, net: Net)
    requires links.envA.Valid() && links.envB.Valid()
  {
    NetOk(links, net) && (BeforeReset(net) || DuringReset(links, net) || Agreement(links, net))
  }

  /** `B` has answered, or will on a RESET in flight, and may be misled: another RESET would come too late. */
  ghost predicate Risky(links: Links, net: Net)
    requires links.envB.Valid()
  {
    || MisleadsAfterReset(net.ab)
    || (&& DuringReset(links, net) && Misled(net)
        && (HasResetAck(net.ba) || Attr(net.b.e.packetCodeToSend) == ATTR_RESET_ACK))
  }

  ghost predicate Cautious(links: Links, net: Net, step: Step)
    requires links.envB.Valid()
  {
    step.atA && step.action.RetryReset? ==> !Risky(links, net)
  }
}
