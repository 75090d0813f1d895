/**
 * After a reset the two ends are never stuck: whatever has been lost, what is queued at either end can
 * still be delivered.
 */
module Progress {
  import opened Bytes
  import opened EndpointState
  import opened Framing
  import opened Reception
  import opened Arq
  import opened Network
  import opened Handshake
  import opened Reliability

  // ----------------------------------------------------------------------------------------
  // Reachability

  ghost predicate Reaches(links: Links, net: Net, to: Net)
    requires LinksOk(links) && NetOk(links, net)
  {
    exists steps ::
      RunEnabled(links, net, steps) && Careful(links, net, steps) && Run(links, net, steps) == to
  }

  lemma ReachesItself(links: Links, net: Net)
    requires LinksOk(links) && NetOk(links, net)
    ensures Reaches(links, net, net)
  {
    hide NetOk;
    assert RunEnabled(links, net, []) && Careful(links, net, []) && Run(links, net, []) == net;
  }

  lemma {:induction false} CarefulConcat(links: Links, net: Net, first: seq<Step>, second: seq<Step>)
    requires LinksOk(links) && NetOk(links, net) && RunEnabled(links, net, first) && Careful(links, net, first)
    requires var mid := Run(links, net, first);
      RunEnabled(links, mid, second) && Careful(links, mid, second)
    requires RunEnabled(links, net, first + second)
    ensures Careful(links, net, first + second)
    decreases |first|
  {
    hide Next, NetOk, Cautious;
    if first == [] {
      assert first + second == second;
    } else {
      assert (first + second)[0] == first[0] && (first + second)[1..] == first[1..] + second;
      NextOk(links, net, first[0]);
      CarefulConcat(links, Next(links, net, first[0]), first[1..], second);
    }
  }

  lemma ReachesTrans(links: Links, net: Net, mid: Net, to: Net)
    requires LinksOk(links) && NetOk(links, net) && NetOk(links, mid)
    requires Reaches(links, net, mid) && Reaches(links, mid, to)
    ensures Reaches(links, net, to)
  {
    hide NetOk, Next, Run, RunEnabled, Careful;
    var first :| RunEnabled(links, net, first) && Careful(links, net, first) && Run(links, net, first) == mid;
    var second :| RunEnabled(links, mid, second) && Careful(links, mid, second) && Run(links, mid, second) == to;
    RunConcat(links, net, first, second);
    CarefulConcat(links, net, first, second);
  }

  lemma ReachesStep(links: Links, net: Net, step: Step)
    requires LinksOk(links) && NetOk(links, net) && StepEnabled(links, net, step) && Cautious(links, net, step)
    ensures NetOk(links, Next(links, net, step)) && Reaches(links, net, Next(links, net, step))
  {
    hide NetOk, Next, Cautious;
    NextOk(links, net, step);
    var steps := [step];
    assert steps[0] == step && steps[1..] == [];
    assert RunEnabled(links, net, steps) && Careful(links, net, steps)
        && Run(links, net, steps) == Next(links, net, step);
  }

  lemma ReachesFour(links: Links, n0: Net, n1: Net, n2: Net, n3: Net, n4: Net)
    requires LinksOk(links) && NetOk(links, n0) && NetOk(links, n1) && NetOk(links, n2) && NetOk(links, n3)
    requires Reaches(links, n0, n1) && Reaches(links, n1, n2) && Reaches(links, n2, n3) && Reaches(links, n3, n4)
    ensures Reaches(links, n0, n4)
  {
    hide NetOk, Reaches;
    ReachesTrans(links, n0, n1, n2);
    ReachesTrans(links, n0, n2, n3);
    ReachesTrans(links, n0, n3, n4);
  }

  // ----------------------------------------------------------------------------------------
  // Either side of the network

  function Of(net: Net, atA: bool): Side { if atA then net.a else net.b }

  /** What the side has sent and the other has not received. */
  function Out(net: Net, atA: bool): seq<Flight> { if atA then net.ab else net.ba }

  function EnvOf(links: Links, atA: bool): Env { if atA then links.envA else links.envB }

  /** The two ends agree. */
  ghost predicate Fine(links: Links, net: Net)
    requires LinksOk(links)
  {
    NetOk(links, net) && Agreement(links, net)
  }

  lemma FineParts(links: Links, net: Net, atA: bool)
    requires LinksOk(links) && Fine(links, net)
    ensures NetOk(links, net) && SideOk(Of(net, atA)) && Of(net, atA).e.resetState == NotResetting
    ensures Fits(EnvOf(links, atA), Out(net, !atA))
    ensures Synced(EnvOf(links, atA).txMtu, EnvOf(links, !atA).txMtu, Of(net, atA), Of(net, !atA),
                   Out(net, !atA), Out(net, atA))
  {
    hide Flow, PlainOrReset, ResetsFirst, PlainOrResetAck, MarksFirst, MarkerOk, InitiatorMark;
  }

  lemma FineFromInv(links: Links, net: Net)
    requires LinksOk(links) && Inv(links, net)
    ensures NetOk(links, net)
    ensures net.a.e.resetState == NotResetting ==> Fine(links, net)
  {
    hide Agreement, NetOk;
    InvParts(links, net);
  }

  lemma NextAt(links: Links, net: Net, atA: bool, action: Action)
    requires LinksOk(links) && NetOk(links, net) && StepEnabled(links, net, Step(atA, action))
    ensures var l := LocalStep(EnvOf(links, atA), Local(Of(net, atA), Out(net, !atA), Out(net, atA)), action);
      var to := Next(links, net, Step(atA, action));
      && Of(to, atA) == l.me && Of(to, !atA) == Of(net, !atA)
      && Out(to, !atA) == l.inbound && Out(to, atA) == l.outbound
  {
    hide LocalStep;
  }

  /** A step from agreement to agreement. */
  lemma FineStep(links: Links, net: Net, step: Step)
    requires LinksOk(links) && Fine(links, net) && StepEnabled(links, net, step)
    ensures NetOk(links, net) && Fine(links, Next(links, net, step))
    ensures Reaches(links, net, Next(links, net, step))
  {
    hide Agreement, Next, NetOk, Risky;
    FineParts(links, net, true);
    AgreementStep(links, net, step);
    ReachesStep(links, net, step);
  }

  /** The link has taken the last packet; the next is handed over. */
  lemma FineSend(links: Links, net: Net, atA: bool, resend: bool) returns (to: Net)
    requires LinksOk(links) && Fine(links, net)
    requires !resend || Of(net, atA).e.txAttempts <= MAX_RETX
    ensures NetOk(links, net) && Fine(links, to) && Reaches(links, net, to)
    ensures var me := Of(net, atA).(e := Of(net, atA).e.(linkBusy := false));
      var env := EnvOf(links, atA);
      && SideOk(me) && Of(to, atA) == me.(e := DoWork(env, me.e, resend).0) && Of(to, !atA) == Of(net, !atA)
      && Out(to, !atA) == Out(net, !atA) && Out(to, atA) == Out(net, atA) + Emits(env, me, Work(resend))
  {
    hide Fine, NetOk, Reaches, Agreement, RxBytes, Frame, Synced, DoWork, Emits;
    var first, second := Step(atA, SendDone), Step(atA, Work(resend));
    FineParts(links, net, atA);
    FineStep(links, net, first);
    NextAt(links, net, atA, SendDone);
    var mid := Next(links, net, first);
    FineParts(links, mid, atA);
    assert Out(mid, atA) == Out(net, atA) by { EmitsOnlyWork(EnvOf(links, atA), Of(net, atA), SendDone); }
    FineStep(links, mid, second);
    NextAt(links, mid, atA, Work(resend));
    to := Next(links, mid, second);
    ReachesTrans(links, net, mid, to);
  }

  // ----------------------------------------------------------------------------------------
  // One payload and its ACK

  predicate PlainCode(s: Side) { Attr(s.e.packetCodeToSend) == ATTR_NONE }

  /** A side transmits the fragment at the head of its queue. */
  lemma Sends(links: Links, net: Net, atA: bool) returns (to: Net)
    requires LinksOk(links) && Fine(links, net)
    requires Of(net, atA).e.txQueue != [] && Of(net, atA).e.txAttempts <= MAX_RETX && PlainCode(Of(net, atA))
    requires Out(net, atA) == []
    ensures NetOk(links, net) && Fine(links, to) && Reaches(links, net, to)
    ensures Of(to, !atA) == Of(net, !atA) && Out(to, !atA) == Out(net, !atA) && |Out(to, atA)| == 1
    ensures SenderOf(Of(to, atA)) == SenderOf(Of(net, atA)) && PlainCode(Of(to, atA))
    ensures var p := Out(to, atA)[0].p;
      && p.payload != [] && Attr(p.packetCode) == ATTR_NONE && |p.payload| < 0x1_0000
      && p.seqNo == Of(net, atA).e.receivedAckSeq
  {
    hide Fine, NetOk, Reaches;
    to := FineSend(links, net, atA, true);
    var me := Of(net, atA).(e := Of(net, atA).e.(linkBusy := false));
    assert ShouldAttachPayload(me.e, true);
    var rest := me.e.txQueue[0][me.e.ackedLocInDatagram..];
    assert rest != [];
  }

  /** A payload, wanted or not, makes the receiver answer. */
  lemma PayloadIsAnswered(env: Env, e: Endpoint, p: Packet)
    requires env.Valid() && Idle(e) && p.payload != [] && |p.payload| < 0x1_0000
    requires IsPlain(p) && e.resetState == NotResetting && e.sentAckSeq == e.expectedSeq
    ensures ShouldSendPossiblyEmptyPacket(Receive(env, e, p))
  {
    hide Receive;
    ReceivePlain(env, e, p);
  }

  /** A side takes the packet sent to it. */
  lemma FineTake(links: Links, net: Net, atA: bool) returns (to: Net)
    requires LinksOk(links) && Fine(links, net) && |Out(net, !atA)| == 1
    requires Attr(Out(net, !atA)[0].p.packetCode) == ATTR_NONE && |Out(net, !atA)[0].p.payload| < 0x1_0000
    ensures NetOk(links, net) && Fine(links, to) && Reaches(links, net, to)
    ensures Of(to, !atA) == Of(net, !atA) && Out(to, !atA) == [] && Out(to, atA) == Out(net, atA)
    ensures var (env, me, me', f) := (EnvOf(links, atA), Of(net, atA), Of(to, atA), Out(net, !atA)[0]);
      && SideOk(me) && me.e.resetState == NotResetting
      && me' == AfterPacket(me, f.p, Receive(env, me.e, f.p)) && PlainOutcome(env, me.e, f.p, me'.e)
      && SenderOf(me') == Acknowledge(env.txMtu, SenderOf(me), f.p.ackSeq)
      && ReceiverOf(me') == Accept(ReceiverOf(me), f.p)
  {
    hide Fine, NetOk, Reaches, Agreement, RxBytes, Frame, Receive, PlainOutcome, Acknowledge, Accept, Synced;
    FineParts(links, net, atA);
    NoPreambleInNothing();
    var (env, me, f) := (EnvOf(links, atA), Of(net, atA), Out(net, !atA)[0]);
    var step := Step(atA, Deliver([]));
    assert StepEnabled(links, net, step);
    FineStep(links, net, step);
    NextAt(links, net, atA, Deliver([]));
    to := Next(links, net, step);
    DeliverIsReceive(env, Local(me, Out(net, !atA), Out(net, atA)), []);
    assert Out(to, atA) == Out(net, atA) by { EmitsOnlyWork(env, me, Deliver([])); }
    PlainIsAckAndAccept(env, me, f);
    ReceivePlain(env, me.e, f.p);
  }

  /** What the next fragment is numbered, on both sides. */
  lemma Expecting(links: Links, net: Net, atA: bool)
    requires LinksOk(links) && Fine(links, net)
    ensures var (tx, rx) := (Of(net, atA), Of(net, !atA));
      && tx.e.receivedAckSeq == tx.acked % 0x100 && rx.e.expectedSeq == rx.accepted % 0x100
      && tx.acked <= rx.accepted <= tx.acked + 1
      && tx.acked <= |Stream(EnvOf(links, atA).txMtu, tx.sent)|
  {
    hide PlainOrReset, ResetsFirst, PlainOrResetAck, MarksFirst, MarkerOk, InitiatorMark, NetOk;
    var (mtu, tx) := (EnvOf(links, atA).txMtu, Of(net, atA));
    assert SenderOk(mtu, SenderOf(tx));
    if tx.e.txQueue == [] {
      assert Pending(mtu, tx.e.txQueue, tx.e.ackedLocInDatagram) == [];
    }
  }

  /** The receiver takes the fragment, or has it already; either way it now has something to send. */
  lemma Takes(links: Links, net: Net, atA: bool) returns (to: Net)
    requires LinksOk(links) && Fine(links, net) && |Out(net, !atA)| == 1
    requires var p := Out(net, !atA)[0].p;
      && p.payload != [] && Attr(p.packetCode) == ATTR_NONE && |p.payload| < 0x1_0000
      && p.seqNo == Of(net, !atA).e.receivedAckSeq
    requires Of(net, atA).e.sentAckSeq == Of(net, atA).e.expectedSeq && PlainCode(Of(net, atA))
    ensures NetOk(links, net) && Fine(links, to) && Reaches(links, net, to)
    ensures Of(to, !atA) == Of(net, !atA) && Out(to, !atA) == [] && Out(to, atA) == Out(net, atA)
    ensures Of(to, atA).accepted == Of(net, !atA).acked + 1 && Of(to, atA).sent == Of(net, atA).sent
    ensures ShouldSendPossiblyEmptyPacket(Of(to, atA).e) && PlainCode(Of(to, atA))
    ensures Of(to, atA).e.txAttempts <= Of(net, atA).e.txAttempts
    ensures Of(net, atA).e.txQueue == [] ==> Of(to, atA).e.txQueue == []
  {
    hide Fine, NetOk, Reaches, Receive;
    to := FineTake(links, net, atA);
    var (env, me, p) := (EnvOf(links, atA), Of(net, atA), Out(net, !atA)[0].p);
    PayloadIsAnswered(env, me.e, p);
    Expecting(links, net, !atA);
    assert Of(to, atA).accepted == ReceiverOf(Of(to, atA)).accepted;
  }

  /** The receiver sends its ACK, with a payload of its own if it has one. */
  lemma Acks(links: Links, net: Net, atA: bool) returns (to: Net)
    requires LinksOk(links) && Fine(links, net) && Out(net, atA) == []
    requires ShouldSendPossiblyEmptyPacket(Of(net, atA).e) && PlainCode(Of(net, atA))
    ensures NetOk(links, net) && Fine(links, to) && Reaches(links, net, to)
    ensures Of(to, !atA) == Of(net, !atA) && Out(to, !atA) == Out(net, !atA) && |Out(to, atA)| == 1
    ensures var (me, me') := (Of(net, atA), Of(to, atA));
      && SenderOf(me') == SenderOf(me) && ReceiverOf(me') == ReceiverOf(me) && PlainCode(me')
      && me'.e.sentAckSeq == me'.e.expectedSeq
      && (me.e.txAttempts <= MAX_RETX ==> me'.e.txAttempts <= MAX_RETX)
    ensures var p := Out(to, atA)[0].p;
      p.ackSeq == Of(net, atA).e.expectedSeq && Attr(p.packetCode) == ATTR_NONE && |p.payload| < 0x1_0000
  {
    hide Fine, NetOk, Reaches;
    to := FineSend(links, net, atA, false);
  }

  /** The sender registers the ACK. */
  lemma TakesAck(links: Links, net: Net, atA: bool) returns (to: Net)
    requires LinksOk(links) && Fine(links, net) && |Out(net, !atA)| == 1 && PlainCode(Of(net, atA))
    requires var p := Out(net, !atA)[0].p;
      && Attr(p.packetCode) == ATTR_NONE && |p.payload| < 0x1_0000
      && p.ackSeq == Successor(Of(net, atA).e.receivedAckSeq)
    ensures NetOk(links, net) && Fine(links, to) && Reaches(links, net, to)
    ensures Of(to, !atA) == Of(net, !atA) && Out(to, atA) == Out(net, atA) && Out(to, !atA) == []
    ensures var (me, me') := (Of(net, atA), Of(to, atA));
      me'.acked == me.acked + 1 && me'.sent == me.sent && me'.e.txAttempts == 0 && PlainCode(me')
  {
    hide Fine, NetOk, Reaches, Receive;
    to := FineTake(links, net, atA);
  }

  // ----------------------------------------------------------------------------------------
  // Round after round

  /** Nothing is in flight, and the receiver has answered all it got. */
  ghost predicate Quiet(links: Links, net: Net, fromA: bool)
    requires LinksOk(links)
  {
    && Fine(links, net) && net.ab == [] && net.ba == []
    && PlainCode(net.a) && PlainCode(net.b)
    && net.a.e.txAttempts <= MAX_RETX && net.b.e.txAttempts <= MAX_RETX
    && Of(net, !fromA).e.sentAckSeq == Of(net, !fromA).e.expectedSeq
  }

  /** A payload reaches the other side and is acknowledged. */
  lemma Round(links: Links, net: Net, fromA: bool) returns (to: Net)
    requires LinksOk(links) && Quiet(links, net, fromA) && Of(net, fromA).e.txQueue != []
    ensures NetOk(links, net) && Quiet(links, to, fromA) && Reaches(links, net, to)
    ensures Of(to, fromA).acked == Of(net, fromA).acked + 1
    ensures to.a.sent == net.a.sent && to.b.sent == net.b.sent
    ensures Of(net, !fromA).e.txQueue == [] ==> Of(to, !fromA).e.txQueue == []
  {
    hide Fine, NetOk, Reaches;
    var n1 := Sends(links, net, fromA);
    assert SenderOf(Of(n1, fromA)).acked == SenderOf(Of(net, fromA)).acked;
    assert SenderOf(Of(n1, fromA)).ackByte == SenderOf(Of(net, fromA)).ackByte;
    assert SenderOf(Of(n1, fromA)).sent == SenderOf(Of(net, fromA)).sent;
    var n2 := Takes(links, n1, !fromA);
    var n3 := Acks(links, n2, !fromA);
    assert SenderOf(Of(n3, !fromA)).sent == SenderOf(Of(n2, !fromA)).sent;
    assert SenderOf(Of(n3, !fromA)).queue == SenderOf(Of(n2, !fromA)).queue;
    Expecting(links, n2, fromA);
    to := TakesAck(links, n3, fromA);
    ReachesFour(links, net, n1, n2, n3, to);
  }

  /** All that the sender has queued reaches the other side. */
  lemma {:induction false} Drain(links: Links, net: Net, fromA: bool) returns (to: Net)
    requires LinksOk(links) && Quiet(links, net, fromA)
    ensures NetOk(links, net) && Quiet(links, to, fromA) && Reaches(links, net, to)
    ensures Of(to, fromA).e.txQueue == [] && to.a.sent == net.a.sent && to.b.sent == net.b.sent
    ensures Of(net, !fromA).e.txQueue == [] ==> Of(to, !fromA).e.txQueue == []
    decreases |Stream(EnvOf(links, fromA).txMtu, Of(net, fromA).sent)| - Of(net, fromA).acked
  {
    hide Fine, NetOk, Reaches, Stream;
    FineParts(links, net, fromA);
    Expecting(links, net, fromA);
    if Of(net, fromA).e.txQueue == [] {
      to := net;
      ReachesItself(links, net);
    } else {
      var n1 := Round(links, net, fromA);
      FineParts(links, n1, fromA);
      Expecting(links, n1, fromA);
      to := Drain(links, n1, fromA);
      ReachesTrans(links, net, n1, to);
    }
  }

  // ----------------------------------------------------------------------------------------
  // From any state of agreement

  /** Everything in flight may be lost. */
  lemma {:induction false} LoseAll(links: Links, net: Net) returns (to: Net)
    requires LinksOk(links) && Inv(links, net)
    ensures NetOk(links, net) && Inv(links, to) && Reaches(links, net, to)
    ensures to == Net(net.a, net.b, [], [])
    decreases |net.ab| + |net.ba|
  {
    hide Inv, Reaches, Agreement;
    FineFromInv(links, net);
    if net.ab == [] && net.ba == [] {
      to := net;
      ReachesItself(links, net);
    } else {
      var step := Step(net.ba != [], Lose(0));
      InvStep(links, net, step);
      ReachesStep(links, net, step);
      var mid := Next(links, net, step);
      to := LoseAll(links, mid);
      ReachesTrans(links, net, mid, to);
    }
  }

  lemma FineInv(links: Links, net: Net)
    requires LinksOk(links) && Fine(links, net)
    ensures Inv(links, net) && NetOk(links, net)
  {
    hide Agreement, NetOk;
  }

  /** A NACK, or anything else to say, drops the mark left from the reset. */
  lemma Unmark(links: Links, net: Net, atA: bool) returns (to: Net)
    requires LinksOk(links) && Fine(links, net)
    ensures NetOk(links, net) && Fine(links, to) && Reaches(links, net, to) && PlainCode(Of(to, atA))
    ensures Of(to, !atA) == Of(net, !atA) && to.ab == net.ab && to.ba == net.ba
    ensures Of(to, atA) == Of(net, atA).(e := Of(net, atA).e.(packetCodeToSend := Of(to, atA).e.packetCodeToSend))
  {
    hide Fine, NetOk, Reaches, Agreement, Synced;
    FineParts(links, net, atA);
    if PlainCode(Of(net, atA)) {
      to := net;
      ReachesItself(links, net);
    } else {
      var action := Nack(ERROR_HEADER);
      FineStep(links, net, Step(atA, action));
      NextAt(links, net, atA, action);
      to := Next(links, net, Step(atA, action));
      assert Out(to, atA) == Out(net, atA) by { EmitsOnlyWork(EnvOf(links, atA), Of(net, atA), action); }
    }
  }

  /** What the receiver owes is sent, and lost. */
  lemma Flush(links: Links, net: Net, atA: bool) returns (to: Net)
    requires LinksOk(links) && Fine(links, net) && net.ab == [] && net.ba == []
    requires PlainCode(Of(net, atA)) && Of(net, atA).e.txAttempts <= MAX_RETX
    ensures NetOk(links, net) && Fine(links, to) && Reaches(links, net, to)
    ensures Of(to, !atA) == Of(net, !atA) && to.ab == [] && to.ba == []
    ensures var (me, me') := (Of(net, atA), Of(to, atA));
      && SenderOf(me') == SenderOf(me) && PlainCode(me') && me'.e.txAttempts <= MAX_RETX
      && me'.e.sentAckSeq == me'.e.expectedSeq
  {
    hide Fine, NetOk, Reaches, Inv;
    FineParts(links, net, atA);
    if !ShouldSendPossiblyEmptyPacket(Of(net, atA).e) {
      to := net;
      ReachesItself(links, net);
    } else {
      var mid := Acks(links, net, atA);
      FineInv(links, mid);
      FineParts(links, mid, true);
      to := LoseAll(links, mid);
      FineFromInv(links, to);
      ReachesTrans(links, net, mid, to);
    }
  }

  lemma Settle(links: Links, net: Net, fromA: bool) returns (to: Net)
    requires LinksOk(links) && Fine(links, net) && net.ab == [] && net.ba == []
    requires net.a.e.txAttempts <= MAX_RETX && net.b.e.txAttempts <= MAX_RETX
    ensures NetOk(links, net) && Quiet(links, to, fromA) && Reaches(links, net, to)
    ensures SenderOf(to.a) == SenderOf(net.a) && SenderOf(to.b) == SenderOf(net.b)
  {
    hide Fine, NetOk, Reaches;
    var n1 := Unmark(links, net, true);
    var n2 := Unmark(links, n1, false);
    to := Flush(links, n2, !fromA);
    ReachesTrans(links, net, n1, n2);
    ReachesTrans(links, net, n2, to);
  }

  lemma Arrived(links: Links, net: Net)
    requires LinksOk(links) && Fine(links, net)
    ensures net.a.sent != [] && net.b.sent != []
    ensures net.a.e.txQueue == [] ==> net.b.e.delivered == net.a.sent[1..]
    ensures net.b.e.txQueue == [] ==> net.a.e.delivered == net.b.sent[1..]
  {
    hide Synced, NetOk;
    AgreementDelivers(links, net);
  }

  /**
   * From every state of agreement, whatever is in flight or was lost, there is a way for all that both
   * ends have queued since the reset to arrive, unless one of them is about to give up.
   */
  lemma EverythingCanArrive(links: Links, net: Net) returns (to: Net)
    requires LinksOk(links) && Fine(links, net)
    requires net.a.e.txAttempts <= MAX_RETX && net.b.e.txAttempts <= MAX_RETX
    ensures NetOk(links, net) && Reaches(links, net, to)
    ensures net.a.sent != [] && to.b.e.delivered == net.a.sent[1..]
    ensures net.b.sent != [] && to.a.e.delivered == net.b.sent[1..]
  {
    hide Fine, NetOk, Inv, Reaches;
    FineInv(links, net);
    FineParts(links, net, true);
    var n1 := LoseAll(links, net);
    FineFromInv(links, n1);
    var n2 := Settle(links, n1, true);
    var n3 := Drain(links, n2, true);
    ReachesTrans(links, net, n1, n2);
    ReachesTrans(links, net, n2, n3);
    var n4 := Settle(links, n3, false);
    to := Drain(links, n4, false);
    ReachesTrans(links, net, n3, n4);
    ReachesTrans(links, net, n4, to);
    assert SenderOf(n2.a).sent == net.a.sent && SenderOf(n2.b).sent == net.b.sent;
    assert SenderOf(n4.a).sent == n3.a.sent && SenderOf(n4.b).sent == n3.b.sent && SenderOf(n4.a).queue == [];
    Arrived(links, to);
  }

  // ----------------------------------------------------------------------------------------
  // During a reset

  lemma StillAnnouncing(links: Links, net: Net)
    requires LinksOk(links) && Inv(links, net) && net.a.e.resetState == Resetting
    ensures Announcing(net.a) && NetOk(links, net)
  {
    hide Synced;
  }

  lemma InvMove(links: Links, net: Net, step: Step)
    requires LinksOk(links) && Inv(links, net) && NetOk(links, net) && StepEnabled(links, net, step)
    requires Cautious(links, net, step)
    ensures Inv(links, Next(links, net, step)) && NetOk(links, Next(links, net, step))
    ensures Reaches(links, net, Next(links, net, step))
  {
    hide Next, Inv, NetOk, Cautious, Reaches;
    InvStep(links, net, step);
    ReachesStep(links, net, step);
  }

  /** Nothing is in flight: `A` may mark another RESET, once `B` has dropped the mark of its answer. */
  lemma ARetries(links: Links, net: Net) returns (to: Net)
    requires LinksOk(links) && Inv(links, net) && net.a.e.resetState == Resetting && net.ab == [] && net.ba == []
    requires net.a.e.resetCount + 1 < MAX_RESET
    ensures NetOk(links, net) && Inv(links, to) && Reaches(links, net, to) && NetOk(links, to)
    ensures to.a.e.resetState == Resetting && Attr(to.a.e.packetCodeToSend) == ATTR_RESET
    ensures to.ab == [] && to.ba == []
  {
    hide Inv, Reaches, DuringReset;
    StillAnnouncing(links, net);
    var nack, retry := Step(false, Nack(ERROR_HEADER)), Step(true, RetryReset);
    InvMove(links, net, nack);
    var mid := Next(links, net, nack);
    assert !Risky(links, mid);
    InvMove(links, mid, retry);
    to := Next(links, mid, retry);
    ReachesTrans(links, net, mid, to);
  }

  /** `A` transmits its RESET. */
  lemma AAnnounces(links: Links, net: Net) returns (to: Net)
    requires LinksOk(links) && Inv(links, net) && net.a.e.resetState == Resetting && net.ab == [] && net.ba == []
    requires Attr(net.a.e.packetCodeToSend) == ATTR_RESET
    ensures NetOk(links, net) && NetOk(links, to) && Inv(links, to) && Reaches(links, net, to)
    ensures Announcing(to.a) && to.b == net.b && to.ba == [] && |to.ab| == 1
    ensures IsReset(to.ab[0]) && to.ab[0].p.seqNo == 0 && |to.ab[0].p.payload| < 0x1_0000
  {
    hide Inv, Risky, Synced, MarksFirst, MarkerOk, RxBytes, Frame, Reaches;
    StillAnnouncing(links, net);
    var first, second := Step(true, SendDone), Step(true, Work(true));
    InvMove(links, net, first);
    var mid := Next(links, net, first);
    assert mid.a.e == net.a.e.(linkBusy := false) && mid.b == net.b && mid.ab == [] && mid.ba == [];
    assert StepEnabled(links, mid, second);
    InvMove(links, mid, second);
    to := Next(links, mid, second);
    ReachesTrans(links, net, mid, to);
    StillAnnouncing(links, to);
  }

  /** `B` starts over and answers. */
  lemma BResets(links: Links, net: Net) returns (to: Net)
    requires LinksOk(links) && Inv(links, net) && net.a.e.resetState == Resetting && |net.ab| == 1 && net.ba == []
    requires IsReset(net.ab[0]) && net.ab[0].p.seqNo == 0 && |net.ab[0].p.payload| < 0x1_0000
    ensures NetOk(links, net) && NetOk(links, to) && Inv(links, to) && Reaches(links, net, to)
    ensures to.a == net.a && to.ab == [] && |to.ba| == 1 && to.b.e.txAttempts <= MAX_RETX
    ensures IsResetAck(to.ba[0]) && to.ba[0].p.ackSeq == 1 && |to.ba[0].p.payload| < 0x1_0000
  {
    hide Inv, Risky, Synced, MarksFirst, MarkerOk, RxBytes, Frame, Reaches, Receive, DoWork, Emits;
    StillAnnouncing(links, net);
    var first, second := Step(false, Deliver([])), Step(false, Work(false));
    assert StepEnabled(links, net, first) by { NoPreambleInNothing(); }
    InvMove(links, net, first);
    var mid := Next(links, net, first);
    DeliverIsReceive(links.envB, Local(net.b, net.ab, net.ba), []);
    ReceiveReset(links.envB, net.b.e, net.ab[0].p);
    assert mid.b == AfterReset(Receive(links.envB, net.b.e, net.ab[0].p), 1);
    assert StepEnabled(links, mid, second);
    InvMove(links, mid, second);
    to := Next(links, mid, second);
    FirstAnswer(links.envB, mid.b);
    ReachesTrans(links, net, mid, to);
  }

  lemma FirstAnswer(env: Env, s: Side)
    requires env.Valid() && SideOk(s) && !s.e.linkBusy && s.e.txQueue == [CONFIG] && s.e.ackedLocInDatagram == 0
    requires s.e.packetCodeToSend == ATTR_RESET_ACK && s.e.expectedSeq == 1 && s.e.txAttempts == 0
    requires s.e.resetState == NotResetting
    ensures DoWork(env, s.e, false).0.txAttempts == 1
    ensures var out := Emits(env, s, Work(false));
            && |out| == 1 && IsResetAck(out[0]) && out[0].p.ackSeq == 1 && |out[0].p.payload| < 0x1_0000
  {
  }

  /** `A` takes the RESET-ACK: the reset is over. */
  lemma AFinishes(links: Links, net: Net) returns (to: Net)
    requires LinksOk(links) && Inv(links, net) && net.a.e.resetState == Resetting && |net.ba| == 1
    requires IsResetAck(net.ba[0]) && net.ba[0].p.ackSeq == 1 && |net.ba[0].p.payload| < 0x1_0000
    ensures NetOk(links, net) && Inv(links, to) && Reaches(links, net, to)
    ensures to.b == net.b && to.a.e.resetState == NotResetting && to.a.e.txAttempts == 0
  {
    hide Inv, Risky, Synced, MarksFirst, MarkerOk, RxBytes, Frame, Reaches, Receive;
    StillAnnouncing(links, net);
    var step := Step(true, Deliver([]));
    assert StepEnabled(links, net, step) by { NoPreambleInNothing(); }
    InvMove(links, net, step);
    to := Next(links, net, step);
    DeliverIsReceive(links.envA, Local(net.a, net.ba, net.ab), []);
    ReceiveResetAck(links.envA, net.a.e, net.ba[0].p);
  }

  /**
   * At every point of a reset, whatever was lost, there is a way for it to complete, and then the two
   * ends agree and `EverythingCanArrive` applies, unless a NACK erased the mark of the last RESET.
   */
  lemma ResetCanComplete(links: Links, net: Net) returns (to: Net)
    requires LinksOk(links) && Inv(links, net) && net.a.e.resetState == Resetting
    requires Attr(net.a.e.packetCodeToSend) == ATTR_RESET || net.a.e.resetCount + 1 < MAX_RESET
    ensures NetOk(links, net) && Reaches(links, net, to)
    ensures Fine(links, to) && to.a.e.txAttempts <= MAX_RETX && to.b.e.txAttempts <= MAX_RETX
  {
    hide Inv, Reaches, Fine, Announcing, NetOk;
    var n1 := LoseAll(links, net);
    FineFromInv(links, n1);
    if Attr(net.a.e.packetCodeToSend) != ATTR_RESET {
      var lost := n1;
      n1 := ARetries(links, lost);
      ReachesTrans(links, net, lost, n1);
    }
    var n2 := AAnnounces(links, n1);
    assert n2.a.e.resetState == Resetting by { AnnouncingResets(n2.a); }
    var n3 := BResets(links, n2);
    to := AFinishes(links, n3);
    ReachesFour(links, net, n1, n2, n3, to);
    FineFromInv(links, to);
  }

  lemma AnnouncingResets(s: Side)
    requires Announcing(s)
    ensures s.e.resetState == Resetting
  {}
}
