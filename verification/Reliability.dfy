/** What holds in every run: the two ends agree from the end of a reset on. */
module Reliability {
  import opened Bytes
  import opened EndpointState
  import opened Framing
  import opened Reception
  import opened Arq
  import opened Network
  import opened Handshake

  // ----------------------------------------------------------------------------------------
  // Agreement is kept

  lemma AcceptedIndex(mtu: nat, tx: Sender, rx: Receiver, ch: seq<Flight>, back: seq<Flight>)
    requires 0 < mtu && Flow(mtu, tx, rx, ch, back) && ch != []
    ensures Accept(rx, ch[0].p) != rx ==> ch[0].p.payload != [] && ch[0].n == rx.accepted
  {
    hide Stream, Reassemble, SenderOk, Add;
    var f := ch[0];
    if f.p.payload != [] && f.p.seqNo == rx.expected {
      assert f.n == rx.accepted;
    }
  }

  lemma StrayResetAckHarmless(env: Env, peerMtu: nat, me: Side, peer: Side, inbound: seq<Flight>, outbound: seq<Flight>)
    requires env.Valid() && SideOk(me) && Fits(env, inbound) && |CONFIG| <= peerMtu
    requires Synced(env.txMtu, peerMtu, me, peer, inbound, outbound)
    requires inbound != [] && IsResetAck(inbound[0]) && me.accepted == 1
    requires me.e.resetState == NotResetting
    ensures var me' := AfterPacket(me, inbound[0].p, Receive(env, me.e, inbound[0].p));
            && Synced(env.txMtu, peerMtu, me', peer, inbound[1..], outbound)
            && me'.e.packetCodeToSend == me.e.packetCodeToSend && me'.accepted == 1
            && me'.e.resetState == NotResetting
            && me'.acked == me.acked && me'.e.txQueue == me.e.txQueue
  {
    hide Receive, Stream;
    ReceiveStrayResetAck(env, me.e, inbound[0].p);
    ConfigFirst(peerMtu, peer.sent);
    assert me.e.rxDatagram == [];
    SyncedLose(env.txMtu, peerMtu, me, peer, inbound, outbound, 0);
    assert Without(inbound, 0) == inbound[1..];
  }

  lemma AgreementDeliverAtA(links: Links, net: Net, noise: seq<byte>)
    requires LinksOk(links) && NetOk(links, net) && Agreement(links, net)
    requires Enabled(net.a, net.ba, Deliver(noise))
    ensures Agreement(links, Next(links, net, Step(true, Deliver(noise))))
  {
    hide RxBytes, Frame, Receive, Flow, Accept, Acknowledge;
    var p := net.ba[0].p;
    DeliverIsReceive(links.envA, Local(net.a, net.ba, net.ab), noise);
    if IsResetAck(net.ba[0]) {
      StrayResetAckHarmless(links.envA, links.envB.txMtu, net.a, net.b, net.ba, net.ab);
    } else {
      SyncedPlain(links.envA, links.envB.txMtu, net.a, net.b, net.ba, net.ab);
      ReceivePlain(links.envA, net.a.e, p);
      PlainIsAckAndAccept(links.envA, net.a, net.ba[0]);
      AcceptedIndex(links.envB.txMtu, SenderOf(net.b), ReceiverOf(net.a), net.ba, net.ab);
      if Attr(net.a.e.packetCodeToSend) == ATTR_RESET {
        PlainKeepsMark(links, net);
      }
    }
  }

  /** While `A` still marks its packets, a plain packet of `B` is no news to it. */
  lemma PlainKeepsMark(links: Links, net: Net)
    requires LinksOk(links) && NetOk(links, net) && Agreement(links, net)
    requires net.ba != [] && Attr(net.ba[0].p.packetCode) == ATTR_NONE
    requires Attr(net.a.e.packetCodeToSend) == ATTR_RESET
    ensures var a' := AfterPacket(net.a, net.ba[0].p, Receive(links.envA, net.a.e, net.ba[0].p));
            a'.acked == net.a.acked && a'.accepted == net.a.accepted && a'.e.txQueue == net.a.e.txQueue
  {
    hide Receive, Stream, Reassemble, Pending;
    PlainIsAckAndAccept(links.envA, net.a, net.ba[0]);
    var a' := AfterPacket(net.a, net.ba[0].p, Receive(links.envA, net.a.e, net.ba[0].p));
    assert a'.acked == SenderOf(a').acked && a'.accepted == ReceiverOf(a').accepted;
    AcceptedIndex(links.envB.txMtu, SenderOf(net.b), ReceiverOf(net.a), net.ba, net.ab);
    assert net.ba[0].n == 0;
  }

  /** What travels ahead of a RESET changes nothing at `B`. */
  lemma HarmlessKeeps(links: Links, net: Net)
    requires LinksOk(links) && NetOk(links, net) && Agreement(links, net)
    requires net.ab != [] && Harmless(net.ab[0]) && !IsReset(net.ab[0]) && net.b.accepted == 1
    ensures var b' := AfterPacket(net.b, net.ab[0].p, Receive(links.envB, net.b.e, net.ab[0].p));
            b'.acked == net.b.acked && b'.accepted == net.b.accepted
  {
    hide Receive, Stream, Reassemble, Pending, SenderOk;
    PlainIsAckAndAccept(links.envB, net.b, net.ab[0]);
    var b' := AfterPacket(net.b, net.ab[0].p, Receive(links.envB, net.b.e, net.ab[0].p));
    assert b'.acked == SenderOf(b').acked && b'.accepted == ReceiverOf(b').accepted;
    AcceptedIndex(links.envA.txMtu, SenderOf(net.a), ReceiverOf(net.b), net.ab, net.ba);
    NoWraparoundAmbiguity(links.envB.txMtu, SenderOf(net.b), ReceiverOf(net.a), net.ba, net.ab, 0);
  }

  /** A repeated RESET takes `B` back to where it was after the first. */
  lemma AgreementRestartsB(links: Links, net: Net)
    requires LinksOk(links) && Agreement(links, net) && net.ab != [] && IsReset(net.ab[0])
    ensures Flow(links.envA.txMtu, SenderOf(net.a), FRESH_RECEIVER, net.ab[1..], net.ba)
    ensures Flow(links.envB.txMtu, FRESH_SENDER, ReceiverOf(net.a), net.ba, net.ab[1..])
  {
    hide Stream, Reassemble, SenderOk;
    assert HasReset(net.ab);
    SyncedLose(links.envB.txMtu, links.envA.txMtu, net.b, net.a, net.ab, net.ba, 0);
    assert Without(net.ab, 0) == net.ab[1..];
    FlowRestartReceiver(links.envA.txMtu, SenderOf(net.a), ReceiverOf(net.b), net.ab[1..], net.ba);
    FlowRestartSender(links.envB.txMtu, SenderOf(net.b), ReceiverOf(net.a), net.ba, net.ab[1..]);
  }

  lemma ResetsFirstRest(b: Side, b': Side, ch: seq<Flight>)
    requires ch != [] && ResetsFirst(b, ch)
    requires HasReset(ch) ==> b'.acked == 0 && b'.accepted == 1
    ensures ResetsFirst(b', ch[1..])
  {
    if HasReset(ch[1..]) {
      var i :| 0 <= i < |ch[1..]| && IsReset(ch[1..][i]);
      assert IsReset(ch[i + 1]);
    }
  }

  lemma AgreementPlainAtB(links: Links, net: Net, b': Side)
    requires LinksOk(links) && NetOk(links, net) && Agreement(links, net)
    requires net.ab != [] && !IsReset(net.ab[0])
    requires b' == AfterPacket(net.b, net.ab[0].p, Receive(links.envB, net.b.e, net.ab[0].p))
    ensures Agreement(links, Net(net.a, b', net.ab[1..], net.ba))
  {
    hide Receive, Flow, Acknowledge, Accept;
    SyncedPlain(links.envB, links.envA.txMtu, net.b, net.a, net.ab, net.ba);
    ReceivePlain(links.envB, net.b.e, net.ab[0].p);
    if HasReset(net.ab) {
      var j :| 0 <= j < |net.ab| && IsReset(net.ab[j]);
      assert Harmless(net.ab[0]);
    }
    if Harmless(net.ab[0]) && net.b.accepted == 1 {
      HarmlessKeeps(links, net);
    }
    ResetsFirstRest(net.b, b', net.ab);
  }

  lemma AgreementDeliverAtB(links: Links, net: Net, noise: seq<byte>)
    requires LinksOk(links) && NetOk(links, net) && Agreement(links, net)
    requires Enabled(net.b, net.ab, Deliver(noise))
    ensures Agreement(links, Next(links, net, Step(false, Deliver(noise))))
  {
    hide RxBytes, Frame, Receive, Stream, Reassemble, SenderOk, Acknowledge, Accept;
    var l := Local(net.b, net.ab, net.ba);
    DeliverIsReceive(links.envB, l, noise);
    var b' := AfterPacket(net.b, net.ab[0].p, Receive(links.envB, net.b.e, net.ab[0].p));
    assert net.ba + Emits(links.envB, net.b, Deliver(noise)) == net.ba;
    if IsReset(net.ab[0]) {
      ResetArrives(links.envB, l, noise);
      AgreementResetAtB(links, net, b');
    } else {
      hide Agreement;
      AgreementPlainAtB(links, net, b');
    }
  }

  lemma AgreementResetAtB(links: Links, net: Net, b': Side)
    requires LinksOk(links) && NetOk(links, net) && Agreement(links, net)
    requires net.ab != [] && IsReset(net.ab[0])
    requires SenderOf(b') == FRESH_SENDER && ReceiverOf(b') == FRESH_RECEIVER
    requires b'.e.resetState == NotResetting && b'.e.packetCodeToSend == ATTR_RESET_ACK
    ensures Agreement(links, Net(net.a, b', net.ab[1..], net.ba))
  {
    hide Stream, Reassemble, SenderOk;
    AgreementRestartsB(links, net);
    assert HasReset(net.ab);
    assert b'.acked == SenderOf(b').acked == 0 && b'.accepted == ReceiverOf(b').accepted == 1;
    ResetsFirstRest(net.b, b', net.ab);
  }

  lemma AgreementOtherAtA(links: Links, net: Net, action: Action)
    requires LinksOk(links) && NetOk(links, net) && Agreement(links, net)
    requires Enabled(net.a, net.ba, action) && !action.Deliver? && !action.Work?
    ensures Agreement(links, Next(links, net, Step(true, action)))
  {
    hide Flow;
    match action
    case Enqueue(d) => SyncedEnqueue(links.envA, links.envB.txMtu, net.a, net.b, net.ba, net.ab, d);
    case SendDone =>
    case Lose(i) => SyncedLose(links.envA.txMtu, links.envB.txMtu, net.a, net.b, net.ba, net.ab, i);
    case Nack(_) =>
  }

  /** Sending moves neither stream; the packet carries the mark, and a payload only if one is queued. */
  lemma WorkEffect(env: Env, me: Side, resend: bool)
    requires env.Valid() && SideOk(me) && me.e.resetState == NotResetting
    requires !GivesUpResending(me.e, resend)
    ensures var me' := me.(e := DoWork(env, me.e, resend).0);
            && me'.e.resetState == NotResetting && me'.e.txQueue == me.e.txQueue
            && Attr(me'.e.packetCodeToSend) == Attr(me.e.packetCodeToSend)
    ensures forall f :: f in Emits(env, me, Work(resend)) ==>
              && f.n == me.acked && f.a == me.accepted
              && Attr(f.p.packetCode) == Attr(me.e.packetCodeToSend)
              && (me.e.txQueue == [] ==> f.p.payload == [] && f.p.seqNo == 0 && f.p.flags == 0)
  {
  }

  lemma AgreementWorkAtA(links: Links, net: Net, resend: bool)
    requires LinksOk(links) && NetOk(links, net) && Agreement(links, net)
    requires Enabled(net.a, net.ba, Work(resend))
    ensures Agreement(links, Next(links, net, Step(true, Work(resend))))
  {
    hide Flow, DoWork, Emits, Attr;
    SyncedWork(links.envA, links.envB.txMtu, net.a, net.b, net.ba, net.ab, resend);
    WorkEffect(links.envA, net.a, resend);
    var out := Emits(links.envA, net.a, Work(resend));
    var net' := Next(links, net, Step(true, Work(resend)));
    assert net'.ab == net.ab + out;
    assert |out| <= 1 by { LinkChanges(links.envA, Local(net.a, net.ba, net.ab), Work(resend)); }
    if out == [] {
      assert net'.ab == net.ab;
    } else {
      assert net'.ab == net.ab + [out[0]] && out[0] in out;
      ResetsFirstGrows(net.b, net.ab, out[0], InitiatorMark(net) && IsReset(out[0]));
    }
  }

  lemma ResetsFirstGrows(b: Side, ch: seq<Flight>, f: Flight, marked: bool)
    requires ResetsFirst(b, ch) && (IsReset(f) ==> marked)
    requires marked ==> b.acked == 0 && b.accepted == 1 && forall i :: 0 <= i < |ch| ==> Harmless(ch[i])
    ensures ResetsFirst(b, ch + [f])
  {
    hide IsReset;
    var ch' := ch + [f];
    if HasReset(ch') && !marked {
      var i :| 0 <= i < |ch'| && IsReset(ch'[i]);
      assert IsReset(ch[i]);
    }
  }

  lemma AgreementWorkAtB(links: Links, net: Net, resend: bool)
    requires LinksOk(links) && NetOk(links, net) && Agreement(links, net)
    requires Enabled(net.b, net.ab, Work(resend))
    ensures Agreement(links, Next(links, net, Step(false, Work(resend))))
  {
    hide Flow, DoWork, Emits, Attr;
    SyncedWork(links.envB, links.envA.txMtu, net.b, net.a, net.ab, net.ba, resend);
    WorkEffect(links.envB, net.b, resend);
    var out := Emits(links.envB, net.b, Work(resend));
    var net' := Next(links, net, Step(false, Work(resend)));
    assert |out| <= 1 by { LinkChanges(links.envB, Local(net.b, net.ab, net.ba), Work(resend)); }
    if out == [] {
      assert net'.ba == net.ba;
    } else {
      assert net'.ba == net.ba + [out[0]] && out[0] in out;
      assert Late(out[0]) ==> net.b.acked != 0 && net.b.e.txQueue != [];
    }
  }

  lemma AgreementLoseAtB(links: Links, net: Net, i: nat)
    requires LinksOk(links) && Agreement(links, net) && i < |net.ab|
    ensures Agreement(links, net.(ab := Without(net.ab, i)))
  {
    hide Flow;
    SyncedLose(links.envB.txMtu, links.envA.txMtu, net.b, net.a, net.ab, net.ba, i);
    var ch := Without(net.ab, i);
    if HasReset(ch) {
      var j :| 0 <= j < |ch| && IsReset(ch[j]);
      assert IsReset(net.ab[if j < i then j else j + 1]);
    }
  }

  lemma AgreementOtherAtB(links: Links, net: Net, action: Action)
    requires LinksOk(links) && NetOk(links, net) && Agreement(links, net)
    requires Enabled(net.b, net.ab, action) && !action.Deliver?
    ensures Agreement(links, Next(links, net, Step(false, action)))
  {
    hide Flow;
    match action
    case Enqueue(d) => SyncedEnqueue(links.envB, links.envA.txMtu, net.b, net.a, net.ab, net.ba, d);
    case Work(resend) => AgreementWorkAtB(links, net, resend);
    case SendDone =>
    case Lose(i) => AgreementLoseAtB(links, net, i);
    case Nack(_) =>
  }

  lemma AgreementStep(links: Links, net: Net, step: Step)
    requires LinksOk(links) && NetOk(links, net) && Agreement(links, net)
    requires StepEnabled(links, net, step)
    ensures Agreement(links, Next(links, net, step))
  {
    hide Agreement, LocalStep;
    if step.atA {
      if step.action.Deliver? {
        AgreementDeliverAtA(links, net, step.action.noise);
      } else if step.action.Work? {
        AgreementWorkAtA(links, net, step.action.resend);
      } else {
        AgreementOtherAtA(links, net, step.action);
      }
    } else {
      if step.action.Deliver? {
        AgreementDeliverAtB(links, net, step.action.noise);
      } else {
        AgreementOtherAtB(links, net, step.action);
      }
    }
  }

  // ----------------------------------------------------------------------------------------
  // Runs

  lemma DuringResetAtA(links: Links, net: Net, action: Action)
    requires LinksOk(links) && NetOk(links, net) && DuringReset(links, net)
    requires Enabled(net.a, net.ba, action) && Cautious(links, net, Step(true, action))
    ensures var net' := Next(links, net, Step(true, action));
            BeforeReset(net') || DuringReset(links, net') || Agreement(links, net')
  {
    hide LocalStep, Enabled, BeforeReset, DuringReset, Agreement, Misled, Next, NetOk;
    DeliverNeedsPacket(net.a, net.ba, action);
    if action.Deliver? && IsResetAck(net.ba[0]) {
      ResetEnds(links, net, action.noise);
    } else if action.RetryReset? && Misled(net) {
      RetryStartsOver(links, net);
    } else {
      DuringResetOtherAtA(links, net, action);
    }
  }

  lemma InvStepAtA(links: Links, net: Net, action: Action)
    requires LinksOk(links) && Inv(links, net) && Enabled(net.a, net.ba, action)
    requires Cautious(links, net, Step(true, action))
    ensures var net' := Next(links, net, Step(true, action));
            BeforeReset(net') || DuringReset(links, net') || Agreement(links, net')
  {
    hide BeforeReset, DuringReset, Agreement, LocalStep, Next;
    if BeforeReset(net) {
      BeforeResetAtA(links, net, action);
    } else if DuringReset(links, net) {
      DuringResetAtA(links, net, action);
    } else {
      AgreementStep(links, net, Step(true, action));
    }
  }

  lemma InvStepAtB(links: Links, net: Net, action: Action)
    requires LinksOk(links) && Inv(links, net) && Enabled(net.b, net.ab, action)
    ensures var net' := Next(links, net, Step(false, action));
            BeforeReset(net') || DuringReset(links, net') || Agreement(links, net')
  {
    hide BeforeReset, DuringReset, Agreement, LocalStep, Next;
    if BeforeReset(net) {
      if action.Deliver? && IsReset(net.ab[0]) {
        FirstResetArrives(links, net, action.noise);
      } else {
        BeforeResetAtB(links, net, action);
      }
    } else if DuringReset(links, net) {
      if action.Deliver? {
        DuringResetDeliverAtB(links, net, action.noise);
      } else {
        DuringResetOtherAtB(links, net, action);
      }
    } else {
      AgreementStep(links, net, Step(false, action));
    }
  }

  lemma NextOk(links: Links, net: Net, step: Step)
    requires LinksOk(links) && NetOk(links, net) && StepEnabled(links, net, step)
    ensures NetOk(links, Next(links, net, step))
  {
    hide LocalStep;
    if step.atA {
      LocalStepOk(links.envA, links.envB, Local(net.a, net.ba, net.ab), step.action);
    } else {
      LocalStepOk(links.envB, links.envA, Local(net.b, net.ab, net.ba), step.action);
    }
  }

  lemma InvStep(links: Links, net: Net, step: Step)
    requires LinksOk(links) && Inv(links, net) && StepEnabled(links, net, step)
    requires Cautious(links, net, step)
    ensures Inv(links, Next(links, net, step))
  {
    hide BeforeReset, DuringReset, Agreement, Next, Cautious;
    NextOk(links, net, step);
    if step.atA {
      assert step == Step(true, step.action);
      InvStepAtA(links, net, step.action);
    } else {
      assert step == Step(false, step.action);
      InvStepAtB(links, net, step.action);
    }
  }

  /**
   * `A`, whatever its state was, has just wiped itself and queued a RESET, or has just been started;
   * `B` is between packets, in whatever state but a reset of its own, and anything may be in flight
   * but a RESET or RESET-ACK.
   */
  ghost predicate Start(links: Links, net: Net)
    requires LinksOk(links)
  {
    && NetOk(links, net)
    && (|| (exists e: Endpoint, error: byte :: IsResetOf(links.envA, net.a.e, e, error))
        || net.a.e == SendReset(links.envA, INITIAL, ATTR_RESET, ERROR_NONE))
    && net.a == AfterReset(net.a.e, 0)
    && NoResets(net.ab) && NoResets(net.ba)
    && Attr(net.b.e.packetCodeToSend) == ATTR_NONE && net.b.e.resetState != Resetting
  }

  ghost predicate IsResetOf(env: Env, r: Endpoint, e: Endpoint, error: byte) {
    && |e.rxHeader| == HEADER_LEN && |e.rxFooter| == FOOTER_LEN && Attr(error) == 0
    && r == Reset(env, e, ATTR_RESET, error)
  }

  lemma StartAnnounces(links: Links, net: Net)
    requires LinksOk(links) && Start(links, net)
    ensures Announcing(net.a) && Attr(net.a.e.packetCodeToSend) == ATTR_RESET
  {
    hide NetOk, NoResets;
  }

  lemma StartInv(links: Links, net: Net)
    requires LinksOk(links) && Start(links, net)
    ensures Inv(links, net) && BeforeReset(net)
  {
    hide Agreement, DuringReset, Announcing, SendReset, IsResetOf;
    StartAnnounces(links, net);
  }

  ghost predicate RunEnabled(links: Links, net: Net, steps: seq<Step>)
    requires LinksOk(links) && NetOk(links, net)
    decreases |steps|
  {
    steps == []
    || (StepEnabled(links, net, steps[0])
        && (NextOk(links, net, steps[0]); RunEnabled(links, Next(links, net, steps[0]), steps[1..])))
  }

  ghost function Run(links: Links, net: Net, steps: seq<Step>): (r: Net)
    requires LinksOk(links) && NetOk(links, net) && RunEnabled(links, net, steps)
    ensures NetOk(links, r)
    decreases |steps|
  {
    if steps == [] then net
    else (NextOk(links, net, steps[0]); Run(links, Next(links, net, steps[0]), steps[1..]))
  }

  lemma {:induction false} RunConcat(links: Links, net: Net, first: seq<Step>, second: seq<Step>)
    requires LinksOk(links) && NetOk(links, net) && RunEnabled(links, net, first)
    requires RunEnabled(links, Run(links, net, first), second)
    ensures RunEnabled(links, net, first + second)
    ensures Run(links, net, first + second) == Run(links, Run(links, net, first), second)
    decreases |first|
  {
    hide Next, NetOk;
    if first == [] {
      assert first + second == second;
    } else {
      NextOk(links, net, first[0]);
      RunConcat(links, Next(links, net, first[0]), first[1..], second);
      assert (first + second)[0] == first[0] && (first + second)[1..] == first[1..] + second;
    }
  }

  /** No step of the run is a risky retry. */
  ghost predicate Careful(links: Links, net: Net, steps: seq<Step>)
    requires LinksOk(links) && NetOk(links, net) && RunEnabled(links, net, steps)
    decreases |steps|
  {
    steps != [] ==>
      && Cautious(links, net, steps[0])
      && (NextOk(links, net, steps[0]); Careful(links, Next(links, net, steps[0]), steps[1..]))
  }

  lemma {:induction false} RunInv(links: Links, net: Net, steps: seq<Step>)
    requires LinksOk(links) && Inv(links, net) && RunEnabled(links, net, steps) && Careful(links, net, steps)
    ensures Inv(links, Run(links, net, steps))
    decreases |steps|
  {
    hide BeforeReset, DuringReset, Agreement, Next, Cautious;
    if steps != [] {
      InvStep(links, net, steps[0]);
      RunInv(links, Next(links, net, steps[0]), steps[1..]);
    }
  }

  /** Once reached, agreement lasts until the next reset. */
  lemma {:induction false} AgreementLasts(links: Links, net: Net, steps: seq<Step>)
    requires LinksOk(links) && NetOk(links, net) && RunEnabled(links, net, steps)
    requires Agreement(links, net)
    ensures Agreement(links, Run(links, net, steps))
    decreases |steps|
  {
    hide Agreement, Next, NetOk;
    if steps != [] {
      AgreementStep(links, net, steps[0]);
      NextOk(links, net, steps[0]);
      AgreementLasts(links, Next(links, net, steps[0]), steps[1..]);
    }
  }

  lemma InvParts(links: Links, net: Net)
    requires LinksOk(links) && Inv(links, net)
    ensures NetOk(links, net)
    ensures net.a.e.resetState == NotResetting ==> Agreement(links, net)
  {
    hide Agreement, NetOk;
  }

  /** What agreement gives the two app layers. */
  ghost predicate Delivers(net: Net) {
    && net.b.sent != [] && net.a.sent != []
    && net.b.e.delivered <= net.a.sent[1..] && net.a.e.delivered <= net.b.sent[1..]
    && net.a.acked <= net.b.accepted <= net.a.acked + 1
    && net.b.acked <= net.a.accepted <= net.b.acked + 1
    && (net.a.e.txQueue == [] ==> net.b.e.delivered == net.a.sent[1..])
    && (net.b.e.txQueue == [] ==> net.a.e.delivered == net.b.sent[1..])
  }

  lemma AgreementDelivers(links: Links, net: Net)
    requires LinksOk(links) && Agreement(links, net)
    ensures Delivers(net)
  {
    hide Stream, Reassemble, Pending;
    var (mtuA, mtuB) := (links.envA.txMtu, links.envB.txMtu);
    FlowDeliversPrefix(mtuA, SenderOf(net.a), ReceiverOf(net.b), net.ab, net.ba);
    FlowDeliversPrefix(mtuB, SenderOf(net.b), ReceiverOf(net.a), net.ba, net.ab);
    if net.a.e.txQueue == [] {
      FlowCompletes(mtuA, SenderOf(net.a), ReceiverOf(net.b), net.ab, net.ba);
    }
    if net.b.e.txQueue == [] {
      FlowCompletes(mtuB, SenderOf(net.b), ReceiverOf(net.a), net.ba, net.ab);
    }
  }

  /**
   * In every careful run from such a start, whenever `A` has left the reset the two ends agree, and
   * each app layer has been handed a prefix of what the other queued since: nothing lost, repeated or
   * out of order, and all of it once the sender's queue is empty.
   */
  lemma ResetThenReliableDelivery(links: Links, net: Net, steps: seq<Step>)
    requires LinksOk(links) && Start(links, net) && RunEnabled(links, net, steps) && Careful(links, net, steps)
    ensures var r := Run(links, net, steps);
            r.a.e.resetState == NotResetting ==> Agreement(links, r) && Delivers(r)
  {
    hide Agreement, Delivers, Inv, Next, NetOk;
    StartInv(links, net);
    RunInv(links, net, steps);
    var r := Run(links, net, steps);
    InvParts(links, r);
    if r.a.e.resetState == NotResetting {
      AgreementDelivers(links, r);
    }
  }

  lemma CarriesNumber(fs: seq<Fragment>, f: Flight)
    requires Carries(fs, f)
    ensures f.p.payload != [] ==> f.p.seqNo == f.n % 0x100
  {
  }

  lemma CountsAsNext(acked: nat, f: Flight)
    requires acked <= f.a <= acked + 1 && (Blank(f) || f.p.ackSeq == f.a % 0x100)
    ensures f.p.ackSeq == Successor(acked % 0x100) <==> f.a == acked + 1
  {
  }

  /**
   * Comparing sequence numbers mod 256 is comparing them: a payload is accepted exactly when it is
   * the next fragment, an ACK counts exactly when it acknowledges one more fragment, and then there
   * is a datagram to take off the queue.
   */
  lemma NoWraparoundAmbiguity(mtu: nat, tx: Sender, rx: Receiver, ch: seq<Flight>, back: seq<Flight>, i: nat)
    requires 0 < mtu && Flow(mtu, tx, rx, ch, back)
    ensures i < |ch| && ch[i].p.payload != [] ==> (ch[i].p.seqNo == rx.expected <==> ch[i].n == rx.accepted)
    ensures i < |back| && !IsReset(back[i]) ==>
              (back[i].p.ackSeq == Successor(tx.ackByte) <==> back[i].a == tx.acked + 1)
    ensures i < |back| && !IsReset(back[i]) && back[i].p.ackSeq == Successor(tx.ackByte) ==> tx.queue != []
  {
    hide Reassemble, Stream, Pending, Carries, Blank, Successor;
    if i < |back| && !IsReset(back[i]) {
      CountsAsNext(tx.acked, back[i]);
      if back[i].a == tx.acked + 1 {
        SenderAcknowledges(mtu, tx);
      }
    }
    if i < |ch| && ch[i].p.payload != [] {
      assert Carries(Stream(mtu, tx.sent), ch[i]);
      CarriesNumber(Stream(mtu, tx.sent), ch[i]);
    }
  }
}
