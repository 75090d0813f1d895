/** A reset, from the first RESET to the RESET-ACK: what each step of either end does to it. */
module Handshake {
  import opened Bytes
  import opened EndpointState
  import opened Framing
  import opened Reception
  import opened Arq
  import opened Network

  // ----------------------------------------------------------------------------------------
  // While A announces

  lemma AnnouncingStep(env: Env, l: Local, action: Action)
    requires env.Valid() && |CONFIG| <= env.txMtu && SideOk(l.me) && Fits(env, l.inbound)
    requires Enabled(l.me, l.inbound, action) && Announcing(l.me)
    requires forall k :: env.mem(k)
    requires action.Deliver? ==> !IsReset(l.inbound[0]) && !IsResetAck(l.inbound[0])
    ensures Announcing(LocalStep(env, l, action).me)
    ensures !action.RetryReset? && Misleads(l.me) ==> Misleads(LocalStep(env, l, action).me)
  {
    hide RxBytes, Frame, Receive;
    match action
    case Deliver(noise) =>
      DeliverIsReceive(env, l, noise);
      ReceiveDiscarded(env, l.me.e, l.inbound[0].p);
    case Work(_) =>
    case Enqueue(_) =>
    case SendDone =>
    case Lose(_) =>
    case Nack(_) =>
    case RetryReset =>
  }

  lemma AnnouncingEmits(env: Env, s: Side, action: Action, f: Flight)
    requires env.Valid() && |CONFIG| <= env.txMtu && SideOk(s) && Announcing(s)
    requires Emits(env, s, action) == [f]
    ensures Preliminary(f) && (Misleading(f) <==> Misleads(s))
  {
    assert CONFIG[0..] == CONFIG && CONFIG[..|CONFIG|] == CONFIG;
  }

  /** Only `Deliver` and `Lose` take packets off a link, and only `Work` puts one on. */
  lemma LinkChanges(env: Env, l: Local, action: Action)
    requires env.Valid() && SideOk(l.me) && Fits(env, l.inbound)
    requires Enabled(l.me, l.inbound, action)
    ensures var l' := LocalStep(env, l, action);
            && (action.Deliver? ==> l'.inbound == l.inbound[1..] == Without(l.inbound, 0))
            && (action.Lose? ==> l'.inbound == Without(l.inbound, action.i))
            && (!action.Deliver? && !action.Lose? ==> l'.inbound == l.inbound)
            && l'.outbound == l.outbound + Emits(env, l.me, action)
            && |Emits(env, l.me, action)| <= 1
  {
    hide RxBytes, Frame, Reset;
  }

  lemma OldThenPreliminaryGrows(ch: seq<Flight>, f: Flight)
    requires OldThenPreliminary(ch) && Preliminary(f)
    requires MisleadsAfterReset(ch) ==> Misleading(f)
    ensures OldThenPreliminary(ch + [f])
    ensures MisleadsAfterReset(ch + [f]) ==> MisleadsAfterReset(ch) || Misleading(f)
  {
    hide Preliminary, Misleading, IsReset;
    var ch' := ch + [f];
    if MisleadsAfterReset(ch') {
      var i, j :| 0 <= i < j < |ch'| && IsReset(ch'[i]) && Misleading(ch'[j]);
      assert j < |ch| ==> IsReset(ch[i]) && Misleading(ch[j]);
    }
  }

  lemma BeforeResetAtA(links: Links, net: Net, action: Action)
    requires LinksOk(links) && NetOk(links, net) && BeforeReset(net)
    requires Enabled(net.a, net.ba, action)
    requires action.RetryReset? ==> !MisleadsAfterReset(net.ab)
    ensures BeforeReset(Next(links, net, Step(true, action)))
  {
    hide LocalStep, Enabled, Announcing, OldThenPreliminary, MisleadsAfterReset, Emits, Preliminary, Misleads;
    var l := Local(net.a, net.ba, net.ab);
    DeliverNeedsPacket(net.a, net.ba, action);
    AnnouncingStep(links.envA, l, action);
    LinkChanges(links.envA, l, action);
    var out := Emits(links.envA, net.a, action);
    if out == [] {
      assert net.ab + out == net.ab;
    } else {
      var f := out[0];
      assert out == [f];
      EmitsOnlyWork(links.envA, net.a, action);
      AnnouncingEmits(links.envA, net.a, action, f);
      OldThenPreliminaryGrows(net.ab, f);
    }
  }

  lemma EmitsOnlyWork(env: Env, s: Side, action: Action)
    requires env.Valid() && SideOk(s)
    ensures !action.Work? ==> Emits(env, s, action) == []
  {
  }

  lemma DeliverNeedsPacket(me: Side, inbound: seq<Flight>, action: Action)
    requires Enabled(me, inbound, action)
    ensures action.Deliver? ==> inbound != []
    ensures action.Lose? ==> action.i < |inbound|
  {
  }

  // ----------------------------------------------------------------------------------------
  // B before and after the RESET

  /** Whatever an old packet does to `B`, it keeps sending plain packets. */
  lemma OldStep(env: Env, l: Local, action: Action)
    requires env.Valid() && SideOk(l.me) && Fits(env, l.inbound)
    requires Enabled(l.me, l.inbound, action)
    requires forall k :: env.mem(k)
    requires Attr(l.me.e.packetCodeToSend) == ATTR_NONE && l.me.e.resetState != Resetting
    requires action.Deliver? ==> !IsReset(l.inbound[0])
    ensures var l' := LocalStep(env, l, action);
            Attr(l'.me.e.packetCodeToSend) == ATTR_NONE && l'.me.e.resetState != Resetting
    ensures forall f :: f in Emits(env, l.me, action) ==> Attr(f.p.packetCode) == ATTR_NONE
  {
    hide RxBytes, Frame, Receive;
    if action.Deliver? {
      DeliverIsReceive(env, l, action.noise);
      ReceiveStartsNoReset(env, l.me.e, l.inbound[0].p);
    }
  }

  /** A RESET, whenever it arrives, leaves `B` answering it. */
  lemma ResetArrives(env: Env, l: Local, noise: seq<byte>)
    requires env.Valid() && SideOk(l.me) && Fits(env, l.inbound)
    requires Enabled(l.me, l.inbound, Deliver(noise))
    requires forall k :: env.mem(k)
    requires ResetFlight(l.inbound[0])
    ensures var me' := LocalStep(env, l, Deliver(noise)).me;
            && Responding(me') && me'.e.packetCodeToSend == ATTR_RESET_ACK
            && SenderOf(me') == FRESH_SENDER && ReceiverOf(me') == FRESH_RECEIVER
            && me'.acked == 0 && me'.accepted == 1 && me'.e.txAttempts == 0 && !me'.e.linkBusy
  {
    hide RxBytes, Frame, Receive;
    DeliverIsReceive(env, l, noise);
    ReceiveReset(env, l.me.e, l.inbound[0].p);
  }

  lemma FreshFlow(mtu: nat)
    requires |CONFIG| <= mtu
    ensures Flow(mtu, FRESH_SENDER, FRESH_RECEIVER, [], [])
  {
    FreshSenderOk(mtu);
    ConfigFirst(mtu, [CONFIG]);
  }

  lemma FirstResetArrives(links: Links, net: Net, noise: seq<byte>)
    requires LinksOk(links) && NetOk(links, net) && BeforeReset(net)
    requires Enabled(net.b, net.ab, Deliver(noise)) && IsReset(net.ab[0])
    ensures DuringReset(links, Next(links, net, Step(false, Deliver(noise))))
  {
    hide LocalStep, Enabled, Announcing, Responding, Emits, Flow, Misleads;
    var l := Local(net.b, net.ab, net.ba);
    LinkChanges(links.envB, l, Deliver(noise));
    EmitsOnlyWork(links.envB, net.b, Deliver(noise));
    ResetArrives(links.envB, l, noise);
    FreshFlow(links.envB.txMtu);
    var net' := Next(links, net, Step(false, Deliver(noise)));
    forall i: nat
      ensures AnswersFrom(links.envB.txMtu, net'.b, net'.ba, i)
    {
      if i == |net'.ba| {
        assert net'.ba[i..] == [];
      }
    }
    MisleadingTail(net.ab);
  }

  lemma MisleadingTail(ch: seq<Flight>)
    requires OldThenPreliminary(ch) && ch != [] && IsReset(ch[0])
    ensures AllPreliminary(ch[1..]) && MisleadingLast(ch[1..])
    ensures HasMisleading(ch[1..]) ==> MisleadsAfterReset(ch)
  {
    if HasMisleading(ch[1..]) {
      var j :| 0 <= j < |ch[1..]| && Misleading(ch[1..][j]);
      assert IsReset(ch[0]) && Misleading(ch[j + 1]);
    }
  }

  lemma OldThenPreliminaryWithout(ch: seq<Flight>, i: nat)
    requires OldThenPreliminary(ch) && i < |ch|
    ensures OldThenPreliminary(Without(ch, i))
    ensures MisleadsAfterReset(Without(ch, i)) ==> MisleadsAfterReset(ch)
  {
    hide Preliminary, Misleading, IsReset;
    var ch' := Without(ch, i);
    forall j, k | 0 <= j <= k < |ch'| && IsReset(ch'[j])
      ensures Preliminary(ch'[k])
    {
      assert ch'[j] == ch[Before(i, j)] && ch'[k] == ch[Before(i, k)];
    }
    forall j, k | 0 <= j < k < |ch'| && IsReset(ch'[j]) && Misleading(ch'[k])
      ensures MisleadsAfterReset(ch)
    {
      assert ch'[j] == ch[Before(i, j)] && ch'[k] == ch[Before(i, k)];
    }
    forall j, k, m | 0 <= j < k < m < |ch'| && IsReset(ch'[j]) && Misleading(ch'[k])
      ensures Misleading(ch'[m])
    {
      MisleadingBehind(ch, Before(i, j), Before(i, k), Before(i, m));
    }
  }

  /** Where the packet now at `k` was before the one at `i` was lost. */
  function Before(i: nat, k: nat): nat { if k < i then k else k + 1 }

  lemma MisleadingBehind(ch: seq<Flight>, i: nat, j: nat, k: nat)
    requires OldThenPreliminary(ch) && i < j < k < |ch| && IsReset(ch[i]) && Misleading(ch[j])
    ensures Misleading(ch[k])
  {
    hide Preliminary, Misleading, IsReset;
  }

  lemma BeforeResetAtB(links: Links, net: Net, action: Action)
    requires LinksOk(links) && NetOk(links, net) && BeforeReset(net)
    requires Enabled(net.b, net.ab, action)
    requires action.Deliver? ==> !IsReset(net.ab[0])
    ensures BeforeReset(Next(links, net, Step(false, action)))
  {
    hide LocalStep, Enabled, Announcing, OldThenPreliminary, MisleadsAfterReset, Emits, Misleads;
    var l := Local(net.b, net.ab, net.ba);
    DeliverNeedsPacket(net.b, net.ab, action);
    LinkChanges(links.envB, l, action);
    OldStep(links.envB, l, action);
    if action.Deliver? {
      OldThenPreliminaryWithout(net.ab, 0);
    } else if action.Lose? {
      OldThenPreliminaryWithout(net.ab, action.i);
    }
  }

  // ----------------------------------------------------------------------------------------
  // What B has answered

  lemma AnswersWork(env: Env, s: Side, ch: seq<Flight>, action: Action)
    requires env.Valid() && SideOk(s) && action.Work? && !GivesUpResending(s.e, action.resend)
    requires Responding(s) && Answers(env.txMtu, s, ch)
    ensures var s' := s.(e := DoWork(env, s.e, action.resend).0);
            Responding(s') && Answers(env.txMtu, s', ch + Emits(env, s, action))
  {
    hide Flow, Carries, SenderOk;
    var s' := s.(e := DoWork(env, s.e, action.resend).0);
    var out := Emits(env, s, action);
    assert SenderOf(s') == SenderOf(s);
    if out == [] {
      assert ch + out == ch;
    } else {
      FlowParts(env.txMtu, SenderOf(s), FRESH_RECEIVER, ch, []);
      WorkCarries(env, s, action.resend);
      FlowSendData(env.txMtu, SenderOf(s), FRESH_RECEIVER, ch, [], out[0]);
    }
  }

  lemma AnswersEnqueue(env: Env, s: Side, ch: seq<Flight>, d: seq<byte>)
    requires env.Valid() && SideOk(s) && Responding(s) && Answers(env.txMtu, s, ch)
    ensures var (e, ok) := EnqueueDatagramOrFail(s.e, d);
            var s' := s.(e := e, sent := if ok then s.sent + [d] else s.sent);
            Responding(s') && Answers(env.txMtu, s', ch)
  {
    hide Flow;
    FlowEnqueue(env.txMtu, SenderOf(s), FRESH_RECEIVER, ch, [], d);
    var (e, ok) := EnqueueDatagramOrFail(s.e, d);
    var s' := s.(e := e, sent := if ok then s.sent + [d] else s.sent);
    assert SenderOf(s') == if ok then SenderOf(s).(sent := s.sent + [d], queue := s.e.txQueue + [d])
                           else SenderOf(s);
  }

  lemma AnswersWithout(mtu: nat, s: Side, ch: seq<Flight>, i: nat)
    requires 0 < mtu && Answers(mtu, s, ch) && i < |ch|
    ensures Answers(mtu, s, Without(ch, i))
  {
    hide Flow;
    FlowLoseData(mtu, SenderOf(s), FRESH_RECEIVER, ch, [], i);
  }

  /** Another RESET takes `B` back to where it was; so far it has sent only its configuration. */
  lemma AnswersAgain(mtu: nat, s: Side, ch: seq<Flight>, s': Side)
    requires |CONFIG| <= mtu && Answers(mtu, s, ch) && s.acked == 0
    requires SenderOf(s') == FRESH_SENDER && s'.accepted == 1 && s'.e.packetCodeToSend == ATTR_RESET_ACK
    ensures Answers(mtu, s', ch)
  {
    FlowRestartSender(mtu, SenderOf(s), FRESH_RECEIVER, ch, []);
    assert s'.acked == SenderOf(s').acked;
  }

  /** An unmarked packet of the resetting peer: at most, `B` takes it for the ACK of its configuration. */
  lemma AnswersPlain(env: Env, s: Side, ch: seq<Flight>, f: Flight)
    requires env.Valid() && SideOk(s) && Responding(s) && Answers(env.txMtu, s, ch)
    requires Preliminary(f) && !IsReset(f) && (s.acked != 0 ==> Misleading(f)) && |f.p.payload| < 0x1_0000
    ensures var s' := AfterPacket(s, f.p, Receive(env, s.e, f.p));
            && Responding(s') && Answers(env.txMtu, s', ch)
            && s'.acked == (if Misleading(f) then 1 else 0)
  {
    hide Receive, Stream, Reassemble, Pending, DataOk;
    ReceivePlain(env, s.e, f.p);
    PlainIsAckAndAccept(env, s, f);
    var s' := AfterPacket(s, f.p, Receive(env, s.e, f.p));
    assert ReceiverOf(s') == FRESH_RECEIVER;
    assert s.acked <= 1;
    assert AcksOk(s.acked, 1, [f]);
    assert Flow(env.txMtu, SenderOf(s), FRESH_RECEIVER, ch, [f]);
    FlowAck(env.txMtu, SenderOf(s), FRESH_RECEIVER, ch, [f]);
    assert [f][1..] == [];
    assert s'.acked == SenderOf(s').acked;
  }

  lemma DuringResetDeliverAtB(links: Links, net: Net, noise: seq<byte>)
    requires LinksOk(links) && NetOk(links, net) && DuringReset(links, net)
    requires Enabled(net.b, net.ab, Deliver(noise))
    ensures DuringReset(links, Next(links, net, Step(false, Deliver(noise))))
  {
    hide RxBytes, Frame, Receive, Announcing, Answers, Responding, Emits, Misleads;
    var l := Local(net.b, net.ab, net.ba);
    var mtu := links.envB.txMtu;
    LinkChanges(links.envB, l, Deliver(noise));
    DeliverIsReceive(links.envB, l, noise);
    var net' := Next(links, net, Step(false, Deliver(noise)));
    var f := net.ab[0];
    assert net'.ba == net.ba && net'.ab == net.ab[1..];
    AnswersBound(links, net);
    if IsReset(f) {
      ResetArrives(links.envB, l, noise);
    } else {
      assert net'.b == AfterPacket(net.b, f.p, Receive(links.envB, net.b.e, f.p));
      assert AnswersFrom(mtu, net.b, net.ba, |net.ba|) && net.ba[|net.ba|..] == [];
      AnswersPlain(links.envB, net.b, [], f);
    }
    forall i: nat
      ensures AnswersFrom(mtu, net'.b, net'.ba, i)
    {
      assert AnswersFrom(mtu, net.b, net.ba, i);
      if (i < |net.ba| && IsResetAck(net.ba[i])) || i == |net.ba| {
        if IsReset(f) {
          AnswersAgain(mtu, net.b, net.ba[i..], net'.b);
        } else {
          AnswersPlain(links.envB, net.b, net.ba[i..], f);
        }
      }
    }
  }

  lemma AnswersBound(links: Links, net: Net)
    requires LinksOk(links) && DuringReset(links, net)
    ensures net.b.acked <= 1
  {
    assert AnswersFrom(links.envB.txMtu, net.b, net.ba, |net.ba|);
  }

  lemma AnswersOther(env: Env, l: Local, ch: seq<Flight>, action: Action)
    requires env.Valid() && SideOk(l.me) && Fits(env, l.inbound)
    requires Enabled(l.me, l.inbound, action) && !action.Deliver?
    requires Responding(l.me) && Answers(env.txMtu, l.me, ch)
    ensures var s' := LocalStep(env, l, action).me;
            Responding(s') && Answers(env.txMtu, s', ch + Emits(env, l.me, action)) && s'.acked == l.me.acked
  {
    hide Flow, Reset;
    match action
    case Work(_) => AnswersWork(env, l.me, ch, action);
    case Enqueue(d) =>
      AnswersEnqueue(env, l.me, ch, d);
      assert ch + [] == ch;
    case SendDone => assert ch + [] == ch;
    case Lose(_) => assert ch + [] == ch;
    case Nack(_) => assert ch + [] == ch;
  }

  lemma MisleadingLastWithout(ch: seq<Flight>, i: nat)
    requires AllPreliminary(ch) && MisleadingLast(ch) && i < |ch|
    ensures AllPreliminary(Without(ch, i)) && MisleadingLast(Without(ch, i))
    ensures HasMisleading(Without(ch, i)) ==> HasMisleading(ch)
  {
    hide Preliminary, Misleading;
    var ch' := Without(ch, i);
    if HasMisleading(ch') {
      var j :| 0 <= j < |ch'| && Misleading(ch'[j]);
      assert Misleading(ch[if j < i then j else j + 1]);
    }
  }

  /** What `B` sends extends each of its answers, and may start a new one. */
  lemma AnswersFromGrows(mtu: nat, s: Side, s': Side, ch: seq<Flight>, out: seq<Flight>, i: nat)
    requires 0 < mtu && |out| <= 1
    requires forall k: nat :: AnswersFrom(mtu, s, ch, k)
    requires forall c :: Answers(mtu, s, c) ==> Answers(mtu, s', c + out)
    ensures AnswersFrom(mtu, s', ch + out, i)
  {
    hide Answers;
    var ch' := ch + out;
    assert AnswersFrom(mtu, s, ch, |ch|) && ch[|ch|..] == [] && [] + out == out;
    if i < |ch| {
      assert AnswersFrom(mtu, s, ch, i);
      assert ch'[i..] == ch[i..] + out;
    } else if i == |ch| {
      assert ch'[i..] == out;
    } else if i == |ch'| {
      AnswersWithout(mtu, s', out, 0);
      assert Without(out, 0) == [] && ch'[i..] == [];
    }
  }

  lemma DuringResetOtherAtB(links: Links, net: Net, action: Action)
    requires LinksOk(links) && NetOk(links, net) && DuringReset(links, net)
    requires Enabled(net.b, net.ab, action) && !action.Deliver?
    ensures DuringReset(links, Next(links, net, Step(false, action)))
  {
    hide LocalStep, Enabled, Announcing, Misleads, Misleading, Preliminary, Answers, Responding, Emits;
    var l := Local(net.b, net.ab, net.ba);
    var mtu := links.envB.txMtu;
    DeliverNeedsPacket(net.b, net.ab, action);
    LinkChanges(links.envB, l, action);
    var net' := Next(links, net, Step(false, action));
    var out := Emits(links.envB, net.b, action);
    forall c | Answers(mtu, net.b, c)
      ensures Answers(mtu, net'.b, c + out)
    {
      AnswersOther(links.envB, l, c, action);
    }
    assert AnswersFrom(mtu, net.b, net.ba, |net.ba|) && net.ba[|net.ba|..] == [];
    AnswersOther(links.envB, l, [], action);
    assert forall f :: f in out ==> !IsReset(f) by { assert [] + out == out; AnswersNoReset(mtu, net'.b, out); }
    forall i: nat
      ensures AnswersFrom(mtu, net'.b, net'.ba, i)
    {
      AnswersFromGrows(mtu, net.b, net'.b, net.ba, out, i);
    }
    if action.Lose? {
      MisleadingLastWithout(net.ab, action.i);
    }
  }

  lemma AnswersNoReset(mtu: nat, s: Side, ch: seq<Flight>)
    requires 0 < mtu && Answers(mtu, s, ch)
    ensures forall f :: f in ch ==> !IsReset(f)
  {
    hide Flow;
  }

  // ----------------------------------------------------------------------------------------
  // A during its reset, and the RESET-ACK

  lemma ResetAckArrives(env: Env, l: Local, noise: seq<byte>)
    requires env.Valid() && |CONFIG| <= env.txMtu
    requires SideOk(l.me) && Fits(env, l.inbound)
    requires Enabled(l.me, l.inbound, Deliver(noise))
    requires forall k :: env.mem(k)
    requires Announcing(l.me) && IsResetAck(l.inbound[0]) && AnswerFlight(l.inbound[0])
    ensures var me' := LocalStep(env, l, Deliver(noise)).me;
            && me'.e.resetState == NotResetting && me'.e.txAttempts == 0
            && me'.e.packetCodeToSend == (if env.answersResetAck then ERROR_NONE else l.me.e.packetCodeToSend)
            && SenderOf(me') == Sender([CONFIG], 1, 1, [], 0) && ReceiverOf(me') == FRESH_RECEIVER
  {
    hide RxBytes, Frame, Receive;
    DeliverIsReceive(env, l, noise);
    ReceiveResetAck(env, l.me.e, l.inbound[0].p);
  }

  lemma InitiatorFlow(mtu: nat, ch: seq<Flight>, back: seq<Flight>)
    requires |CONFIG| <= mtu && AllPreliminary(ch)
    requires forall i :: 0 <= i < |back| ==> AnswerFlight(back[i])
    ensures Flow(mtu, Sender([CONFIG], 1, 1, [], 0), FRESH_RECEIVER, ch, back)
  {
    FreshSenderOk(mtu);
    ConfigFirst(mtu, [CONFIG]);
  }

  lemma ResponderFlow(mtu: nat, s: Side, ch: seq<Flight>, back: seq<Flight>)
    requires 0 < mtu && Answers(mtu, s, ch) && AllPreliminary(back) && MisleadingLast(back)
    requires s.acked != 0 ==> forall i :: 0 <= i < |back| ==> Misleading(back[i])
    ensures Flow(mtu, SenderOf(s), FRESH_RECEIVER, ch, back)
  {
    hide Stream, Reassemble, SenderOk, DataOk;
    forall i, j | 0 <= i < j < |back|
      ensures back[i].a <= back[j].a
    {
      assert Misleading(back[i]) ==> Misleading(back[j]);
    }
  }

  lemma AnswersRest(links: Links, net: Net)
    requires LinksOk(links) && DuringReset(links, net) && net.ba != [] && IsResetAck(net.ba[0])
    ensures Answers(links.envB.txMtu, net.b, net.ba[1..]) && AnswerFlight(net.ba[0])
  {
    hide Flow, Announcing, MarkerOk, MarksFirst, AnswerFlight;
    assert AnswersFrom(links.envB.txMtu, net.b, net.ba, 0) && net.ba[0..] == net.ba;
    assert AnswerFlight(net.ba[0]);
    AnswersWithout(links.envB.txMtu, net.b, net.ba, 0);
    assert Without(net.ba, 0) == net.ba[1..];
  }

  lemma ResetEnds(links: Links, net: Net, noise: seq<byte>)
    requires LinksOk(links) && NetOk(links, net) && DuringReset(links, net)
    requires Enabled(net.a, net.ba, Deliver(noise)) && IsResetAck(net.ba[0])
    ensures Agreement(links, Next(links, net, Step(true, Deliver(noise))))
  {
    hide LocalStep, Enabled, Flow, Emits;
    var l := Local(net.a, net.ba, net.ab);
    LinkChanges(links.envA, l, Deliver(noise));
    EmitsOnlyWork(links.envA, net.a, Deliver(noise));
    AnswersRest(links, net);
    ResetAckArrives(links.envA, l, noise);
    InitiatorFlow(links.envA.txMtu, net.ab, net.ba[1..]);
    ResponderFlow(links.envB.txMtu, net.b, net.ba[1..], net.ab);
    var net' := Next(links, net, Step(true, Deliver(noise)));
    assert net'.ab == net.ab && net'.ba == net.ba[1..] && net'.b == net.b;
    assert net'.a.accepted == ReceiverOf(net'.a).accepted == 1;
    assert net'.a.acked == SenderOf(net'.a).acked == 1;
    PreliminaryIsHarmless(net.b, net.ab);
    if !Misled(net) {
      forall i | 0 <= i < |net.ab|
        ensures Harmless(net.ab[i])
      {
        assert !Misleading(net.ab[i]);
      }
    }
  }

  lemma PreliminaryIsHarmless(b: Side, ch: seq<Flight>)
    requires AllPreliminary(ch) && MisleadingLast(ch) && Responding(b)
    requires b.acked != 0 ==> forall i :: 0 <= i < |ch| ==> Misleading(ch[i])
    ensures PlainOrReset(ch) && ResetsFirst(b, ch)
  {
    assert b.accepted == ReceiverOf(b).accepted == 1;
    forall i, j | 0 <= i < j < |ch| && IsReset(ch[j])
      ensures Harmless(ch[i])
    {
      assert !Misleading(ch[j]);
      assert !Misleading(ch[i]);
    }
  }

  lemma MisleadingLastGrows(ch: seq<Flight>, f: Flight)
    requires AllPreliminary(ch) && MisleadingLast(ch) && Preliminary(f)
    requires HasMisleading(ch) ==> Misleading(f)
    ensures AllPreliminary(ch + [f]) && MisleadingLast(ch + [f])
    ensures HasMisleading(ch + [f]) ==> HasMisleading(ch) || Misleading(f)
  {
    hide Preliminary, Misleading;
    var ch' := ch + [f];
    if HasMisleading(ch') {
      var j :| 0 <= j < |ch'| && Misleading(ch'[j]);
      assert j < |ch| ==> Misleading(ch[j]);
    }
  }

  lemma DuringResetOtherAtA(links: Links, net: Net, action: Action)
    requires LinksOk(links) && NetOk(links, net) && DuringReset(links, net)
    requires Enabled(net.a, net.ba, action)
    requires action.Deliver? ==> !IsResetAck(net.ba[0])
    requires action.RetryReset? ==> !Misled(net)
    ensures DuringReset(links, Next(links, net, Step(true, action)))
  {
    hide LocalStep, Enabled, Announcing, Misleads, Misleading, Preliminary, Answers, Responding, Emits;
    var l := Local(net.a, net.ba, net.ab);
    DeliverNeedsPacket(net.a, net.ba, action);
    LinkChanges(links.envA, l, action);
    AnnouncingStep(links.envA, l, action);
    var net' := Next(links, net, Step(true, action));
    var out := Emits(links.envA, net.a, action);
    if out == [] {
      assert net.ab + out == net.ab;
    } else {
      EmitsOnlyWork(links.envA, net.a, action);
      AnnouncingEmits(links.envA, net.a, action, out[0]);
      assert out == [out[0]];
      MisleadingLastGrows(net.ab, out[0]);
    }
    forall i: nat
      ensures AnswersFrom(links.envB.txMtu, net'.b, net'.ba, i)
    {
      if action.Deliver? {
        AnswersFromWithout(links, net, 0, i);
      } else if action.Lose? {
        AnswersFromWithout(links, net, action.i, i);
      }
    }
  }

  lemma AnswersFromWithout(links: Links, net: Net, k: nat, i: nat)
    requires LinksOk(links) && DuringReset(links, net) && k < |net.ba|
    ensures AnswersFrom(links.envB.txMtu, net.b, Without(net.ba, k), i)
  {
    hide Announcing, Misleads, Misleading, Preliminary, Answers, Responding;
    var (mtu, ch, ch') := (links.envB.txMtu, net.ba, Without(net.ba, k));
    if i <= |ch'| && i < k {
      assert AnswersFrom(mtu, net.b, ch, i);
      if IsResetAck(ch'[i]) {
        AnswersWithout(mtu, net.b, ch[i..], k - i);
        assert Without(ch[i..], k - i) == ch'[i..];
      }
    } else if i <= |ch'| {
      assert AnswersFrom(mtu, net.b, ch, i + 1);
      assert ch'[i..] == ch[i + 1..];
    }
  }

  /** Once `B` has stopped answering, a new RESET starts all over. */
  lemma RetryStartsOver(links: Links, net: Net)
    requires LinksOk(links) && NetOk(links, net) && DuringReset(links, net)
    requires Enabled(net.a, net.ba, RetryReset) && Misled(net) && !Risky(links, net)
    ensures BeforeReset(Next(links, net, Step(true, RetryReset)))
  {
    hide LocalStep, Enabled, Announcing, Misleads, Emits, Answers, Flow;
    var l := Local(net.a, net.ba, net.ab);
    LinkChanges(links.envA, l, RetryReset);
    EmitsOnlyWork(links.envA, net.a, RetryReset);
    AnnouncingStep(links.envA, l, RetryReset);
    assert AnswersFrom(links.envB.txMtu, net.b, net.ba, |net.ba|);
    MarkOfAnswer(links.envB.txMtu, net.b, net.ba[|net.ba|..]);
    var net' := Next(links, net, Step(true, RetryReset));
    assert net'.ab == net.ab && net'.ba == net.ba && net'.b == net.b;
    assert !HasResetAck(net.ba) && !MisleadsAfterReset(net.ab);
    assert forall i, j :: 0 <= i < j < |net.ab| && IsReset(net.ab[i]) ==> !Misleading(net.ab[j]);
  }

  lemma MarkOfAnswer(mtu: nat, s: Side, ch: seq<Flight>)
    requires 0 < mtu && Answers(mtu, s, ch)
    ensures Attr(s.e.packetCodeToSend) == ATTR_NONE || Attr(s.e.packetCodeToSend) == ATTR_RESET_ACK
  {
    hide Flow;
  }

  // ----------------------------------------------------------------------------------------
  // What becomes of the RESET mark

  /**
   * Queueing a NACK during a reset replaces the RESET mark, so the retransmission carries the
   * configuration as a plain payload.
   */
  lemma NackErasesReset(env: Env, s: Side, error: byte)
    requires env.Valid() && |CONFIG| <= env.txMtu && SideOk(s) && Announcing(s)
    requires Attr(error) == ATTR_NONE && !s.e.linkBusy
    ensures var p := DoWork(env, EnqueuePacket(s.e, error), true).1;
            && p.Some? && Attr(p.value.packetCode) == ATTR_NONE && p.value.payload == CONFIG
            && p.value.seqNo == 0 && p.value.ackSeq == s.e.expectedSeq
  {
    assert CONFIG[0..] == CONFIG && CONFIG[..|CONFIG|] == CONFIG;
  }

  /** If a RESET-ACK is not answered at once, the RESET mark stays, and working next sends another RESET. */
  lemma UnansweredResetAckRepeatsReset(env: Env, s: Side, f: Flight)
    requires env.Valid() && |CONFIG| <= env.txMtu && SideOk(s) && Announcing(s)
    requires Attr(s.e.packetCodeToSend) == ATTR_RESET && !s.e.linkBusy
    requires IsResetAck(f) && AnswerFlight(f) && |f.p.payload| < 0x1_0000 && !env.answersResetAck
    ensures var e := Receive(env, s.e, f.p);
            var p := DoWork(env, e.(linkBusy := false), false).1;
            p.Some? && Attr(p.value.packetCode) == ATTR_RESET && p.value.payload == []
  {
    hide Receive;
    ReceiveResetAck(env, s.e, f.p);
  }
}
