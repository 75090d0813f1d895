/**
 * When `A` may repeat its RESET.  A NACK erases the RESET mark, and what `A` then sends may pass for
 * an ACK.  If `B` goes on from there while its answer to the first RESET is still to come, a second
 * RESET takes `B` back after `A` has heard the answer to the first.
 */
module Retry {
  import opened Bytes
  import opened EndpointState
  import opened Framing
  import opened Reception
  import opened Arq
  import opened Network
  import opened Handshake
  import opened Reliability

  // ----------------------------------------------------------------------------------------
  // Runs without a further retry

  predicate NoRetries(steps: seq<Step>) {
    forall i :: 0 <= i < |steps| ==> !steps[i].action.RetryReset?
  }

  lemma {:induction false} NoRetriesCareful(links: Links, net: Net, steps: seq<Step>)
    requires LinksOk(links) && NetOk(links, net) && RunEnabled(links, net, steps) && NoRetries(steps)
    ensures Careful(links, net, steps)
    decreases |steps|
  {
    hide Next, NetOk, Risky;
    if steps != [] {
      NextOk(links, net, steps[0]);
      NoRetriesCareful(links, Next(links, net, steps[0]), steps[1..]);
    }
  }

  ghost predicate Leads(links: Links, net: Net, to: Net)
    requires LinksOk(links) && NetOk(links, net)
  {
    exists steps :: NoRetries(steps) && RunEnabled(links, net, steps) && Run(links, net, steps) == to
  }

  lemma LeadsNowhere(links: Links, net: Net)
    requires LinksOk(links) && NetOk(links, net)
    ensures Leads(links, net, net)
  {
    hide NetOk;
    assert NoRetries([]) && RunEnabled(links, net, []) && Run(links, net, []) == net;
  }

  lemma LeadsTrans(links: Links, net: Net, mid: Net, to: Net)
    requires LinksOk(links) && NetOk(links, net) && NetOk(links, mid)
    requires Leads(links, net, mid) && Leads(links, mid, to)
    ensures Leads(links, net, to)
  {
    hide NetOk, Next, Run, RunEnabled;
    var first :| NoRetries(first) && RunEnabled(links, net, first) && Run(links, net, first) == mid;
    var second :| NoRetries(second) && RunEnabled(links, mid, second) && Run(links, mid, second) == to;
    RunConcat(links, net, first, second);
    assert NoRetries(first + second);
  }

  lemma LeadsStep(links: Links, net: Net, step: Step)
    requires LinksOk(links) && NetOk(links, net) && StepEnabled(links, net, step)
    requires !step.action.RetryReset?
    ensures NetOk(links, Next(links, net, step)) && Leads(links, net, Next(links, net, step))
  {
    hide NetOk, Next;
    NextOk(links, net, step);
    var steps := [step];
    assert steps[0] == step && steps[1..] == [];
    assert NoRetries(steps) && RunEnabled(links, net, steps) && Run(links, net, steps) == Next(links, net, step);
  }

  lemma LeadsThree(links: Links, n0: Net, n1: Net, n2: Net, n3: Net)
    requires LinksOk(links) && NetOk(links, n0) && NetOk(links, n1) && NetOk(links, n2)
    requires Leads(links, n0, n1) && Leads(links, n1, n2) && Leads(links, n2, n3)
    ensures Leads(links, n0, n3)
  {
    hide NetOk, Leads;
    LeadsTrans(links, n0, n1, n2);
    LeadsTrans(links, n0, n2, n3);
  }

  // ----------------------------------------------------------------------------------------
  // Losing packets

  /** The packets ahead of the one at `i` are lost on the way to `B`. */
  lemma {:induction false} LoseAheadOfB(links: Links, net: Net, i: nat)
    requires LinksOk(links) && NetOk(links, net) && i <= |net.ab|
    ensures var to := net.(ab := net.ab[i..]);
            NetOk(links, to) && Leads(links, net, to)
    decreases i
  {
    hide Leads;
    if i == 0 {
      assert net.ab[0..] == net.ab;
      LeadsNowhere(links, net);
    } else {
      var step := Step(false, Lose(0));
      assert Without(net.ab, 0) == net.ab[1..] && net.ab[1..][i - 1..] == net.ab[i..];
      assert net.ba + Emits(links.envB, net.b, Lose(0)) == net.ba;
      LeadsStep(links, net, step);
      LoseAheadOfB(links, net.(ab := net.ab[1..]), i - 1);
      LeadsTrans(links, net, net.(ab := net.ab[1..]), net.(ab := net.ab[i..]));
    }
  }

  lemma {:induction false} LoseAheadOfA(links: Links, net: Net, i: nat)
    requires LinksOk(links) && NetOk(links, net) && i <= |net.ba|
    ensures var to := net.(ba := net.ba[i..]);
            NetOk(links, to) && Leads(links, net, to)
    decreases i
  {
    hide Leads;
    if i == 0 {
      assert net.ba[0..] == net.ba;
      LeadsNowhere(links, net);
    } else {
      var step := Step(true, Lose(0));
      assert Without(net.ba, 0) == net.ba[1..] && net.ba[1..][i - 1..] == net.ba[i..];
      assert net.ab + Emits(links.envA, net.a, Lose(0)) == net.ab;
      LeadsStep(links, net, step);
      LoseAheadOfA(links, net.(ba := net.ba[1..]), i - 1);
      LeadsTrans(links, net, net.(ba := net.ba[1..]), net.(ba := net.ba[i..]));
    }
  }

  /** All that travels behind the first packet is lost. */
  lemma {:induction false} LoseBehindAtB(links: Links, net: Net)
    requires LinksOk(links) && NetOk(links, net) && net.ab != []
    ensures var to := net.(ab := net.ab[..1]);
            NetOk(links, to) && Leads(links, net, to)
    decreases |net.ab|
  {
    hide Leads;
    var n := |net.ab|;
    if n == 1 {
      assert net.ab[..1] == net.ab;
      LeadsNowhere(links, net);
    } else {
      assert Without(net.ab, n - 1) == net.ab[..n - 1] && net.ab[..n - 1][..1] == net.ab[..1];
      assert net.ba + Emits(links.envB, net.b, Lose(n - 1)) == net.ba;
      LeadsStep(links, net, Step(false, Lose(n - 1)));
      LoseBehindAtB(links, net.(ab := net.ab[..n - 1]));
      LeadsTrans(links, net, net.(ab := net.ab[..n - 1]), net.(ab := net.ab[..1]));
    }
  }

  lemma {:induction false} LoseBehindAtA(links: Links, net: Net)
    requires LinksOk(links) && NetOk(links, net) && net.ba != []
    ensures var to := net.(ba := net.ba[..1]);
            NetOk(links, to) && Leads(links, net, to)
    decreases |net.ba|
  {
    hide Leads;
    var n := |net.ba|;
    if n == 1 {
      assert net.ba[..1] == net.ba;
      LeadsNowhere(links, net);
    } else {
      assert Without(net.ba, n - 1) == net.ba[..n - 1] && net.ba[..n - 1][..1] == net.ba[..1];
      assert net.ab + Emits(links.envA, net.a, Lose(n - 1)) == net.ab;
      LeadsStep(links, net, Step(true, Lose(n - 1)));
      LoseBehindAtA(links, net.(ba := net.ba[..n - 1]));
      LeadsTrans(links, net, net.(ba := net.ba[..n - 1]), net.(ba := net.ba[..1]));
    }
  }

  /** Of all that travels to `B`, only the packet at `i` arrives. */
  lemma KeepOneForB(links: Links, net: Net, i: nat)
    requires LinksOk(links) && NetOk(links, net) && i < |net.ab|
    ensures var to := net.(ab := [net.ab[i]]);
            NetOk(links, to) && Leads(links, net, to)
  {
    hide Leads, NetOk;
    var mid := net.(ab := net.ab[i..]);
    LoseAheadOfB(links, net, i);
    LoseBehindAtB(links, mid);
    assert mid.ab[..1] == [net.ab[i]];
    LeadsTrans(links, net, mid, net.(ab := [net.ab[i]]));
  }

  lemma KeepOneForA(links: Links, net: Net, i: nat)
    requires LinksOk(links) && NetOk(links, net) && i < |net.ba|
    ensures var to := net.(ba := [net.ba[i]]);
            NetOk(links, to) && Leads(links, net, to)
  {
    hide Leads, NetOk;
    var mid := net.(ba := net.ba[i..]);
    LoseAheadOfA(links, net, i);
    LoseBehindAtA(links, mid);
    assert mid.ba[..1] == [net.ba[i]];
    LeadsTrans(links, net, mid, net.(ba := [net.ba[i]]));
  }

  // ----------------------------------------------------------------------------------------
  // The stages of the run

  /** `A` has just marked another RESET; `B` has answered an earlier one. */
  ghost predicate Retrying(links: Links, net: Net)
    requires LinksOk(links)
  {
    && NetOk(links, net) && Announcing(net.a)
    && Attr(net.a.e.packetCodeToSend) == ATTR_RESET && !net.a.e.linkBusy
    && Responding(net.b) && Answers(links.envB.txMtu, net.b, [])
  }

  /** Its answer is on the way. */
  ghost predicate Answered(links: Links, net: Net)
    requires LinksOk(links)
  {
    Retrying(links, net) && |net.ba| == 1 && IsResetAck(net.ba[0]) && AnswerFlight(net.ba[0])
  }

  /** `B` acts other than by taking a packet. */
  lemma BActs(links: Links, net: Net, action: Action) returns (to: Net)
    requires LinksOk(links) && Retrying(links, net)
    requires Enabled(net.b, net.ab, action) && !action.Deliver? && !action.Lose? && !action.RetryReset?
    ensures Retrying(links, to) && Leads(links, net, to)
    ensures to.a == net.a && to.ab == net.ab && to.ba == net.ba + Emits(links.envB, net.b, action)
    ensures to.b == LocalStep(links.envB, Local(net.b, net.ab, net.ba), action).me && to.b.acked == net.b.acked
    ensures Answers(links.envB.txMtu, to.b, Emits(links.envB, net.b, action))
  {
    hide Leads, NetOk, Announcing, Answers, Responding, Emits, Enabled;
    var step := Step(false, action);
    assert StepEnabled(links, net, step);
    LeadsStep(links, net, step);
    to := Next(links, net, step);
    var l := Local(net.b, net.ab, net.ba);
    NetOkParts(links, net);
    LinkChanges(links.envB, l, action);
    AnswersOther(links.envB, l, [], action);
    var out := Emits(links.envB, net.b, action);
    assert [] + out == out;
    if out != [] {
      AnswersWithout(links.envB.txMtu, to.b, out, 0);
      assert Without(out, 0) == [];
    }
  }

  lemma NetOkParts(links: Links, net: Net)
    requires LinksOk(links) && NetOk(links, net)
    ensures SideOk(net.a) && SideOk(net.b) && Fits(links.envB, net.ab) && Fits(links.envA, net.ba)
  {
  }

  /** `B` still marks its packets: it sends one. */
  lemma BAnswers(links: Links, net: Net) returns (to: Net)
    requires LinksOk(links) && Retrying(links, net) && net.ba == []
    requires Attr(net.b.e.packetCodeToSend) == ATTR_RESET_ACK
    ensures Answered(links, to) && Leads(links, net, to)
    ensures to.ab == net.ab && to.b.acked == net.b.acked
    ensures net.b.e.txAttempts <= MAX_RETX ==> to.b.e.txAttempts <= MAX_RETX
  {
    hide Leads, Announcing, Answers, Responding;
    var mid := BActs(links, net, SendDone);
    to := BActs(links, mid, Work(false));
    var out := Emits(links.envB, mid.b, Work(false));
    AnswerFlights(links.envB.txMtu, to.b, out);
    assert to.ba == out;
    LeadsTrans(links, net, mid, to);
  }

  lemma AnswerFlights(mtu: nat, s: Side, ch: seq<Flight>)
    requires 0 < mtu && Answers(mtu, s, ch)
    ensures forall i :: 0 <= i < |ch| ==> AnswerFlight(ch[i])
    ensures s.acked != 0 && s.e.txQueue != [] ==> Attr(s.e.packetCodeToSend) == ATTR_NONE
    ensures s.e.receivedAckSeq == s.acked % 0x100 && s.acked <= 1
  {
  }

  /** `B` takes an unmarked packet of the reset for the ACK of its configuration. */
  lemma BIsMisled(links: Links, net: Net) returns (to: Net)
    requires LinksOk(links) && Answered(links, net) && net.b.acked == 0
    requires |net.ab| == 1 && Misleading(net.ab[0])
    ensures Answered(links, to) && Leads(links, net, to)
    ensures to.ab == [] && to.b.acked == 1 && to.b.e.txAttempts <= MAX_RETX
  {
    hide Leads, Announcing, Answers, Responding, RxBytes, Frame, Receive;
    var step := Step(false, Deliver([]));
    var f := net.ab[0];
    LeadsStep(links, net, step);
    to := Next(links, net, step);
    DeliverIsReceive(links.envB, Local(net.b, net.ab, net.ba), []);
    assert to.b == AfterPacket(net.b, f.p, Receive(links.envB, net.b.e, f.p));
    AnswersPlain(links.envB, net.b, [], f);
    AnswerFlights(links.envB.txMtu, net.b, []);
    RespondingState(net.b);
    ReceivePlain(links.envB, net.b.e, f.p);
  }

  lemma RespondingState(s: Side)
    requires Responding(s)
    ensures s.e.resetState == NotResetting && s.e.expectedSeq == 1 && s.accepted == 1
  {
    assert ReceiverOf(s).expected == 1 && ReceiverOf(s).accepted == 1;
  }

  /** `B` goes on to its next fragment. */
  lemma BGoesOn(links: Links, net: Net) returns (to: Net)
    requires LinksOk(links) && Answered(links, net) && net.ab == [] && net.b.acked == 1
    requires net.b.e.txAttempts <= MAX_RETX
    ensures Retrying(links, to) && Leads(links, net, to)
    ensures to.ab == [] && |to.ba| == 2 && to.ba[0] == net.ba[0] && IsNext(to.ba[1])
  {
    hide Leads, Announcing, Answers, Responding;
    RespondingState(net.b);
    var n1 := net;
    LeadsNowhere(links, net);
    if net.b.e.txQueue == [] {
      n1 := BActs(links, net, Enqueue([0]));
    }
    assert n1.b.e.txQueue != [] && n1.ba == net.ba;
    var n2 := BActs(links, n1, SendDone);
    to := BActs(links, n2, Work(true));
    AnswerFlights(links.envB.txMtu, n2.b, []);
    var out := Emits(links.envB, n2.b, Work(true));
    assert n2.b.e.txQueue[0][n2.b.e.ackedLocInDatagram..] != [];
    assert |out| == 1 && IsNext(out[0]);
    LeadsThree(links, net, n1, n2, to);
  }

  /** The second fragment, as a receiver that has only the first expects it. */
  predicate IsNext(f: Flight) {
    Attr(f.p.packetCode) == ATTR_NONE && f.p.payload != [] && f.p.seqNo == 1
  }

  /** The second RESET reaches `B`. */
  lemma BStartsOver(links: Links, net: Net) returns (to: Net)
    requires LinksOk(links) && Retrying(links, net) && net.ab == []
    ensures NetOk(links, to) && Leads(links, net, to)
    ensures Announcing(to.a) && to.b.acked == 0 && to.ba == net.ba
  {
    hide Leads, Answers, Responding, RxBytes, Frame, Receive;
    var send, take := Step(true, Work(true)), Step(false, Deliver([]));
    LeadsStep(links, net, send);
    var mid := Next(links, net, send);
    var l := Local(net.a, net.ba, net.ab);
    AnnouncingStep(links.envA, l, Work(true));
    var out := Emits(links.envA, net.a, Work(true));
    assert |out| == 1 && mid.ab == [] + out == [out[0]] && mid.b == net.b && mid.ba == net.ba;
    AnnouncingEmits(links.envA, net.a, Work(true), out[0]);
    LeadsStep(links, mid, take);
    to := Next(links, mid, take);
    ResetArrives(links.envB, Local(mid.b, mid.ab, mid.ba), []);
    LeadsTrans(links, net, mid, to);
  }

  /** `A` takes the answer to the first RESET, and what `B` sent after it. */
  lemma ATakesBoth(links: Links, net: Net) returns (to: Net)
    requires LinksOk(links) && NetOk(links, net) && Announcing(net.a) && |net.ba| == 2
    requires IsResetAck(net.ba[0]) && AnswerFlight(net.ba[0]) && IsNext(net.ba[1])
    ensures NetOk(links, to) && Leads(links, net, to)
    ensures to.a.e.resetState == NotResetting && to.a.accepted == 2 && to.b == net.b
  {
    hide Leads, Announcing, AnswerFlight, RxBytes, Frame, Receive;
    var step := Step(true, Deliver([]));
    LeadsStep(links, net, step);
    var mid := Next(links, net, step);
    ResetAckArrives(links.envA, Local(net.a, net.ba, net.ab), []);
    assert mid.ba == [net.ba[1]] && mid.b == net.b;
    LeadsStep(links, mid, step);
    to := Next(links, mid, step);
    DeliverIsReceive(links.envA, Local(mid.a, mid.ba, mid.ab), []);
    PlainIsAckAndAccept(links.envA, mid.a, mid.ba[0]);
    ReceivePlain(links.envA, mid.a.e, mid.ba[0].p);
    assert to.a.accepted == ReceiverOf(to.a).accepted;
    LeadsTrans(links, net, mid, to);
  }

  /** From there the two ends part: `A` has one more fragment than `B` knows it has sent. */
  lemma EndsDisagree(links: Links, net: Net) returns (to: Net)
    requires LinksOk(links) && Answered(links, net)
    requires (net.b.acked == 1 && net.ab == [] && net.b.e.txAttempts <= MAX_RETX)
          || (net.b.acked == 0 && |net.ab| == 1 && Misleading(net.ab[0]))
    ensures Leads(links, net, to) && to.a.e.resetState == NotResetting && !Delivers(to)
  {
    hide Leads, Announcing, Answers, Responding, Misleading, NetOk;
    var n1 := net;
    LeadsNowhere(links, net);
    if net.b.acked == 0 {
      n1 := BIsMisled(links, net);
    }
    var n2 := BGoesOn(links, n1);
    var n3 := BStartsOver(links, n2);
    to := ATakesBoth(links, n3);
    LeadsThree(links, net, n1, n2, n3);
    LeadsTrans(links, net, n3, to);
  }

  // ----------------------------------------------------------------------------------------
  // When a retry is safe

  /** A retry touches only `A`, and marks its packets again. */
  lemma AfterRetry(links: Links, net: Net)
    requires LinksOk(links) && NetOk(links, net) && Announcing(net.a)
    requires net.a.e.resetCount + 1 < MAX_RESET
    ensures StepEnabled(links, net, Step(true, RetryReset))
    ensures var next := Next(links, net, Step(true, RetryReset));
            && NetOk(links, next) && next == net.(a := next.a) && Announcing(next.a)
            && Attr(next.a.e.packetCodeToSend) == ATTR_RESET && !next.a.e.linkBusy
  {
    var step := Step(true, RetryReset);
    assert StepEnabled(links, net, step);
    NextOk(links, net, step);
    AnnouncingStep(links.envA, Local(net.a, net.ba, net.ab), RetryReset);
  }

  /** A RESET ahead of a misleading packet: `B` answers it and is misled. */
  lemma BResetsAndIsMisled(links: Links, net: Net) returns (to: Net)
    requires LinksOk(links) && NetOk(links, net) && Announcing(net.a)
    requires Attr(net.a.e.packetCodeToSend) == ATTR_RESET && !net.a.e.linkBusy
    requires OldThenPreliminary(net.ab) && MisleadsAfterReset(net.ab)
    ensures Leads(links, net, to) && to.a.e.resetState == NotResetting && !Delivers(to)
  {
    hide Leads, Announcing, Answers, RxBytes, Frame, Receive, Delivers;
    var i, j :| 0 <= i < j < |net.ab| && IsReset(net.ab[i]) && Misleading(net.ab[j]);
    var n1 := net.(ab := net.ab[i..]);
    LoseAheadOfB(links, net, i);
    var step := Step(false, Deliver([]));
    LeadsStep(links, n1, step);
    var n2 := Next(links, n1, step);
    ResetArrives(links.envB, Local(n1.b, n1.ab, n1.ba), []);
    AnswersFresh(links.envB.txMtu, n2.b);
    assert n2.ab == net.ab[i + 1..] && n2.a == net.a;
    LeadsTrans(links, net, n1, n2);
    var n3 := n2.(ba := n2.ba[|n2.ba|..]);
    LoseAheadOfA(links, n2, |n2.ba|);
    var n4 := n3.(ab := [net.ab[j]]);
    KeepOneForB(links, n3, j - i - 1);
    LeadsThree(links, net, n2, n3, n4);
    var n5 := BAnswers(links, n4);
    to := EndsDisagree(links, n5);
    LeadsThree(links, net, n4, n5, to);
  }

  lemma AnswersFresh(mtu: nat, s: Side)
    requires |CONFIG| <= mtu && SenderOf(s) == FRESH_SENDER && s.accepted == 1 && s.e.packetCodeToSend == ATTR_RESET_ACK
    ensures Answers(mtu, s, [])
  {
    FreshFlow(mtu);
    assert s.acked == SenderOf(s).acked;
  }

  /** `B` has answered and is or will be misled. */
  lemma BIsAhead(links: Links, net: Net) returns (to: Net)
    requires LinksOk(links) && Retrying(links, net)
    requires net.b.acked == 0 || net.b.e.txAttempts <= MAX_RETX
    requires forall i :: 0 <= i < |net.ba| && IsResetAck(net.ba[i]) ==> AnswerFlight(net.ba[i])
    requires HasResetAck(net.ba) || Attr(net.b.e.packetCodeToSend) == ATTR_RESET_ACK
    requires Misled(net)
    ensures Leads(links, net, to) && to.a.e.resetState == NotResetting && !Delivers(to)
  {
    hide Leads, Announcing, Answers, Responding, Misleading, AnswerFlight, Delivers;
    AnswerFlights(links.envB.txMtu, net.b, []);
    var n1: Net;
    if net.b.acked == 1 {
      n1 := net.(ab := net.ab[|net.ab|..]);
      LoseAheadOfB(links, net, |net.ab|);
    } else {
      var j :| 0 <= j < |net.ab| && Misleading(net.ab[j]);
      n1 := net.(ab := [net.ab[j]]);
      KeepOneForB(links, net, j);
    }
    var n2: Net;
    if HasResetAck(net.ba) {
      var i :| 0 <= i < |net.ba| && IsResetAck(net.ba[i]);
      n2 := n1.(ba := [net.ba[i]]);
      KeepOneForA(links, n1, i);
    } else {
      var mid := n1.(ba := n1.ba[|n1.ba|..]);
      LoseAheadOfA(links, n1, |n1.ba|);
      n2 := BAnswers(links, mid);
      LeadsTrans(links, n1, mid, n2);
    }
    to := EndsDisagree(links, n2);
    LeadsThree(links, net, n1, n2, to);
  }

  /** `B` has been misled and has tried too often since: it is about to start a reset itself. */
  predicate Exhausted(net: Net) {
    !MisleadsAfterReset(net.ab) && net.b.acked != 0 && net.b.e.txAttempts > MAX_RETX
  }

  /** What `B` then does next, unless an ACK comes first: the retransmission that is due starts its own reset. */
  lemma ExhaustedResets(links: Links, net: Net)
    requires LinksOk(links) && Inv(links, net) && Announcing(net.a) && Risky(links, net) && Exhausted(net)
    requires net.b.e.txQueue != [] && !net.b.e.linkBusy
    ensures NetOk(links, net) && GivesUpResending(net.b.e, true)
    ensures var (e, packet) := DoWork(links.envB, net.b.e, true);
            && packet.None? && e.resetState == Resetting && e.txQueue == [CONFIG]
            && Attr(e.packetCodeToSend) == ATTR_RESET
  {
    hide Inv, DuringReset;
    InvParts(links, net);
    assert DuringReset(links, net);
    RespondsDuringReset(links, net);
    RespondingState(net.b);
  }

  lemma RespondsDuringReset(links: Links, net: Net)
    requires LinksOk(links) && DuringReset(links, net)
    ensures Responding(net.b)
  {
  }

  /** Each risky retry has a way to go wrong, unless `B` is about to give up. */
  lemma RiskyRetryFails(links: Links, net: Net) returns (to: Net)
    requires LinksOk(links) && Inv(links, net) && Announcing(net.a) && Risky(links, net)
    requires net.a.e.resetCount + 1 < MAX_RESET && !Exhausted(net)
    ensures StepEnabled(links, net, Step(true, RetryReset))
    ensures var next := Next(links, net, Step(true, RetryReset));
            NetOk(links, next) && Leads(links, next, to) && to.a.e.resetState == NotResetting && !Delivers(to)
  {
    hide Leads, NetOk, Answers, Responding, LocalStep, Delivers, Synced;
    AfterRetry(links, net);
    var next := Next(links, net, Step(true, RetryReset));
    if MisleadsAfterReset(net.ab) {
      PreliminaryBehindReset(links, net);
      to := BResetsAndIsMisled(links, next);
    } else {
      forall i | 0 <= i < |net.ba| && IsResetAck(net.ba[i])
        ensures AnswerFlight(net.ba[i])
      {
        assert AnswersFrom(links.envB.txMtu, net.b, net.ba, i);
        AnswerFlights(links.envB.txMtu, net.b, net.ba[i..]);
        assert net.ba[i..][0] == net.ba[i];
      }
      assert AnswersFrom(links.envB.txMtu, net.b, net.ba, |net.ba|) && net.ba[|net.ba|..] == [];
      to := BIsAhead(links, next);
    }
  }

  lemma PreliminaryBehindReset(links: Links, net: Net)
    requires LinksOk(links) && Inv(links, net) && Announcing(net.a)
    ensures OldThenPreliminary(net.ab)
  {
    hide Misleading, Preliminary, Synced, AnswersFrom;
    assert !Agreement(links, net);
  }

  /** Whatever happens, as long as no risky retry does, leaving the reset means agreeing. */
  ghost predicate KeepsDelivering(links: Links, net: Net)
    requires LinksOk(links) && NetOk(links, net)
  {
    forall steps :: RunEnabled(links, net, steps) && Careful(links, net, steps) ==>
      var r := Run(links, net, steps);
      r.a.e.resetState == NotResetting ==> Delivers(r)
  }

  /** A retry is safe exactly when it is not risky. */
  lemma RetrySafeUnlessRisky(links: Links, net: Net)
    requires LinksOk(links) && Inv(links, net) && Announcing(net.a)
    requires net.a.e.resetCount + 1 < MAX_RESET && !Exhausted(net)
    ensures StepEnabled(links, net, Step(true, RetryReset))
    ensures var next := Next(links, net, Step(true, RetryReset));
            NetOk(links, next) && (KeepsDelivering(links, next) <==> !Risky(links, net))
  {
    hide NetOk, Risky, Next, Run, RunEnabled, Careful, Delivers, Agreement, BeforeReset, DuringReset, Announcing;
    InvParts(links, net);
    AfterRetry(links, net);
    var step := Step(true, RetryReset);
    var next := Next(links, net, step);
    if Risky(links, net) {
      var to := RiskyRetryFails(links, net);
      var steps :| NoRetries(steps) && RunEnabled(links, next, steps) && Run(links, next, steps) == to;
      NoRetriesCareful(links, next, steps);
    } else {
      InvStep(links, net, step);
      forall steps | RunEnabled(links, next, steps) && Careful(links, next, steps)
                     && Run(links, next, steps).a.e.resetState == NotResetting
        ensures Delivers(Run(links, next, steps))
      {
        RunInv(links, next, steps);
        InvParts(links, Run(links, next, steps));
        AgreementDelivers(links, Run(links, next, steps));
      }
    }
  }

  /** What `A` can tell by itself: with the mark in place, or another number than 1 to acknowledge, it may retry. */
  lemma RiskyOnlyIfMisleading(links: Links, net: Net)
    requires LinksOk(links) && Inv(links, net) && Announcing(net.a) && Risky(links, net)
    ensures Misleads(net.a)
  {
    hide Misleading, Preliminary, Synced, AnswersFrom, Misleads;
    assert !Agreement(links, net);
    if MisleadsAfterReset(net.ab) {
      var i, j :| 0 <= i < j < |net.ab| && IsReset(net.ab[i]) && Misleading(net.ab[j]);
      assert HasMisleading(net.ab);
    }
  }

  /** `A` sends a RESET, loses its mark to a NACK, and sends again. */
  lemma NackMisleads(links: Links, net: Net) returns (to: Net)
    requires LinksOk(links) && Inv(links, net) && NetOk(links, net) && Announcing(net.a)
    requires Attr(net.a.e.packetCodeToSend) == ATTR_RESET && net.a.e.expectedSeq == 1
    ensures Leads(links, net, to) && Inv(links, to) && NetOk(links, to) && Announcing(to.a)
    ensures MisleadsAfterReset(to.ab) && to.a.e.resetCount == net.a.e.resetCount
  {
    hide Leads, NetOk, Inv;
    var n1 := ASendsInReset(links, net);
    var nack := Step(true, Nack(ERROR_HEADER));
    LeadsStep(links, n1, nack);
    var n2 := Next(links, n1, nack);
    InvStep(links, n1, nack);
    to := ASendsInReset(links, n2);
    LeadsTrans(links, n1, n2, to);
    LeadsTrans(links, net, n1, to);
    var k := |net.ab|;
    assert IsReset(to.ab[k]) && Misleading(to.ab[k + 1]);
  }

  lemma ASendsInReset(links: Links, net: Net) returns (to: Net)
    requires LinksOk(links) && Inv(links, net) && NetOk(links, net) && Announcing(net.a)
    ensures Leads(links, net, to) && Inv(links, to) && NetOk(links, to) && Announcing(to.a)
    ensures |to.ab| == |net.ab| + 1 && to.ab[..|net.ab|] == net.ab && Preliminary(to.ab[|net.ab|])
    ensures Attr(to.ab[|net.ab|].p.packetCode) == Attr(net.a.e.packetCodeToSend) == Attr(to.a.e.packetCodeToSend)
    ensures Misleading(to.ab[|net.ab|]) <==> Misleads(net.a)
    ensures to.a.e.expectedSeq == net.a.e.expectedSeq && to.a.e.resetCount == net.a.e.resetCount
  {
    hide Leads, Inv, RxBytes, Frame;
    var done, work := Step(true, SendDone), Step(true, Work(true));
    LeadsStep(links, net, done);
    InvStep(links, net, done);
    var mid := Next(links, net, done);
    assert mid.ab == net.ab + [] == net.ab;
    LeadsStep(links, mid, work);
    InvStep(links, mid, work);
    to := Next(links, mid, work);
    var out := Emits(links.envA, mid.a, Work(true));
    assert |out| == 1 && to.ab == net.ab + [out[0]];
    AnnouncingEmits(links.envA, mid.a, Work(true), out[0]);
    AnnouncingStep(links.envA, Local(mid.a, mid.ba, mid.ab), Work(true));
    LeadsTrans(links, net, mid, to);
  }

  /**
   * So the retry has to be watched: wherever the reset starts with the number that passes for an ACK,
   * a NACK and a retry can leave the two ends in disagreement.
   */
  lemma NackThenRetryFails(links: Links, net: Net) returns (steps: seq<Step>)
    requires LinksOk(links) && Start(links, net)
    requires net.a.e.expectedSeq == 1 && net.a.e.resetCount + 1 < MAX_RESET
    ensures RunEnabled(links, net, steps)
    ensures var r := Run(links, net, steps);
            r.a.e.resetState == NotResetting && !Delivers(r)
  {
    hide NetOk, Inv, Next, Delivers;
    StartInv(links, net);
    InvParts(links, net);
    StartAnnounces(links, net);
    var risky := NackMisleads(links, net);
    var to := RiskyRetryFails(links, risky);
    var retry := Step(true, RetryReset);
    var next := Next(links, risky, retry);
    var first :| NoRetries(first) && RunEnabled(links, net, first) && Run(links, net, first) == risky;
    var last :| NoRetries(last) && RunEnabled(links, next, last) && Run(links, next, last) == to;
    var second := [retry] + last;
    assert second[0] == retry && second[1..] == last;
    assert RunEnabled(links, risky, second) && Run(links, risky, second) == to;
    RunConcat(links, net, first, second);
    steps := first + second;
  }
}
