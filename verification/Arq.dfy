/**
 * One direction of the stop-and-wait protocol: fragments of the queued datagrams travel one way,
 * cumulative ACKs the other.  Every packet in flight remembers, as history, the fragment index the
 * sender was at (`n`) and the number of fragments the ACK stands for (`a`), neither reduced mod 256.
 */
module Arq {
  import opened Bytes
  import opened EndpointState

  // ----------------------------------------------------------------------------------------
  // Fragmentation and reassembly

  datatype Fragment = Fragment(bytes: seq<byte>, unfinished: bool)

  function Fragments(mtu: nat, datagram: seq<byte>): (r: seq<Fragment>)
    requires 0 < mtu
    ensures r != []
    decreases |datagram|
  {
    if |datagram| > mtu then [Fragment(datagram[..mtu], true)] + Fragments(mtu, datagram[mtu..])
    else [Fragment(datagram, false)]
  }

  function Stream(mtu: nat, datagrams: seq<seq<byte>>): seq<Fragment>
    requires 0 < mtu
  {
    if datagrams == [] then [] else Fragments(mtu, datagrams[0]) + Stream(mtu, datagrams[1..])
  }

  /** The fragments still to be acknowledged. */
  function Pending(mtu: nat, queue: seq<seq<byte>>, ackedLoc: nat): seq<Fragment>
    requires 0 < mtu && (queue != [] ==> ackedLoc <= |queue[0]|)
  {
    if queue == [] then []
    else Fragments(mtu, queue[0][ackedLoc..]) + Stream(mtu, queue[1..])
  }

  datatype Reassembly = Reassembly(done: seq<seq<byte>>, partial: seq<byte>)

  function Add(r: Reassembly, f: Fragment): Reassembly {
    if f.unfinished then Reassembly(r.done, r.partial + f.bytes)
    else Reassembly(r.done + [r.partial + f.bytes], [])
  }

  function Reassemble(r: Reassembly, fs: seq<Fragment>): Reassembly {
    if fs == [] then r else Add(Reassemble(r, fs[..|fs| - 1]), fs[|fs| - 1])
  }

  const NOTHING := Reassembly([], [])

  lemma {:induction false} StreamConcat(mtu: nat, ds: seq<seq<byte>>, ds': seq<seq<byte>>)
    requires 0 < mtu
    ensures Stream(mtu, ds + ds') == Stream(mtu, ds) + Stream(mtu, ds')
    decreases |ds|
  {
    if ds == [] {
      assert ds + ds' == ds';
    } else {
      StreamConcat(mtu, ds[1..], ds');
      assert (ds + ds')[1..] == ds[1..] + ds';
    }
  }

  lemma {:induction false} ReassembleConcat(r: Reassembly, fs: seq<Fragment>, gs: seq<Fragment>)
    ensures Reassemble(r, fs + gs) == Reassemble(Reassemble(r, fs), gs)
    decreases |gs|
  {
    if gs == [] {
      assert fs + gs == fs;
    } else {
      ReassembleConcat(r, fs, gs[..|gs| - 1]);
      assert (fs + gs)[..|fs + gs| - 1] == fs + gs[..|gs| - 1];
    }
  }

  lemma {:induction false} ReassembleFragments(mtu: nat, r: Reassembly, datagram: seq<byte>)
    requires 0 < mtu
    ensures Reassemble(r, Fragments(mtu, datagram))
         == Reassembly(r.done + [r.partial + datagram], [])
    decreases |datagram|
  {
    if |datagram| > mtu {
      var first := Fragment(datagram[..mtu], true);
      ReassembleConcat(r, [first], Fragments(mtu, datagram[mtu..]));
      assert [first][..0] == [];
      ReassembleFragments(mtu, Add(r, first), datagram[mtu..]);
      assert datagram[..mtu] + datagram[mtu..] == datagram;
      assert r.partial + datagram[..mtu] + datagram[mtu..] == r.partial + datagram;
    } else {
      assert [Fragment(datagram, false)][..0] == [];
    }
  }

  lemma ReassembleNext(mtu: nat, r: Reassembly, datagram: seq<byte>, rest: seq<Fragment>)
    requires 0 < mtu && r.partial == []
    ensures Reassemble(r, Fragments(mtu, datagram) + rest) == Reassemble(Reassembly(r.done + [datagram], []), rest)
  {
    hide Reassemble, Fragments;
    ReassembleConcat(r, Fragments(mtu, datagram), rest);
    ReassembleFragments(mtu, r, datagram);
    assert r.partial + datagram == datagram;
  }

  /** Reassembling everything that was fragmented gives the datagrams back, in order. */
  lemma {:induction false} ReassembleStream(mtu: nat, r: Reassembly, ds: seq<seq<byte>>)
    requires 0 < mtu && r.partial == []
    ensures Reassemble(r, Stream(mtu, ds)) == Reassembly(r.done + ds, [])
    decreases |ds|
  {
    if ds == [] {
      assert r.done + ds == r.done;
    } else {
      var next := Reassembly(r.done + [ds[0]], []);
      ReassembleNext(mtu, r, ds[0], Stream(mtu, ds[1..]));
      ReassembleStream(mtu, next, ds[1..]);
      assert next.done + ds[1..] == r.done + ds;
    }
  }

  lemma {:induction false} DoneGrows(r: Reassembly, fs: seq<Fragment>)
    ensures r.done <= Reassemble(r, fs).done
    decreases |fs|
  {
    if fs != [] { DoneGrows(r, fs[..|fs| - 1]); }
  }

  /** Any prefix of the fragments reassembles to a prefix of the datagrams. */
  lemma PrefixReassembles(mtu: nat, ds: seq<seq<byte>>, k: nat)
    requires 0 < mtu && k <= |Stream(mtu, ds)|
    ensures Reassemble(NOTHING, Stream(mtu, ds)[..k]).done <= ds
  {
    var fs := Stream(mtu, ds);
    ReassembleConcat(NOTHING, fs[..k], fs[k..]);
    assert fs[..k] + fs[k..] == fs;
    DoneGrows(Reassemble(NOTHING, fs[..k]), fs[k..]);
    ReassembleStream(mtu, NOTHING, ds);
    assert [] + ds == ds;
  }

  // ----------------------------------------------------------------------------------------
  // The two ends of one direction, and what is in flight

  /** `acked`: fragments acknowledged so far. The rest are the endpoint's own fields. */
  datatype Sender = Sender(sent: seq<seq<byte>>, acked: nat, ackByte: byte,
                           queue: seq<seq<byte>>, ackedLoc: nat)

  /** `accepted`: fragments accepted so far. */
  datatype Receiver = Receiver(accepted: nat, expected: byte, delivered: seq<seq<byte>>,
                               partial: seq<byte>)

  datatype Flight = Flight(p: Packet, n: nat, a: nat)

  predicate IsReset(f: Flight) { Attr(f.p.packetCode) == ATTR_RESET }

  predicate IsResetAck(f: Flight) { Attr(f.p.packetCode) == ATTR_RESET_ACK }

  function Flags(f: Fragment): byte { if f.unfinished then FLAG_UNFINISHED_DATAGRAM else 0 }

  /** A payload in flight is the fragment at its index, with that index mod 256. */
  predicate Carries(fs: seq<Fragment>, f: Flight) {
    f.p.payload != [] ==>
      && f.n < |fs| && f.p.payload == fs[f.n].bytes && f.p.flags == Flags(fs[f.n])
      && f.p.seqNo == f.n % 0x100
  }

  predicate SortedByIndex(ch: seq<Flight>) {
    forall i, j :: 0 <= i < j < |ch| ==> ch[i].n <= ch[j].n
  }

  predicate SortedByAck(ch: seq<Flight>) {
    forall i, j :: 0 <= i < j < |ch| ==> ch[i].a <= ch[j].a
  }

  predicate SenderOk(mtu: nat, tx: Sender)
    requires 0 < mtu
  {
    && tx.ackByte == tx.acked % 0x100
    && tx.sent != [] && tx.sent[0] == CONFIG
    && (tx.queue != [] ==> tx.ackedLoc <= |tx.queue[0]|)
    && (tx.queue == [] ==> tx.ackedLoc == 0)
    && tx.acked <= |Stream(mtu, tx.sent)|
    && Pending(mtu, tx.queue, tx.ackedLoc) == Stream(mtu, tx.sent)[tx.acked..]
  }

  predicate ReceiverOk(fs: seq<Fragment>, rx: Receiver) {
    && 1 <= rx.accepted <= |fs|
    && rx.expected == rx.accepted % 0x100
    && Reassemble(NOTHING, fs[..rx.accepted]) == Reassembly([CONFIG] + rx.delivered, rx.partial)
  }

  predicate DataOk(fs: seq<Fragment>, acked: nat, accepted: nat, ch: seq<Flight>) {
    && SortedByIndex(ch)
    && forall i :: 0 <= i < |ch| ==> accepted - 1 <= ch[i].n <= acked && Carries(fs, ch[i])
  }

  /** Sent before anything was accepted: the number it carries means nothing, and it is not the first to count. */
  predicate Blank(f: Flight) { f.a == 0 && f.p.ackSeq != 1 }

  predicate AcksOk(acked: nat, accepted: nat, back: seq<Flight>) {
    && SortedByAck(back)
    && forall i :: 0 <= i < |back| ==>
         && acked <= back[i].a <= accepted
         && (IsReset(back[i]) || Blank(back[i]) || back[i].p.ackSeq == back[i].a % 0x100)
  }

  /** The agreement between a sender, its receiver and the packets between them. */
  predicate Flow(mtu: nat, tx: Sender, rx: Receiver, ch: seq<Flight>, back: seq<Flight>)
    requires 0 < mtu
  {
    && SenderOk(mtu, tx)
    && ReceiverOk(Stream(mtu, tx.sent), rx)
    && tx.acked <= rx.accepted <= tx.acked + 1
    && DataOk(Stream(mtu, tx.sent), tx.acked, rx.accepted, ch)
    && AcksOk(tx.acked, rx.accepted, back)
  }

  // ----------------------------------------------------------------------------------------
  // What the endpoints do, seen from one direction

  /** Effect of a received ACK on the sender. */
  function Acknowledge(mtu: nat, tx: Sender, ackSeq: byte): Sender
  {
    if ackSeq != Successor(tx.ackByte) then tx
    else if tx.queue == [] || tx.ackedLoc + mtu >= |tx.queue[0]| then
      tx.(acked := tx.acked + 1, ackByte := ackSeq, ackedLoc := 0,
          queue := if tx.queue == [] then [] else tx.queue[1..])
    else tx.(acked := tx.acked + 1, ackByte := ackSeq, ackedLoc := tx.ackedLoc + mtu)
  }

  /** Effect of a received payload on the receiver. */
  function Accept(rx: Receiver, p: Packet): Receiver
  {
    if p.payload == [] || p.seqNo != rx.expected then rx
    else
      var r := Add(Reassembly(rx.delivered, rx.partial), Fragment(p.payload, p.flags % 2 == 1));
      Receiver(rx.accepted + 1, Successor(rx.expected), r.done, r.partial)
  }

  // ----------------------------------------------------------------------------------------
  // Preservation

  lemma FirstPending(mtu: nat, queue: seq<seq<byte>>, ackedLoc: nat)
    requires 0 < mtu && queue != [] && ackedLoc <= |queue[0]|
    ensures var rest := queue[0][ackedLoc..];
            (Pending(mtu, queue, ackedLoc)[0]
             == if |rest| > mtu then Fragment(rest[..mtu], true) else Fragment(rest, false))
  {
  }

  /** One more acknowledged fragment drops exactly the first pending one. */
  lemma AcknowledgeDropsOne(mtu: nat, tx: Sender)
    requires 0 < mtu && tx.queue != [] && tx.ackedLoc <= |tx.queue[0]|
    ensures var tx' := Acknowledge(mtu, tx, Successor(tx.ackByte));
            && (tx'.queue != [] ==> tx'.ackedLoc <= |tx'.queue[0]|)
            && Pending(mtu, tx'.queue, tx'.ackedLoc) == Pending(mtu, tx.queue, tx.ackedLoc)[1..]
  {
    var rest := tx.queue[0][tx.ackedLoc..];
    if tx.ackedLoc + mtu >= |tx.queue[0]| {
      assert Fragments(mtu, rest) == [Fragment(rest, false)];
      if |tx.queue| > 1 {
        assert tx.queue[1..][0][0..] == tx.queue[1..][0];
      }
    } else {
      assert rest[mtu..] == tx.queue[0][tx.ackedLoc + mtu..];
    }
  }

  lemma FlowAck(mtu: nat, tx: Sender, rx: Receiver, ch: seq<Flight>, back: seq<Flight>)
    requires 0 < mtu && Flow(mtu, tx, rx, ch, back)
    requires back != [] && !IsReset(back[0])
    ensures Flow(mtu, Acknowledge(mtu, tx, back[0].p.ackSeq), rx, ch, back[1..])
    ensures back[0].p.ackSeq == Successor(tx.ackByte) ==> tx.queue != []
  {
    hide Stream, Reassemble, Pending, SenderOk, ReceiverOk, Carries;
    var g := back[0];
    AckByte(mtu, tx);
    ReceiverBounded(Stream(mtu, tx.sent), rx);
    if g.p.ackSeq == Successor(tx.ackByte) {
      assert !Blank(g);
      assert g.a == tx.acked + 1;
      SenderAcknowledges(mtu, tx);
    }
  }

  lemma AckByte(mtu: nat, tx: Sender)
    requires 0 < mtu && SenderOk(mtu, tx)
    ensures tx.ackByte == tx.acked % 0x100
  {}

  lemma ReceiverBounded(fs: seq<Fragment>, rx: Receiver)
    requires ReceiverOk(fs, rx)
    ensures rx.accepted <= |fs|
  {}

  lemma SenderAcknowledges(mtu: nat, tx: Sender)
    requires 0 < mtu && SenderOk(mtu, tx) && tx.acked < |Stream(mtu, tx.sent)|
    ensures tx.queue != [] && SenderOk(mtu, Acknowledge(mtu, tx, Successor(tx.ackByte)))
  {
    hide Stream;
    var fs := Stream(mtu, tx.sent);
    assert fs[tx.acked..] != [];
    assert tx.queue != [];
    AcknowledgeDropsOne(mtu, tx);
    assert fs[tx.acked..][1..] == fs[tx.acked + 1..];
  }

  lemma ReassembleStep(fs: seq<Fragment>, k: nat)
    requires k < |fs|
    ensures Reassemble(NOTHING, fs[..k + 1]) == Add(Reassemble(NOTHING, fs[..k]), fs[k])
  {
    assert fs[..k + 1][..k] == fs[..k];
  }

  lemma ReceiverAccepts(fs: seq<Fragment>, rx: Receiver, f: Flight)
    requires ReceiverOk(fs, rx) && Carries(fs, f)
    requires f.p.payload != [] && f.n == rx.accepted
    ensures ReceiverOk(fs, Accept(rx, f.p))
  {
    ReassembleStep(fs, rx.accepted);
    var r := Add(Reassembly(rx.delivered, rx.partial), fs[f.n]);
    assert Add(Reassembly([CONFIG] + rx.delivered, rx.partial), fs[f.n]).done == [CONFIG] + r.done;
  }

  lemma FlowDeliver(mtu: nat, tx: Sender, rx: Receiver, ch: seq<Flight>, back: seq<Flight>)
    requires 0 < mtu && Flow(mtu, tx, rx, ch, back)
    requires ch != []
    ensures Flow(mtu, tx, Accept(rx, ch[0].p), ch[1..], back)
  {
    hide Stream, Reassemble, SenderOk;
    var f := ch[0];
    if f.p.payload != [] && f.p.seqNo == rx.expected {
      assert f.n == rx.accepted;
      ReceiverAccepts(Stream(mtu, tx.sent), rx, f);
    }
  }

  function Without(ch: seq<Flight>, i: nat): (r: seq<Flight>)
    requires i < |ch|
    ensures |r| == |ch| - 1
    ensures forall k :: 0 <= k < |r| ==> r[k] == (if k < i then ch[k] else ch[k + 1])
  {
    ch[..i] + ch[i + 1..]
  }

  lemma FlowLoseData(mtu: nat, tx: Sender, rx: Receiver, ch: seq<Flight>, back: seq<Flight>, i: nat)
    requires 0 < mtu && Flow(mtu, tx, rx, ch, back) && i < |ch|
    ensures Flow(mtu, tx, rx, Without(ch, i), back)
  {
  }

  lemma FlowLoseAck(mtu: nat, tx: Sender, rx: Receiver, ch: seq<Flight>, back: seq<Flight>, i: nat)
    requires 0 < mtu && Flow(mtu, tx, rx, ch, back) && i < |back|
    ensures Flow(mtu, tx, rx, ch, Without(back, i))
  {
  }

  lemma FlowSendData(mtu: nat, tx: Sender, rx: Receiver, ch: seq<Flight>, back: seq<Flight>, f: Flight)
    requires 0 < mtu && Flow(mtu, tx, rx, ch, back)
    requires f.n == tx.acked && Carries(Stream(mtu, tx.sent), f)
    ensures Flow(mtu, tx, rx, ch + [f], back)
  {
  }

  lemma FlowSendAck(mtu: nat, tx: Sender, rx: Receiver, ch: seq<Flight>, back: seq<Flight>, g: Flight)
    requires 0 < mtu && Flow(mtu, tx, rx, ch, back)
    requires g.a == rx.accepted && g.p.ackSeq == rx.expected
    ensures Flow(mtu, tx, rx, ch, back + [g])
  {
  }

  lemma PendingAppend(mtu: nat, queue: seq<seq<byte>>, ackedLoc: nat, d: seq<byte>)
    requires 0 < mtu
    requires if queue == [] then ackedLoc == 0 else ackedLoc <= |queue[0]|
    ensures Pending(mtu, queue + [d], ackedLoc) == Pending(mtu, queue, ackedLoc) + Stream(mtu, [d])
  {
    if queue == [] {
      assert d[0..] == d;
      assert queue + [d] == [d];
    } else {
      StreamConcat(mtu, queue[1..], [d]);
      assert (queue + [d])[1..] == queue[1..] + [d];
    }
  }

  lemma SenderEnqueues(mtu: nat, tx: Sender, d: seq<byte>)
    requires 0 < mtu && SenderOk(mtu, tx)
    ensures SenderOk(mtu, tx.(sent := tx.sent + [d], queue := tx.queue + [d]))
    ensures Stream(mtu, tx.sent) <= Stream(mtu, tx.sent + [d])
  {
    hide Stream, Pending;
    var fs, more := Stream(mtu, tx.sent), Stream(mtu, [d]);
    StreamConcat(mtu, tx.sent, [d]);
    PendingAppend(mtu, tx.queue, tx.ackedLoc, d);
    assert (fs + more)[tx.acked..] == fs[tx.acked..] + more;
  }

  lemma FlowEnqueue(mtu: nat, tx: Sender, rx: Receiver, ch: seq<Flight>, back: seq<Flight>, d: seq<byte>)
    requires 0 < mtu && Flow(mtu, tx, rx, ch, back)
    ensures Flow(mtu, tx.(sent := tx.sent + [d], queue := tx.queue + [d]), rx, ch, back)
  {
    hide Stream, Reassemble, SenderOk;
    SenderEnqueues(mtu, tx, d);
    assert Stream(mtu, tx.sent + [d])[..rx.accepted] == Stream(mtu, tx.sent)[..rx.accepted];
  }

  // ----------------------------------------------------------------------------------------
  // Restart: the first fragment of every stream is the reset configuration

  const FRESH_SENDER := Sender([CONFIG], 0, 0, [CONFIG], 0)

  const FRESH_RECEIVER := Receiver(1, 1, [], [])

  lemma ConfigFirst(mtu: nat, ds: seq<seq<byte>>)
    requires |CONFIG| <= mtu && ds != [] && ds[0] == CONFIG
    ensures |Stream(mtu, ds)| >= 1 && Stream(mtu, ds)[0] == Fragment(CONFIG, false)
    ensures Reassemble(NOTHING, Stream(mtu, ds)[..1]) == Reassembly([CONFIG], [])
  {
    var fs := Stream(mtu, ds);
    assert fs[..1] == [fs[0]];
    assert [fs[0]][..0] == [];
    assert [] + CONFIG == CONFIG;
  }

  lemma FreshSenderOk(mtu: nat)
    requires |CONFIG| <= mtu
    ensures SenderOk(mtu, FRESH_SENDER)
    ensures Stream(mtu, [CONFIG]) == [Fragment(CONFIG, false)]
  {
    assert CONFIG[0..] == CONFIG;
    assert [CONFIG][1..] == [];
  }

  /** The receiver forgets everything but the first fragment, which was all it had. */
  lemma FlowRestartReceiver(mtu: nat, tx: Sender, rx: Receiver, ch: seq<Flight>, back: seq<Flight>)
    requires |CONFIG| <= mtu && Flow(mtu, tx, rx, ch, back)
    requires rx.accepted == 1
    ensures Flow(mtu, tx, FRESH_RECEIVER, ch, back)
  {
    ConfigFirst(mtu, tx.sent);
  }

  /** The sender starts over with a new queue while its first fragment is still unacknowledged. */
  lemma FlowRestartSender(mtu: nat, tx: Sender, rx: Receiver, ch: seq<Flight>, back: seq<Flight>)
    requires |CONFIG| <= mtu && Flow(mtu, tx, rx, ch, back)
    requires tx.acked == 0
    ensures Flow(mtu, FRESH_SENDER, rx, ch, back)
  {
    ConfigFirst(mtu, tx.sent);
    FreshSenderOk(mtu);
    var fs, fs' := Stream(mtu, tx.sent), Stream(mtu, [CONFIG]);
    assert fs[..1] == fs'[..1];
    assert forall i :: 0 <= i < |ch| ==> ch[i].n == 0;
  }

  // ----------------------------------------------------------------------------------------
  // What agreement means

  /** The app layer has been handed a prefix of what the peer's app layer queued. */
  lemma FlowDeliversPrefix(mtu: nat, tx: Sender, rx: Receiver, ch: seq<Flight>, back: seq<Flight>)
    requires 0 < mtu && Flow(mtu, tx, rx, ch, back)
    ensures rx.delivered <= tx.sent[1..]
  {
    PrefixReassembles(mtu, tx.sent, rx.accepted);
    assert ([CONFIG] + rx.delivered)[1..] == rx.delivered;
  }

  /** Once everything is acknowledged, everything has been delivered. */
  lemma FlowCompletes(mtu: nat, tx: Sender, rx: Receiver, ch: seq<Flight>, back: seq<Flight>)
    requires 0 < mtu && Flow(mtu, tx, rx, ch, back)
    requires tx.queue == []
    ensures rx.delivered == tx.sent[1..] && rx.partial == []
  {
    var fs := Stream(mtu, tx.sent);
    assert |fs[tx.acked..]| == 0;
    assert fs[..rx.accepted] == fs;
    ReassembleStream(mtu, NOTHING, tx.sent);
    assert [] + tx.sent == tx.sent;
    assert ([CONFIG] + rx.delivered)[1..] == rx.delivered;
  }
}
