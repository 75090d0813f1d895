/** From bytes to packets: bulk copying, chunking, resynchronisation and the frame round trip. */
module Framing {
  import opened Bytes
  import opened EndpointState
  import Crc

  // ----------------------------------------------------------------------------------------
  // How a stream is cut into chunks does not matter

  lemma {:induction false} RxConcat(env: Env, e: Endpoint, s: seq<byte>, t: seq<byte>)
    requires env.Valid() && RxReady(e)
    ensures RxBytes(env, e, s + t) == RxBytes(env, RxBytes(env, e, s), t)
    decreases |s|
  {
    hide RxByte;
    if s == [] {
      assert s + t == t;
    } else {
      RxConcat(env, RxByte(env, e, s[0]), s[1..], t);
      assert (s + t)[1..] == s[1..] + t;
    }
  }

  function Flatten(chunks: seq<seq<byte>>): seq<byte> {
    if chunks == [] then [] else chunks[0] + Flatten(chunks[1..])
  }

  function RxChunks(env: Env, e: Endpoint, chunks: seq<seq<byte>>): Endpoint
    requires env.Valid() && RxReady(e)
    decreases |chunks|
  {
    if chunks == [] then e else RxChunks(env, RxBytes(env, e, chunks[0]), chunks[1..])
  }

  lemma {:induction false} ChunksConcatenate(env: Env, e: Endpoint, chunks: seq<seq<byte>>)
    requires env.Valid() && RxReady(e)
    ensures RxChunks(env, e, chunks) == RxBytes(env, e, Flatten(chunks))
    decreases |chunks|
  {
    if chunks != [] {
      ChunksConcatenate(env, RxBytes(env, e, chunks[0]), chunks[1..]);
      RxConcat(env, e, chunks[0], Flatten(chunks[1..]));
    }
  }

  /** Two deliveries of the same byte stream, cut anywhere, leave the same state and deliveries. */
  lemma ChunkingIrrelevant(env: Env, e: Endpoint, chunks: seq<seq<byte>>, chunks': seq<seq<byte>>)
    requires env.Valid() && RxReady(e)
    requires Flatten(chunks) == Flatten(chunks')
    ensures RxChunks(env, e, chunks) == RxChunks(env, e, chunks')
  {
    ChunksConcatenate(env, e, chunks);
    ChunksConcatenate(env, e, chunks');
  }

  // ----------------------------------------------------------------------------------------
  // Copying a block equals consuming it byte by byte

  function Splice(a: seq<byte>, loc: nat, s: seq<byte>): (r: seq<byte>)
    requires loc + |s| <= |a|
    ensures |r| == |a|
  {
    a[..loc] + s + a[loc + |s|..]
  }

  lemma SpliceStep(a: seq<byte>, loc: nat, s: seq<byte>)
    requires s != [] && loc + |s| <= |a|
    ensures Splice(a[loc := s[0]], loc + 1, s[1..]) == Splice(a, loc, s)
  {
    assert a[loc := s[0]][loc + |s|..] == a[loc + |s|..];
    assert a[loc := s[0]][..loc + 1] == a[..loc] + [s[0]];
    assert [s[0]] + s[1..] == s;
  }

  lemma SpliceNothing(a: seq<byte>, loc: nat)
    requires loc <= |a|
    ensures Splice(a, loc, []) == a
  {
  }

  function HeaderCopied(env: Env, e: Endpoint, s: seq<byte>): Endpoint
    requires env.Valid() && RxReady(e) && e.rxState == Header && e.locInState + |s| <= HEADER_LEN
  {
    var e1 := e.(rxHeader := Splice(e.rxHeader, e.locInState, s), locInState := e.locInState + |s|);
    if e1.locInState == HEADER_LEN then HeaderDone(env, e1) else e1
  }

  lemma {:induction false} HeaderBulk(env: Env, e: Endpoint, s: seq<byte>)
    requires env.Valid() && RxReady(e) && e.rxState == Header && e.locInState + |s| <= HEADER_LEN
    ensures RxBytes(env, e, s) == HeaderCopied(env, e, s)
    decreases |s|
  {
    hide Splice, RxPayloadByte, RxFooterByte, HeaderDone;
    if s == [] {
      SpliceNothing(e.rxHeader, e.locInState);
    } else {
      SpliceStep(e.rxHeader, e.locInState, s);
      if |s| == 1 {
        SpliceNothing(e.rxHeader[e.locInState := s[0]], e.locInState + 1);
        assert s[1..] == [];
      } else {
        HeaderBulk(env, RxByte(env, e, s[0]), s[1..]);
      }
    }
  }

  function PayloadCopied(env: Env, e: Endpoint, s: seq<byte>): Endpoint
    requires RxReady(e) && e.rxState == Payload && e.locInState + |s| <= RxLength(e)
  {
    var e1 := e.(rxDatagram := Splice(e.rxDatagram, e.locInDatagram, s),
                 locInDatagram := e.locInDatagram + |s|, locInState := e.locInState + |s|);
    if e1.locInState == RxLength(e) then SetRxState(e1, Footer) else e1
  }

  lemma {:induction false} PayloadBulk(env: Env, e: Endpoint, s: seq<byte>)
    requires env.Valid() && RxReady(e) && e.rxState == Payload && e.locInState + |s| <= RxLength(e)
    ensures RxBytes(env, e, s) == PayloadCopied(env, e, s)
    decreases |s|
  {
    hide Splice, RxHeaderByte, RxFooterByte;
    if s == [] {
      SpliceNothing(e.rxDatagram, e.locInDatagram);
    } else {
      SpliceStep(e.rxDatagram, e.locInDatagram, s);
      if |s| == 1 {
        SpliceNothing(e.rxDatagram[e.locInDatagram := s[0]], e.locInDatagram + 1);
        assert s[1..] == [];
      } else {
        PayloadBulk(env, RxByte(env, e, s[0]), s[1..]);
      }
    }
  }

  function FooterCopied(env: Env, e: Endpoint, s: seq<byte>): Endpoint
    requires env.Valid() && RxReady(e) && e.rxState == Footer && e.locInState + |s| <= FOOTER_LEN
  {
    var e1 := e.(rxFooter := Splice(e.rxFooter, e.locInState, s), locInState := e.locInState + |s|);
    if e1.locInState == FOOTER_LEN then FooterDone(env, e1) else e1
  }

  lemma {:induction false} FooterBulk(env: Env, e: Endpoint, s: seq<byte>)
    requires env.Valid() && RxReady(e) && e.rxState == Footer && e.locInState + |s| <= FOOTER_LEN
    ensures RxBytes(env, e, s) == FooterCopied(env, e, s)
    decreases |s|
  {
    hide Splice, RxHeaderByte, RxPayloadByte, FooterDone;
    if s == [] {
      SpliceNothing(e.rxFooter, e.locInState);
    } else {
      SpliceStep(e.rxFooter, e.locInState, s);
      if |s| == 1 {
        SpliceNothing(e.rxFooter[e.locInState := s[0]], e.locInState + 1);
        assert s[1..] == [];
      } else {
        FooterBulk(env, RxByte(env, e, s[0]), s[1..]);
      }
    }
  }

  // ----------------------------------------------------------------------------------------
  // Finding the preamble

  predicate PreambleAt(s: seq<byte>, i: nat) {
    i + 1 < |s| && s[i] == PREAMBLE_FIRST && s[i + 1] == PREAMBLE_SECOND
  }

  ghost predicate ContainsPreamble(s: seq<byte>) { exists i: nat :: PreambleAt(s, i) }

  lemma PreambleAcross(noise: seq<byte>)
    ensures noise != [] && noise[0] == PREAMBLE_SECOND ==> ContainsPreamble([PREAMBLE_FIRST] + noise)
  {
    assert noise != [] && noise[0] == PREAMBLE_SECOND ==> PreambleAt([PREAMBLE_FIRST] + noise, 0);
  }

  lemma PreambleInTail(noise: seq<byte>)
    ensures noise != [] && ContainsPreamble(noise[1..]) ==> ContainsPreamble(noise)
  {
    if noise != [] && ContainsPreamble(noise[1..]) {
      var i: nat :| PreambleAt(noise[1..], i);
      assert PreambleAt(noise, i + 1);
    }
  }

  /** Bytes without a complete preamble leave the receiver searching and change nothing else. */
  lemma {:induction false} NoiseIgnored(env: Env, e: Endpoint, noise: seq<byte>)
    requires env.Valid() && RxReady(e) && e.rxState == Preamble
    requires e.locInState == 1 ==> !ContainsPreamble([PREAMBLE_FIRST] + noise)
    requires !ContainsPreamble(noise)
    ensures var r := RxBytes(env, e, noise);
            && r == e.(locInState := r.locInState)
            && r.locInState == (if noise == [] then e.locInState
                                else if noise[|noise| - 1] == PREAMBLE_FIRST then 1 else 0)
    decreases |noise|
  {
    if noise != [] {
      var rest := noise[1..];
      PreambleAcross(noise);
      PreambleInTail(noise);
      if noise[0] == PREAMBLE_FIRST {
        assert [PREAMBLE_FIRST] + rest == noise;
      }
      NoiseIgnored(env, RxByte(env, e, noise[0]), rest);
    }
  }

  /** The receiver leaves the search exactly at the end of the first complete preamble. */
  lemma PreambleFound(env: Env, e: Endpoint, noise: seq<byte>)
    requires env.Valid() && Idle(e)
    requires !ContainsPreamble(noise)
    ensures RxBytes(env, e, noise + [PREAMBLE_FIRST, PREAMBLE_SECOND]) == SetRxState(e, Header)
  {
    NoiseIgnored(env, e, noise);
    var r := RxBytes(env, e, noise);
    RxConcat(env, e, noise, [PREAMBLE_FIRST, PREAMBLE_SECOND]);
    var r1 := RxByte(env, r, PREAMBLE_FIRST);
    assert [PREAMBLE_FIRST, PREAMBLE_SECOND][1..] == [PREAMBLE_SECOND];
    assert RxBytes(env, r1, [PREAMBLE_SECOND]) == RxByte(env, r1, PREAMBLE_SECOND);
  }

  // ----------------------------------------------------------------------------------------
  // Frames

  function HeaderBytes(p: Packet): (s: seq<byte>)
    requires |p.payload| < 0x1_0000
    ensures |s| == HEADER_LEN
    ensures HeaderLength(s) == |p.payload|
  {
    var s := [p.flags, p.packetCode, p.ackSeq, p.seqNo] + Le16(|p.payload|) + Le16(0);
    assert s[4..6] == Le16(|p.payload|);
    s
  }

  /** What the transmit path puts into the link buffer. */
  function Frame(p: Packet): seq<byte>
    requires |p.payload| < 0x1_0000
  {
    [PREAMBLE_FIRST, PREAMBLE_SECOND] + HeaderBytes(p) + p.payload
      + Le32(Checksum(HeaderBytes(p) + p.payload))
  }

  /** The receiver with a whole packet and the given footer in its buffers. */
  function WithFooter(e: Endpoint, p: Packet, footer: seq<byte>): (r: Endpoint)
    requires Idle(e) && |p.payload| < 0x1_0000 && |footer| == FOOTER_LEN
    ensures RxInv(r) && r.rxState == Footer
    ensures Covered(r) == HeaderBytes(p) + p.payload
  {
    var r := e.(rxState := Footer, locInState := FOOTER_LEN, rxHeader := HeaderBytes(p),
                rxFooter := footer,
                rxDatagram := e.rxDatagram + p.payload,
                locInDatagram := e.locInDatagram + |p.payload|,
                allocations := if p.payload == [] then e.allocations else e.allocations + 1);
    assert r.rxDatagram[|r.rxDatagram| - RxLength(r)..] == p.payload;
    r
  }

  /** The receiver with a whole undamaged packet in its buffers. */
  function Loaded(e: Endpoint, p: Packet): (r: Endpoint)
    requires Idle(e) && |p.payload| < 0x1_0000
    ensures RxInv(r) && r.rxState == Footer && ChecksumOk(r)
    ensures TxInv(e) ==> TxInv(r)
  {
    Le32RoundTrip(Checksum(HeaderBytes(p) + p.payload));
    WithFooter(e, p, Le32(Checksum(HeaderBytes(p) + p.payload)))
  }

  /** Receiving an undamaged packet between packets. */
  function Receive(env: Env, e: Endpoint, p: Packet): (r: Endpoint)
    requires env.Valid() && Idle(e) && |p.payload| < 0x1_0000
    ensures Idle(r)
    ensures TxInv(e) ==> TxInv(r)
  {
    FooterDone(env, Loaded(e, p))
  }

  /** The receiver has room for the packet. */
  predicate CanAccept(env: Env, e: Endpoint, p: Packet) {
    |p.payload| <= env.rxMtu && (p.payload != [] ==> env.mem(e.allocations))
  }

  lemma PayloadRoundTrip(env: Env, e: Endpoint, payload: seq<byte>)
    requires env.Valid() && RxReady(e) && e.rxState == Payload && e.locInState == 0
    requires RxLength(e) == |payload|
    ensures RxBytes(env, e, payload)
         == SetRxState(e.(rxDatagram := e.rxDatagram[..e.locInDatagram] + payload,
                          locInDatagram := e.locInDatagram + |payload|), Footer)
  {
    PayloadBulk(env, e, payload);
    assert Splice(e.rxDatagram, e.locInDatagram, payload)
        == e.rxDatagram[..e.locInDatagram] + payload;
  }

  lemma AfterHeader(env: Env, e: Endpoint, p: Packet)
    requires env.Valid() && RxReady(e) && e.rxState == Header && e.locInState == 0
    requires |p.payload| < 0x1_0000 && CanAccept(env, e, p)
    ensures RxBytes(env, e, HeaderBytes(p) + p.payload)
         == SetRxState(e.(rxHeader := HeaderBytes(p), rxDatagram := e.rxDatagram + p.payload,
                          locInDatagram := e.locInDatagram + |p.payload|,
                          allocations := if p.payload == [] then e.allocations
                                         else e.allocations + 1), Footer)
  {
    var h := HeaderBytes(p);
    RxConcat(env, e, h, p.payload);
    HeaderBulk(env, e, h);
    assert Splice(e.rxHeader, 0, h) == h;
    var e1 := RxBytes(env, e, h);
    if p.payload != [] {
      assert e1.rxDatagram[..e1.locInDatagram] == e.rxDatagram;
      PayloadRoundTrip(env, e1, p.payload);
    } else {
      assert e.rxDatagram + p.payload == e.rxDatagram;
    }
  }

  /** Any four bytes after header and payload are taken as the footer. */
  lemma AnyFrame(env: Env, e: Endpoint, noise: seq<byte>, p: Packet, footer: seq<byte>)
    requires env.Valid() && Idle(e)
    requires !ContainsPreamble(noise)
    requires |p.payload| < 0x1_0000 && CanAccept(env, e, p) && |footer| == FOOTER_LEN
    ensures RxBytes(env, e, noise + [PREAMBLE_FIRST, PREAMBLE_SECOND] + HeaderBytes(p) + p.payload + footer)
         == FooterDone(env, WithFooter(e, p, footer))
  {
    hide FooterDone, RxBytes, ContainsPreamble, HeaderBytes;
    var start := noise + [PREAMBLE_FIRST, PREAMBLE_SECOND];
    var body := HeaderBytes(p) + p.payload;
    PreambleFound(env, e, noise);
    var e1 := SetRxState(e, Header);
    AfterHeader(env, e1, p);
    var e2 := RxBytes(env, e1, body);
    FooterBulk(env, e2, footer);
    assert Splice(e2.rxFooter, 0, footer) == footer;
    RxConcat(env, e1, body, footer);
    RxConcat(env, e, start, body + footer);
    assert start + HeaderBytes(p) + p.payload + footer == start + (body + footer);
  }

  /**
   * A frame built by the transmit path, after any noise free of preambles, is received as exactly
   * that packet with a passing checksum.
   */
  lemma FrameRoundTrip(env: Env, e: Endpoint, noise: seq<byte>, p: Packet)
    requires env.Valid() && Idle(e)
    requires !ContainsPreamble(noise)
    requires |p.payload| < 0x1_0000 && CanAccept(env, e, p)
    ensures RxBytes(env, e, noise + Frame(p)) == Receive(env, e, p)
  {
    hide FooterDone, RxBytes, ContainsPreamble, HeaderBytes, Checksum, Le32;
    var footer := Le32(Checksum(HeaderBytes(p) + p.payload));
    AnyFrame(env, e, noise, p, footer);
    assert noise + Frame(p)
        == noise + [PREAMBLE_FIRST, PREAMBLE_SECOND] + HeaderBytes(p) + p.payload + footer;
  }

  // ----------------------------------------------------------------------------------------
  // An abort at any point restores the datagram as it was before the packet

  /** The datagram bytes that earlier packets contributed. */
  function Accepted(e: Endpoint): seq<byte>
    requires RxInv(e)
  {
    e.rxDatagram[..|e.rxDatagram| - InPacket(e)]
  }

  lemma AcceptedStable(env: Env, e: Endpoint, b: byte)
    requires env.Valid() && RxReady(e)
    requires !(e.rxState == Footer && e.locInState == FOOTER_LEN - 1)
    ensures Accepted(RxByte(env, e, b)) == Accepted(e)
  {
    var r := RxByte(env, e, b);
    match e.rxState
    case Preamble =>
    case Header =>
      if r.rxState == Payload {
        assert Accepted(r) == e.rxDatagram;
      }
    case Payload =>
    case Footer =>
  }

  /** No byte of `s`, received from `e`, completes a packet. */
  predicate NoPacketCompletes(env: Env, e: Endpoint, s: seq<byte>)
    requires env.Valid() && RxReady(e)
    decreases |s|
  {
    s == [] || (!(e.rxState == Footer && e.locInState == FOOTER_LEN - 1)
                && NoPacketCompletes(env, RxByte(env, e, s[0]), s[1..]))
  }

  lemma {:induction false} AcceptedStableOver(env: Env, e: Endpoint, s: seq<byte>)
    requires env.Valid() && RxReady(e) && NoPacketCompletes(env, e, s)
    ensures Accepted(RxBytes(env, e, s)) == Accepted(e)
    decreases |s|
  {
    if s != [] {
      AcceptedStable(env, e, s[0]);
      AcceptedStableOver(env, RxByte(env, e, s[0]), s[1..]);
    }
  }

  /** Aborting after any part of a packet restores the datagram and its length. */
  lemma AbortRestores(env: Env, e: Endpoint, s: seq<byte>)
    requires env.Valid() && Idle(e) && NoPacketCompletes(env, e, s)
    ensures var r := AbortRxPacket(RxBytes(env, e, s));
            Idle(r) && r.rxDatagram == e.rxDatagram && r.locInDatagram == e.locInDatagram
  {
    AcceptedStableOver(env, e, s);
    var m := RxBytes(env, e, s);
    assert Accepted(m) == e.rxDatagram[..|e.rxDatagram|] == e.rxDatagram;
    assert InPacket(m) == 0 ==> Accepted(m) == m.rxDatagram;
  }

  // ----------------------------------------------------------------------------------------
  // Damage

  lemma ChecksumInjective(s: seq<byte>, t: seq<byte>)
    requires Checksum(s) == Checksum(t)
    ensures Crc.Crc32(0, AsBits(s)) == Crc.Crc32(0, AsBits(t))
  {
    hide Crc.Crc32, Crc.LsbFirst;
    var a, b := Crc.Crc32(0, AsBits(s)), Crc.Crc32(0, AsBits(t));
    FromLe32RoundTrip(WordBytes(a));
    FromLe32RoundTrip(WordBytes(b));
    var x, y := Crc.LsbFirst(a), Crc.LsbFirst(b);
    assert WordBytes(a)[0] == WordBytes(b)[0] && WordBytes(a)[1] == WordBytes(b)[1];
    assert WordBytes(a)[2] == WordBytes(b)[2] && WordBytes(a)[3] == WordBytes(b)[3];
    SameByte(x[0], y[0]);
    SameByte(x[1], y[1]);
    SameByte(x[2], y[2]);
    SameByte(x[3], y[3]);
    assert x == y;
    Crc.SameBytes(a, b);
  }

  lemma SameByte(a: bv8, b: bv8)
    requires a as int == b as int
    ensures a == b
  {
    assert a as int as bv8 == a && b as int as bv8 == b;
  }

  /** Damage to the covered bytes confined to four consecutive ones makes the checksum mismatch. */
  lemma BurstRejected(before: seq<byte>, sent: seq<byte>, received: seq<byte>, after: seq<byte>)
    requires |sent| == |received| <= 4 && sent != received
    ensures FromLe32(Le32(Checksum(before + sent + after))) != Checksum(before + received + after)
  {
    Le32RoundTrip(Checksum(before + sent + after));
    if Checksum(before + sent + after) == Checksum(before + received + after) {
      ChecksumInjective(before + sent + after, before + received + after);
      BitsConcat(before + sent, after);
      BitsConcat(before, sent);
      BitsConcat(before + received, after);
      BitsConcat(before, received);
      if AsBits(sent) == AsBits(received) { BitsInjective(sent, received); }
      Crc.DetectsShortBursts(AsBits(before), AsBits(sent), AsBits(received), AsBits(after));
    }
  }

  /** The footer is what the checksum calls for: header, payload and footer together always have the same checksum. */
  lemma FrameResidue(p: Packet)
    requires |p.payload| < 0x1_0000
    ensures Checksum(Frame(p)[PREAMBLE_LEN..]) == 0x2144DF1C
  {
    hide Crc.Crc32, Crc.LsbFirst, Number, HeaderBytes;
    var covered := HeaderBytes(p) + p.payload;
    var crc := Crc.Crc32(0, AsBits(covered));
    assert Frame(p)[PREAMBLE_LEN..] == covered + Le32(Checksum(covered));
    BitsConcat(covered, Le32(Checksum(covered)));
    NumberBytes(crc);
    Crc.OwnChecksumResidue(AsBits(covered));
    assert Number(0x2144DF1C) == 0x2144DF1C by {
      ResidueNumber();
    }
  }

  lemma NumberBytes(x: bv32)
    ensures AsBits(Le32(Number(x))) == Crc.LsbFirst(x)
  {
    hide Crc.LsbFirst, ToBits;
    FromLe32RoundTrip(WordBytes(x));
    var b := Crc.LsbFirst(x);
    ToBitsIsNumber(b[0]);
    ToBitsIsNumber(b[1]);
    ToBitsIsNumber(b[2]);
    ToBitsIsNumber(b[3]);
    assert AsBits(WordBytes(x)) == [b[0], b[1], b[2], b[3]] == b;
  }

  lemma ResidueNumber()
    ensures Number(0x2144DF1C) == 0x2144DF1C
  {
    assert Crc.LsbFirst(0x2144DF1C) == [0x1C, 0xDF, 0x44, 0x21];
    assert WordBytes(0x2144DF1C) == [0x1C, 0xDF, 0x44, 0x21];
    assert [0x1C, 0xDF, 0x44, 0x21][..2] == [0x1C, 0xDF] && [0x1C, 0xDF, 0x44, 0x21][2..] == [0x44, 0x21];
  }

  /** A packet on the wire. */
  lemma WireFormat(p: Packet)
    requires |p.payload| < 0x1_0000
    ensures var (f, n: int) := (Frame(p), |p.payload|);
            && |f| == 14 + n
            && f[..6] == [0x68, 0x43, p.flags, p.packetCode, p.ackSeq, p.seqNo]
            && (f[6] as int) + 0x100 * (f[7] as int) == n
            && f[8..10] == [0, 0] && f[10..10 + n] == p.payload
  {
    var f := Frame(p);
    assert HeaderBytes(p)[4..6] == Le16(|p.payload|);
    LittleEndian(|p.payload|);
    assert f[6] == HeaderBytes(p)[4] && f[7] == HeaderBytes(p)[5];
  }

  predicate IsLoopback(p: Packet) {
    Attr(p.packetCode) == ATTR_LOOPBACK_REQUEST || Attr(p.packetCode) == ATTR_LOOPBACK_RESPONSE
  }

  /**
   * A frame whose payload was damaged within four consecutive bytes is lost: the receiver is back
   * where it was, but for the NACK it will send.
   */
  lemma DamagedPayloadDropped(env: Env, e: Endpoint, p: Packet, before: seq<byte>, sent: seq<byte>,
                              received: seq<byte>, after: seq<byte>)
    requires env.Valid() && Idle(e) && !IsLoopback(p)
    requires p.payload == before + sent + after
    requires |sent| == |received| <= 4 && sent != received
    requires |p.payload| < 0x1_0000 && CanAccept(env, e, p)
    ensures var damaged := [PREAMBLE_FIRST, PREAMBLE_SECOND] + HeaderBytes(p) + (before + received + after)
                           + Le32(Checksum(HeaderBytes(p) + p.payload));
            var r := RxBytes(env, e, damaged);
            r == e.(rxHeader := HeaderBytes(p), rxFooter := r.rxFooter, packetCodeToSend := ERROR_CHECKSUM,
                    allocations := e.allocations + 1)
  {
    hide FooterDone, Checksum, Le32, RxBytes, ContainsPreamble;
    var q := before + received + after;
    var p' := p.(payload := q);
    var footer := Le32(Checksum(HeaderBytes(p) + p.payload));
    NoPreambleInNothing();
    AnyFrame(env, e, [], p', footer);
    assert HeaderBytes(p') == HeaderBytes(p);
    assert [] + [PREAMBLE_FIRST, PREAMBLE_SECOND] == [PREAMBLE_FIRST, PREAMBLE_SECOND];
    BurstRejected(HeaderBytes(p) + before, sent, received, after);
    assert HeaderBytes(p) + before + sent + after == HeaderBytes(p) + p.payload;
    assert HeaderBytes(p) + before + received + after == HeaderBytes(p) + q;
    var l := WithFooter(e, p', footer);
    FooterRejects(env, l);
    assert l.rxDatagram[..|l.rxDatagram| - RxLength(l)] == e.rxDatagram;
  }

  lemma NoPreambleInNothing()
    ensures !ContainsPreamble([])
  {
  }

  lemma FooterRejects(env: Env, l: Endpoint)
    requires env.Valid() && RxInv(l) && l.rxState == Footer && !ChecksumOk(l)
    requires Attr(l.rxHeader[1]) != ATTR_LOOPBACK_REQUEST && Attr(l.rxHeader[1]) != ATTR_LOOPBACK_RESPONSE
    ensures FooterDone(env, l) == EnqueuePacket(AbortRxPacket(l), ERROR_CHECKSUM)
  {
    hide Checksum;
  }
}
