/** The packet checksum: IEEE CRC-32 computed four bits at a time with a 16-entry table. */
module Crc {
  import opened Fold

  const POLYNOMIAL: bv32 := 0xEDB88320
  const LOOKUP_TABLE: seq<bv32> := [
    0x00000000, 0x1DB71064, 0x3B6E20C8, 0x26D930AC, 0x76DC4190, 0x6B6B51F4,
    0x4DB26158, 0x5005713C, 0xEDB88320, 0xF00F9344, 0xD6D6A3E8, 0xCB61B38C,
    0x9B64C2B0, 0x86D3D2D4, 0xA00AE278, 0xBDBDF21C]

  // Reference definition: one bit at a time, least significant bit first.

  function BitStep(crc: bv32): bv32 {
    (crc >> 1) ^ (if crc & 1 == 1 then POLYNOMIAL else 0)
  }

  function ByteSteps(x: bv32): bv32 {
    BitStep(BitStep(BitStep(BitStep(BitStep(BitStep(BitStep(BitStep(x))))))))
  }

  function Feed(register: bv32, bits: bv32): bv32 { register ^ bits }

  function ByteStep(register: bv32, b: bv8): bv32 {
    ByteSteps(Feed(register, b as bv32))
  }

  function Register(register: bv32, s: seq<bv8>): bv32 {
    FoldLeft(ByteStep, register, s)
  }

  function Flip(x: bv32): bv32 { !x }

  /** CRC-32 of `s`, continuing from the checksum `crc` of what precedes `s`. */
  function Crc32(crc: bv32, s: seq<bv8>): bv32 {
    Flip(Register(Flip(crc), s))
  }

  // The table performs four bit steps at once.

  function Lookup(index: bv32): bv32 { LOOKUP_TABLE[(index & 0xF) as int] }

  function Mix(entry: bv32, register: bv32): bv32 { entry ^ (register >> 4) }

  function TableNibble(register: bv32, bits: bv32): bv32 {
    Mix(Lookup(Feed(register, bits)), register)
  }

  lemma LookupIsFourBitSteps(x: bv32)
    ensures Mix(Lookup(x), x) == BitStep(BitStep(BitStep(BitStep(x))))
  {
    var n := x & 0xF;
    if n == 0 {} else if n == 1 {} else if n == 2 {} else if n == 3 {}
    else if n == 4 {} else if n == 5 {} else if n == 6 {} else if n == 7 {}
    else if n == 8 {} else if n == 9 {} else if n == 10 {} else if n == 11 {}
    else if n == 12 {} else if n == 13 {} else if n == 14 {} else { assert n == 15; }
  }

  lemma FirstNibble(register: bv32, w: bv32, entry: bv32)
    ensures Mix(entry, Feed(register, w)) == Feed(Mix(entry, register), w >> 4)
  {
    assert (register ^ w) >> 4 == (register >> 4) ^ (w >> 4);
    XorAssociates(entry, register >> 4, w >> 4);
  }

  lemma XorAssociates(x: bv32, y: bv32, z: bv32)
    ensures x ^ (y ^ z) == (x ^ y) ^ z
  {
  }

  lemma SecondNibble(first: bv32, w: bv32, entry: bv32)
    requires w < 0x100
    ensures Mix(entry, Feed(first, w >> 4)) == Mix(entry, first)
  {
  }

  lemma TableIsByteStep(register: bv32, b: bv8)
    ensures TableNibble(TableNibble(register, b as bv32), (b as bv32) >> 4) == ByteStep(register, b)
  {
    hide BitStep, Lookup, Feed, Mix;
    var w := b as bv32;
    var first := TableNibble(register, w);
    LookupIsFourBitSteps(Feed(register, w));
    FirstNibble(register, w, Lookup(Feed(register, w)));
    LookupIsFourBitSteps(Feed(first, w >> 4));
    SecondNibble(first, w, Lookup(Feed(first, w >> 4)));
  }

  /** `chppCrc32`: the table-driven loop computes the bit-at-a-time CRC-32. */
  method ChppCrc32(crc: bv32, buf: seq<bv8>) returns (r: bv32)
    ensures r == Crc32(crc, buf)
  {
    hide ByteStep, Lookup, TableNibble, Flip;
    r := Flip(crc);
    for i := 0 to |buf|
      invariant r == Register(Flip(crc), buf[..i])
    {
      TableIsByteStep(r, buf[i]);
      FoldSnoc(ByteStep, Flip(crc), buf[..i], buf[i]);
      assert buf[..i + 1] == buf[..i] + [buf[i]];
      var w := buf[i] as bv32;
      r := TableNibble(r, w);
      r := TableNibble(r, w >> 4);
    }
    assert buf[..|buf|] == buf;
    r := Flip(r);
  }

  lemma FlipFlip(x: bv32)
    ensures Flip(Flip(x)) == x
  {
  }

  /** Checksumming a packet in two pieces equals checksumming it whole. */
  lemma Chaining(crc: bv32, s: seq<bv8>, t: seq<bv8>)
    ensures Crc32(Crc32(crc, s), t) == Crc32(crc, s + t)
  {
    hide ByteStep, Flip;
    FoldConcat(ByteStep, Flip(crc), s, t);
    FlipFlip(Register(Flip(crc), s));
  }

  // Error detection.  After a step, the register's top bits fix the byte that was fed in
  // and all but the lowest eight of the matching bits of the register before it.

  lemma BitStepInjective(x: bv32, y: bv32)
    requires BitStep(x) == BitStep(y)
    ensures x == y
  {
  }

  lemma ByteStepInjective(x: bv32, y: bv32, b: bv8)
    requires ByteStep(x, b) == ByteStep(y, b)
    ensures x == y
  {
    ByteStepsInjective(Feed(x, b as bv32), Feed(y, b as bv32));
    assert (x ^ (b as bv32)) ^ (b as bv32) == x;
    assert (y ^ (b as bv32)) ^ (b as bv32) == y;
  }

  lemma ByteStepsInjective(x: bv32, y: bv32)
    requires ByteSteps(x) == ByteSteps(y)
    ensures x == y
  {
    hide BitStep;
    var x2, y2 := BitStep(BitStep(x)), BitStep(BitStep(y));
    var x4, y4 := BitStep(BitStep(x2)), BitStep(BitStep(y2));
    var x6, y6 := BitStep(BitStep(x4)), BitStep(BitStep(y4));
    BitStepInjective(BitStep(x6), BitStep(y6));
    BitStepInjective(x6, y6);
    BitStepInjective(BitStep(x4), BitStep(y4));
    BitStepInjective(x4, y4);
    BitStepInjective(BitStep(x2), BitStep(y2));
    BitStepInjective(x2, y2);
    BitStepInjective(BitStep(x), BitStep(y));
    BitStepInjective(x, y);
  }

  function Low(x: bv32): bv32 { x & 0xFF }

  function High(x: bv32): bv32 { x >> 8 }

  function Top(x: bv32): bv32 { x >> 24 }

  function Up(x: bv32): bv32 { x << 8 }

  function Keep(x: bv32, mask: bv32): bv32 { x & mask }

  /** All but the lowest `n` bytes of a register. */
  function Mask(n: nat): bv32 {
    if n == 0 then 0xFFFF_FFFF else if n == 1 then 0xFFFF_FF00 else if n == 2 then 0xFFFF_0000
    else if n == 3 then 0xFF00_0000 else 0
  }

  /** The registers agree on all but their lowest `n` bytes. */
  predicate Agree(x: bv32, y: bv32, n: nat) { Keep(x, Mask(n)) == Keep(y, Mask(n)) }

  /** Only the low byte is mixed by eight bit steps; the rest is shifted down. */
  lemma ByteStepsSplit(x: bv32)
    ensures ByteSteps(x) == Feed(ByteSteps(Low(x)), High(x))
  {
  }

  /** The top byte left by eight bit steps fixes the low byte they started from. */
  lemma TopByteFixesLowByte(x: bv32, y: bv32)
    requires Top(ByteSteps(Low(x))) == Top(ByteSteps(Low(y)))
    ensures Low(x) == Low(y)
  {
  }

  lemma TopByteOfSplit(low: bv32, x: bv32)
    ensures Top(Feed(low, High(x))) == Top(low)
  {
  }

  lemma FeedCancels(low: bv32, x: bv32, y: bv32, mask: bv32)
    requires Keep(Feed(low, x), mask) == Keep(Feed(low, y), mask)
    ensures Keep(x, mask) == Keep(y, mask)
  {
  }

  lemma MaskShifts(x: bv32, y: bv32, mask: bv32)
    requires Keep(High(x), mask) == Keep(High(y), mask)
    ensures Keep(x, Up(mask)) == Keep(y, Up(mask))
  {
  }

  lemma MaskGrows(n: nat)
    requires n <= 3
    ensures Up(Mask(n)) == Mask(n + 1)
  {
  }

  lemma AgreeBack(low: bv32, x: bv32, y: bv32, n: nat)
    requires n <= 3
    requires Agree(Feed(low, High(x)), Feed(low, High(y)), n)
    ensures Agree(x, y, n + 1)
  {
    hide Mask, Keep, Feed, High, Up;
    FeedCancels(low, High(x), High(y), Mask(n));
    MaskShifts(x, y, Mask(n));
    MaskGrows(n);
  }

  lemma AgreeOnTop(x: bv32, y: bv32, n: nat)
    requires n <= 3
    requires Agree(x, y, n)
    ensures Top(x) == Top(y)
  {
    if n == 0 {} else if n == 1 {} else if n == 2 {} else {}
  }

  lemma StepBack(x: bv32, y: bv32, n: nat)
    requires n <= 3
    requires Agree(ByteSteps(x), ByteSteps(y), n)
    ensures Low(x) == Low(y)
    ensures Agree(x, y, n + 1)
  {
    hide BitStep, ByteSteps, Agree, Low, High, Top, Feed;
    ByteStepsSplit(x);
    ByteStepsSplit(y);
    AgreeOnTop(ByteSteps(x), ByteSteps(y), n);
    TopByteOfSplit(ByteSteps(Low(x)), x);
    TopByteOfSplit(ByteSteps(Low(y)), y);
    TopByteFixesLowByte(x, y);
    AgreeBack(ByteSteps(Low(x)), x, y, n);
  }

  lemma FeedKeepsMask(x: bv32, y: bv32, b: bv32, c: bv32, mask: bv32)
    requires Keep(b, mask) == 0 == Keep(c, mask)
    requires Keep(Feed(x, b), mask) == Keep(Feed(y, c), mask)
    ensures Keep(x, mask) == Keep(y, mask)
  {
  }

  lemma MaskOmitsByte(b: bv8, n: nat)
    requires 1 <= n
    ensures Keep(b as bv32, Mask(n)) == 0
  {
  }

  lemma FeedKeepsAgreement(x: bv32, y: bv32, b: bv8, c: bv8, n: nat)
    requires 1 <= n
    requires Agree(Feed(x, b as bv32), Feed(y, c as bv32), n)
    ensures Agree(x, y, n)
  {
    hide Mask, Keep, Feed;
    MaskOmitsByte(b, n);
    MaskOmitsByte(c, n);
    FeedKeepsMask(x, y, b as bv32, c as bv32, Mask(n));
  }

  lemma FeedLowByte(x: bv32, b: bv8, c: bv8)
    requires Low(Feed(x, b as bv32)) == Low(Feed(x, c as bv32))
    ensures b == c
  {
  }

  /** Equal final registers agree, `n` bytes before the end, on all but the lowest `n` bytes. */
  lemma {:induction false} RegistersAgree(x: bv32, y: bv32, s: seq<bv8>, t: seq<bv8>)
    requires |s| == |t| <= 4
    requires Register(x, s) == Register(y, t)
    ensures Agree(x, y, |s|)
    ensures s != [] ==> Low(Feed(x, s[0] as bv32)) == Low(Feed(y, t[0] as bv32))
    decreases |s|
  {
    hide ByteSteps, Low, Feed;
    if s == [] {
      assert x == y;
    } else {
      hide Agree;
      RegistersAgree(ByteStep(x, s[0]), ByteStep(y, t[0]), s[1..], t[1..]);
      StepBack(Feed(x, s[0] as bv32), Feed(y, t[0] as bv32), |s| - 1);
      FeedKeepsAgreement(x, y, s[0], t[0], |s|);
    }
  }

  lemma {:induction false} RegisterFixesShortBurst(x: bv32, s: seq<bv8>, t: seq<bv8>)
    requires |s| == |t| <= 4
    requires Register(x, s) == Register(x, t)
    ensures s == t
    decreases |s|
  {
    hide ByteStep, Feed, Low;
    if s != [] {
      RegistersAgree(x, x, s, t);
      FeedLowByte(x, s[0], t[0]);
      RegisterFixesShortBurst(ByteStep(x, s[0]), s[1..], t[1..]);
      assert s == [s[0]] + s[1..] && t == [t[0]] + t[1..];
    }
  }

  /** Any corruption confined to four consecutive bytes changes the checksum. */
  lemma DetectsShortBursts(before: seq<bv8>, sent: seq<bv8>, received: seq<bv8>, after: seq<bv8>)
    requires |sent| == |received| <= 4
    requires sent != received
    ensures Crc32(0, before + sent + after) != Crc32(0, before + received + after)
  {
    hide ByteStep, Flip;
    var start := Flip(0);
    var middle := Register(start, before);
    FoldConcat(ByteStep, start, before + sent, after);
    FoldConcat(ByteStep, start, before + received, after);
    FoldConcat(ByteStep, start, before, sent);
    FoldConcat(ByteStep, start, before, received);
    if Crc32(0, before + sent + after) == Crc32(0, before + received + after) {
      FlipFlip(Register(start, before + sent + after));
      FlipFlip(Register(start, before + received + after));
      forall x, y, b | ByteStep(x, b) == ByteStep(y, b) ensures x == y {
        ByteStepInjective(x, y, b);
      }
      FoldInjective(ByteStep, Register(middle, sent), Register(middle, received), after);
      RegisterFixesShortBurst(middle, sent, received);
    }
  }

  // Fixed values.  These laws name the result, not the way it is computed.

  function Not(x: bv32): bv32 { !x }

  function LowByte(x: bv32): bv8 { Low(x) as bv8 }

  /** The four bytes of a checksum as they are sent. */
  function LsbFirst(x: bv32): (s: seq<bv8>)
    ensures |s| == 4
  {
    [LowByte(x), LowByte(High(x)), LowByte(High(High(x))), LowByte(High(High(High(x))))]
  }

  lemma SameBytes(x: bv32, y: bv32)
    requires LsbFirst(x) == LsbFirst(y)
    ensures x == y
  {
    hide Low, High, LowByte;
    assert LsbFirst(x)[0] == LsbFirst(y)[0] && LsbFirst(x)[1] == LsbFirst(y)[1];
    assert LsbFirst(x)[2] == LsbFirst(y)[2] && LsbFirst(x)[3] == LsbFirst(y)[3];
    LowByteIsLow(x);
    LowByteIsLow(y);
    LowByteIsLow(High(x));
    LowByteIsLow(High(y));
    LowByteIsLow(High(High(x)));
    LowByteIsLow(High(High(y)));
    LowByteIsLow(High(High(High(x))));
    LowByteIsLow(High(High(High(y))));
    SameWord(x, y);
  }

  lemma SameWord(x: bv32, y: bv32)
    requires Low(x) == Low(y) && Low(High(x)) == Low(High(y)) && Low(High(High(x))) == Low(High(High(y)))
    requires Low(High(High(High(x)))) == Low(High(High(High(y))))
    ensures x == y
  {
  }

  lemma LowByteIsLow(x: bv32)
    ensures LowByte(x) as bv32 == Low(x)
  {
  }

  lemma FeedTwice(x: bv32, y: bv32, z: bv32)
    ensures Feed(x, Feed(y, z)) == Feed(Feed(x, y), z)
  {
    XorAssociates(x, y, z);
  }

  lemma FeedComplement0(y: bv32)
    ensures Low(Feed(y, Low(Not(y)))) == 0xFF
    ensures High(Feed(y, Low(Not(y)))) == Feed(0x0, High(y))
  {
  }

  lemma Residue0(y: bv32)
    ensures ByteStep(y, LowByte(Not(y))) == Feed(0x2D02EF8D, High(y))
  {
    hide Low, High, LowByte, ByteSteps, Feed, Not;
    LowByteIsLow(Not(y));
    ByteStepsSplit(Feed(y, Low(Not(y))));
    FeedComplement0(y);
    assert ByteSteps(0xFF) == 0x2D02EF8D by { Steps0(); }
    FeedTwice(0x2D02EF8D, 0x0, High(y));
    assert Feed(0x2D02EF8D, 0x0) == 0x2D02EF8D by { Sum0(); }
  }

  lemma Steps0()
    ensures ByteSteps(0xFF) == 0x2D02EF8D
  {
  }

  lemma Sum0()
    ensures Feed(0x2D02EF8D, 0x0) == 0x2D02EF8D
  {
  }

  lemma FeedComplement1(y: bv32)
    ensures Low(Feed(Feed(0x2D02EF8D, y), Low(Not(y)))) == 0x72
    ensures High(Feed(Feed(0x2D02EF8D, y), Low(Not(y)))) == Feed(0x2D02EF, High(y))
  {
  }

  lemma Residue1(y: bv32)
    ensures ByteStep(Feed(0x2D02EF8D, y), LowByte(Not(y))) == Feed(0xBE2612FF, High(y))
  {
    hide Low, High, LowByte, ByteSteps, Feed, Not;
    LowByteIsLow(Not(y));
    ByteStepsSplit(Feed(Feed(0x2D02EF8D, y), Low(Not(y))));
    FeedComplement1(y);
    assert ByteSteps(0x72) == 0xBE0B1010 by { Steps1(); }
    FeedTwice(0xBE0B1010, 0x2D02EF, High(y));
    assert Feed(0xBE0B1010, 0x2D02EF) == 0xBE2612FF by { Sum1(); }
  }

  lemma Steps1()
    ensures ByteSteps(0x72) == 0xBE0B1010
  {
  }

  lemma Sum1()
    ensures Feed(0xBE0B1010, 0x2D02EF) == 0xBE2612FF
  {
  }

  lemma FeedComplement2(y: bv32)
    ensures Low(Feed(Feed(0xBE2612FF, y), Low(Not(y)))) == 0x00
    ensures High(Feed(Feed(0xBE2612FF, y), Low(Not(y)))) == Feed(0xBE2612, High(y))
  {
  }

  lemma Residue2(y: bv32)
    ensures ByteStep(Feed(0xBE2612FF, y), LowByte(Not(y))) == Feed(0x00BE2612, High(y))
  {
    hide Low, High, LowByte, ByteSteps, Feed, Not;
    LowByteIsLow(Not(y));
    ByteStepsSplit(Feed(Feed(0xBE2612FF, y), Low(Not(y))));
    FeedComplement2(y);
    assert ByteSteps(0x00) == 0x00000000 by { Steps2(); }
    FeedTwice(0x00000000, 0xBE2612, High(y));
    assert Feed(0x00000000, 0xBE2612) == 0x00BE2612 by { Sum2(); }
  }

  lemma Steps2()
    ensures ByteSteps(0x00) == 0x00000000
  {
  }

  lemma Sum2()
    ensures Feed(0x00000000, 0xBE2612) == 0x00BE2612
  {
  }

  lemma FeedComplement3(y: bv32)
    ensures Low(Feed(Feed(0x00BE2612, y), Low(Not(y)))) == 0xED
    ensures High(Feed(Feed(0x00BE2612, y), Low(Not(y)))) == Feed(0xBE26, High(y))
  {
  }

  lemma Residue3(y: bv32)
    ensures ByteStep(Feed(0x00BE2612, y), LowByte(Not(y))) == Feed(0xDEBB20E3, High(y))
  {
    hide Low, High, LowByte, ByteSteps, Feed, Not;
    LowByteIsLow(Not(y));
    ByteStepsSplit(Feed(Feed(0x00BE2612, y), Low(Not(y))));
    FeedComplement3(y);
    assert ByteSteps(0xED) == 0xDEBB9EC5 by { Steps3(); }
    FeedTwice(0xDEBB9EC5, 0xBE26, High(y));
    assert Feed(0xDEBB9EC5, 0xBE26) == 0xDEBB20E3 by { Sum3(); }
  }

  lemma Steps3()
    ensures ByteSteps(0xED) == 0xDEBB9EC5
  {
  }

  lemma Sum3()
    ensures Feed(0xDEBB9EC5, 0xBE26) == 0xDEBB20E3
  {
  }

  lemma ComplementBytes(x: bv32)
    ensures LowByte(High(Not(x))) == LowByte(Not(High(x)))
    ensures LowByte(High(High(Not(x)))) == LowByte(Not(High(High(x))))
    ensures LowByte(High(High(High(Not(x))))) == LowByte(Not(High(High(High(x)))))
    ensures High(High(High(High(x)))) == 0
  {
  }

  lemma FeedZero(x: bv32)
    ensures Feed(x, 0) == x && Feed(0, x) == x
  {
  }

  lemma FourBytes(register: bv32, a: bv8, b: bv8, c: bv8, d: bv8)
    ensures Register(register, [a, b, c, d]) == ByteStep(ByteStep(ByteStep(ByteStep(register, a), b), c), d)
  {
    hide ByteStep;
    assert [a, b, c, d] == [a, b, c] + [d] && [a, b, c] == [a, b] + [c] && [a, b] == [a] + [b] && [a] == [] + [a];
    FoldSnoc(ByteStep, register, [a, b, c], d);
    FoldSnoc(ByteStep, register, [a, b], c);
    FoldSnoc(ByteStep, register, [a], b);
    FoldSnoc(ByteStep, register, [], a);
  }

  /** Whatever the register, its own complement, sent in order, leaves the same in it. */
  lemma ComplementLeavesResidue(r: bv32)
    ensures Register(r, LsbFirst(Not(r))) == 0xDEBB20E3
  {
    hide ByteStep, LowByte, High, Feed, Not, Register;
    FourBytes(r, LowByte(Not(r)), LowByte(High(Not(r))), LowByte(High(High(Not(r)))),
              LowByte(High(High(High(Not(r))))));
    ComplementBytes(r);
    Residue0(r);
    Residue1(High(r));
    Residue2(High(High(r)));
    Residue3(High(High(High(r))));
    FeedZero(0xDEBB20E3);
  }

  /** A buffer followed by its own checksum, least significant byte first, always has the same checksum. */
  lemma OwnChecksumResidue(s: seq<bv8>)
    ensures Crc32(0, s + LsbFirst(Crc32(0, s))) == 0x2144DF1C
  {
    hide ByteStep, LsbFirst;
    var r := Register(Flip(0), s);
    assert Flip(r) == Not(r);
    FoldConcat(ByteStep, Flip(0), s, LsbFirst(Not(r)));
    ComplementLeavesResidue(r);
  }

  /** A zero byte put in front changes the checksum. */
  lemma LeadingZeroCounts(s: seq<bv8>)
    ensures Crc32(0, [0] + s) != Crc32(0, s)
  {
    hide Flip;
    var first := ByteStep(Flip(0), 0);
    assert ([0] + s)[0] == 0 && ([0] + s)[1..] == s;
    if Crc32(0, [0] + s) == Crc32(0, s) {
      FlipFlip(Register(first, s));
      FlipFlip(Register(Flip(0), s));
      forall x, y, b | ByteStep(x, b) == ByteStep(y, b) ensures x == y {
        ByteStepInjective(x, y, b);
      }
      FoldInjective(ByteStep, first, Flip(0), s);
      FirstZero();
    }
  }

  lemma FirstZero()
    ensures ByteStep(Flip(0), 0) != Flip(0)
  {
  }
}
