/** Machine integers of the C sources as subset types, and little-endian encoding. */
module Bytes {

  type byte = x: int | 0 <= x < 0x100
  type uint16 = x: int | 0 <= x < 0x1_0000
  type uint32 = x: int | 0 <= x < 0x1_0000_0000

  function Le16(v: uint16): (s: seq<byte>)
    ensures |s| == 2
  {
    [v % 0x100, v / 0x100]
  }

  function FromLe16(s: seq<byte>): (v: uint16)
    requires |s| == 2
    ensures Le16(v) == s
  {
    var lo: int, hi: int := s[0], s[1];
    lo + 0x100 * hi
  }

  function Le32(v: uint32): (s: seq<byte>)
    ensures |s| == 4
  {
    Le16(v % 0x1_0000) + Le16(v / 0x1_0000)
  }

  function FromLe32(s: seq<byte>): (v: uint32)
    requires |s| == 4
  {
    var lo: int, hi: int := FromLe16(s[..2]), FromLe16(s[2..]);
    lo + 0x1_0000 * hi
  }

  lemma Le32RoundTrip(v: uint32)
    ensures FromLe32(Le32(v)) == v
  {
    assert Le32(v)[..2] == Le16(v % 0x1_0000);
    assert Le32(v)[2..] == Le16(v / 0x1_0000);
  }

  lemma FromLe32RoundTrip(s: seq<byte>)
    requires |s| == 4
    ensures Le32(FromLe32(s)) == s
  {
    var lo: int, hi: int := FromLe16(s[..2]), FromLe16(s[2..]);
    assert FromLe32(s) % 0x1_0000 == lo && FromLe32(s) / 0x1_0000 == hi;
    assert s == s[..2] + s[2..];
  }

  /** The least significant byte goes first. */
  lemma LittleEndian(v: uint32)
    ensures var (a: int, b: int, c: int, d: int) := (Le32(v)[0], Le32(v)[1], Le32(v)[2], Le32(v)[3]);
            v == a + 0x100 * b + 0x1_0000 * c + 0x100_0000 * d
    ensures v < 0x1_0000 ==>
              var (a: int, b: int) := (Le16(v)[0], Le16(v)[1]);
              v == a + 0x100 * b
  {
  }

  /** `n` bytes of freshly allocated memory; their value is never read before it is written. */
  function Zeros(n: nat): (s: seq<byte>)
    ensures |s| == n
  {
    seq(n, _ => 0)
  }

  function Assemble(b0: bool, b1: bool, b2: bool, b3: bool, b4: bool, b5: bool, b6: bool, b7: bool): bv8 {
    (if b0 then 0x01 else 0) | (if b1 then 0x02 else 0) | (if b2 then 0x04 else 0) | (if b3 then 0x08 else 0)
    | (if b4 then 0x10 else 0) | (if b5 then 0x20 else 0) | (if b6 then 0x40 else 0) | (if b7 then 0x80 else 0)
  }

  function Odd(n: nat): bool { n % 2 == 1 }

  /** The byte as a bit vector. */
  function ToBits(b: byte): bv8 {
    var h1 := b / 2;
    var h2 := h1 / 2;
    var h3 := h2 / 2;
    var h4 := h3 / 2;
    var h5 := h4 / 2;
    var h6 := h5 / 2;
    var h7 := h6 / 2;
    Assemble(Odd(b), Odd(h1), Odd(h2), Odd(h3), Odd(h4), Odd(h5), Odd(h6), Odd(h7))
  }

  lemma OddBit(b: bv8)
    ensures Odd(b as int) == (b & 1 == 1)
  {
  }

  lemma HalfShifts(b: bv8)
    ensures (b as int) / 2 == (b >> 1) as int
  {
  }

  lemma AssembleBits(b: bv8)
    ensures Assemble(b & 1 == 1, (b >> 1) & 1 == 1, (b >> 2) & 1 == 1, (b >> 3) & 1 == 1,
                     (b >> 4) & 1 == 1, (b >> 5) & 1 == 1, (b >> 6) & 1 == 1, (b >> 7) & 1 == 1) == b
  {
  }

  lemma Shifts(b: bv8)
    ensures (b >> 1) >> 1 == b >> 2 && (b >> 2) >> 1 == b >> 3 && (b >> 3) >> 1 == b >> 4
    ensures (b >> 4) >> 1 == b >> 5 && (b >> 5) >> 1 == b >> 6 && (b >> 6) >> 1 == b >> 7
  {
  }

  /** The bits are those of the number. */
  lemma ToBitsIsNumber(b: bv8)
    ensures ToBits(b as int) == b
  {
    hide Assemble, Odd;
    Shifts(b);
    HalfShifts(b);
    HalfShifts(b >> 1);
    HalfShifts(b >> 2);
    HalfShifts(b >> 3);
    HalfShifts(b >> 4);
    HalfShifts(b >> 5);
    HalfShifts(b >> 6);
    OddBit(b);
    OddBit(b >> 1);
    OddBit(b >> 2);
    OddBit(b >> 3);
    OddBit(b >> 4);
    OddBit(b >> 5);
    OddBit(b >> 6);
    OddBit(b >> 7);
    AssembleBits(b);
  }

  function AsBits(s: seq<byte>): seq<bv8> { seq(|s|, i requires 0 <= i < |s| => ToBits(s[i])) }

  lemma AssembleInjective(b0: bool, b1: bool, b2: bool, b3: bool, b4: bool, b5: bool, b6: bool, b7: bool,
                          c0: bool, c1: bool, c2: bool, c3: bool, c4: bool, c5: bool, c6: bool, c7: bool)
    requires Assemble(b0, b1, b2, b3, b4, b5, b6, b7) == Assemble(c0, c1, c2, c3, c4, c5, c6, c7)
    ensures b0 == c0 && b1 == c1 && b2 == c2 && b3 == c3 && b4 == c4 && b5 == c5 && b6 == c6 && b7 == c7
  {
  }

  lemma HalvesAgree(m: nat, n: nat)
    requires Odd(m) == Odd(n) && m / 2 == n / 2
    ensures m == n
  {
  }

  lemma ToBitsInjective(b: byte, c: byte)
    requires ToBits(b) == ToBits(c)
    ensures b == c
  {
    hide Assemble, Odd;
    var b1, c1 := b / 2, c / 2;
    var b2, c2 := b1 / 2, c1 / 2;
    var b3, c3 := b2 / 2, c2 / 2;
    var b4, c4 := b3 / 2, c3 / 2;
    var b5, c5 := b4 / 2, c4 / 2;
    var b6, c6 := b5 / 2, c5 / 2;
    var b7, c7 := b6 / 2, c6 / 2;
    AssembleInjective(Odd(b), Odd(b1), Odd(b2), Odd(b3), Odd(b4), Odd(b5), Odd(b6), Odd(b7),
                      Odd(c), Odd(c1), Odd(c2), Odd(c3), Odd(c4), Odd(c5), Odd(c6), Odd(c7));
    assert b7 / 2 == 0 == c7 / 2;
    HalvesAgree(b7, c7);
    HalvesAgree(b6, c6);
    HalvesAgree(b5, c5);
    HalvesAgree(b4, c4);
    HalvesAgree(b3, c3);
    HalvesAgree(b2, c2);
    HalvesAgree(b1, c1);
    HalvesAgree(b, c);
  }

  lemma BitsConcat(s: seq<byte>, t: seq<byte>)
    ensures AsBits(s + t) == AsBits(s) + AsBits(t)
  {
    hide ToBits;
  }

  lemma BitsInjective(s: seq<byte>, t: seq<byte>)
    requires |s| == |t| && AsBits(s) == AsBits(t)
    ensures s == t
  {
    hide ToBits;
    forall i | 0 <= i < |s| ensures s[i] == t[i] {
      assert AsBits(s)[i] == AsBits(t)[i];
      ToBitsInjective(s[i], t[i]);
    }
  }
}
