/**
 * What the generated CHRE-to-CHPP converters do, for any schema: the meaning of the emitted encode,
 * decode and size functions over a description of the struct's members.
 */
module Codec {
  import opened Bytes
  import opened Util

  /**
   * One member of a struct, as its annotations classify it.  `disc` and `count` are positions of
   * other members of the same struct.
   */
  datatype Field =
    | Plain(width: nat)                                  // assigned or copied
    | Fixed(bytes: seq<byte>)                            // fixed_value
    | Nested(members: seq<Field>)                        // struct
    | Union(disc: nat, size: nat, cases: seq<Case>)      // union_variant
    | Vla(count: nat, elem: Field)                       // var_len_array
    | Str                                                // string

  /** A discriminator value and the union member it selects. */
  datatype Case = Case(tag: seq<byte>, member: Field)

  /** A CHRE value. Of a union, only what its discriminator selects; all zero if that is nothing. */
  datatype Value =
    | Raw(bytes: seq<byte>)
    | Struct(members: seq<Value>)
    | Variant(value: Value)
    | Unselected
    | Elements(items: seq<Value>)
    | Text(text: Option<seq<byte>>)

  /** How decoding ends: with a value, refused, with a read past the input, or in a failed assertion. */
  datatype Outcome<T> = Decoded(value: T) | Rejected | ReadsPast | Asserts {
    /** The same end for what this was a part of. */
    function Fail<U>(): Outcome<U>
      requires !Decoded?
    {
      match this
      case Rejected => Outcome.Rejected
      case ReadsPast => Outcome.ReadsPast
      case Asserts => Outcome.Asserts
    }
  }

  const OFFSET_SIZE := 4

  function SizeOf(f: Field): nat
    decreases f, 0
  {
    match f
    case Plain(width) => width
    case Fixed(bytes) => |bytes|
    case Nested(members) => SizeOfFirst(members, |members|)
    case Union(_, size, _) => size
    case Vla(_, _) => OFFSET_SIZE
    case Str => OFFSET_SIZE
  }

  /** Packed size of the first `n` members, which is the position of the next one. */
  function SizeOfFirst(fs: seq<Field>, n: nat): nat
    requires n <= |fs|
    decreases fs, n
  {
    if n == 0 then 0 else SizeOfFirst(fs, n - 1) + SizeOf(fs[n - 1])
  }

  function FindCase(cases: seq<Case>, tag: seq<byte>): (k: nat)
    ensures k <= |cases|
    ensures k < |cases| ==> cases[k].tag == tag
  {
    if cases == [] then 0 else if cases[0].tag == tag then 0 else 1 + FindCase(cases[1..], tag)
  }

  function ToNat(s: seq<byte>): nat {
    if s == [] then 0 else s[0] as int + 0x100 * ToNat(s[1..])
  }

  predicate IsVariable(f: Field) { f.Vla? || f.Str? }

  // ----------------------------------------------------------------------------------------
  // The supported class of schemas

  predicate WfMember(f: Field, siblings: seq<Field>)
    decreases f, 0
  {
    match f
    case Plain(_) => true
    case Fixed(_) => true
    case Nested(members) => WfFirst(members, |members|)
    case Union(disc, size, cases) =>
      && disc < |siblings| && siblings[disc].Plain?
      && forall k :: 0 <= k < |cases| ==>
           && (cases[k].member.Plain? || cases[k].member.Nested?)
           && WfMember(cases[k].member, []) && SizeOf(cases[k].member) <= size
    case Vla(_, _) => false
    case Str => false
  }

  predicate WfFirst(fs: seq<Field>, n: nat)
    requires n <= |fs|
    decreases fs, n
  {
    n == 0 || (WfFirst(fs, n - 1) && WfMember(fs[n - 1], fs))
  }

  predicate WfRootMember(f: Field, siblings: seq<Field>) {
    match f
    case Vla(count, elem) =>
      && count < |siblings| && siblings[count].Plain?
      && (elem.Plain? || elem.Nested?) && WfMember(elem, []) && SizeOf(elem) > 0
    case Str => true
    case _ => WfMember(f, siblings)
  }

  predicate WfRoot(fs: seq<Field>) { forall i :: 0 <= i < |fs| ==> WfRootMember(fs[i], fs) }

  lemma {:induction false} NestFirst(fs: seq<Field>, n: nat)
    requires n <= |fs| && WfRoot(fs) && forall i :: 0 <= i < |fs| ==> !IsVariable(fs[i])
    ensures WfFirst(fs, n)
  {
    if n > 0 {
      NestFirst(fs, n - 1);
      assert WfRootMember(fs[n - 1], fs);
    }
  }

  /**
   * What is supported: members of fixed width or value, strings, and arrays of anything of fixed
   * size counted by a member; and any such struct without strings and arrays as a member or element.
   */
  lemma Supported(fs: seq<Field>, count: nat, inner: seq<Field>, width: nat, bytes: seq<byte>)
    requires WfRoot(fs) && WfRoot(inner) && forall i :: 0 <= i < |inner| ==> !IsVariable(inner[i])
    requires count < |fs| && fs[count].Plain? && 0 < width && 0 < SizeOf(Nested(inner))
    ensures WfRootMember(Plain(width), fs) && WfRootMember(Fixed(bytes), fs) && WfRootMember(Str, fs)
    ensures WfRootMember(Nested(inner), fs)
    ensures WfRootMember(Vla(count, Plain(width)), fs) && WfRootMember(Vla(count, Nested(inner)), fs)
  {
    NestFirst(inner, |inner|);
  }

  // ----------------------------------------------------------------------------------------
  // Values of a schema

  predicate TypedMember(f: Field, v: Value, vs: seq<Value>)
    decreases f, 0
  {
    match f
    case Plain(width) => v.Raw? && |v.bytes| == width
    case Fixed(_) => v.Raw?
    case Nested(members) => v.Struct? && |v.members| == |members| && TypedFirst(members, v.members, |members|)
    case Union(disc, _, cases) =>
      && v.Variant? && disc < |vs| && vs[disc].Raw?
      && var k := FindCase(cases, vs[disc].bytes);
         k < |cases| && TypedMember(cases[k].member, v.value, [])
    case Vla(count, elem) =>
      && v.Elements? && count < |vs| && vs[count].Raw? && |v.items| == ToNat(vs[count].bytes)
      && forall i :: 0 <= i < |v.items| ==> TypedMember(elem, v.items[i], [])
    case Str => v.Text? && (v.text.Some? ==> 0 !in v.text.value)
  }

  predicate TypedFirst(fs: seq<Field>, vs: seq<Value>, n: nat)
    requires n <= |fs| == |vs|
    decreases fs, n
  {
    n == 0 || (TypedFirst(fs, vs, n - 1) && TypedMember(fs[n - 1], vs[n - 1], vs))
  }

  predicate Typed(fs: seq<Field>, vs: seq<Value>) { |fs| == |vs| && TypedFirst(fs, vs, |fs|) }

  // ----------------------------------------------------------------------------------------
  // Encoding members of fixed size

  function EncodeMember(f: Field, v: Value, fs: seq<Field>, vs: seq<Value>): (b: seq<byte>)
    requires WfMember(f, fs) && TypedMember(f, v, vs)
    ensures |b| == SizeOf(f)
    decreases f, 0
  {
    match f
    case Plain(_) => v.bytes
    case Fixed(bytes) => bytes
    case Nested(members) => EncodeFirst(members, v.members, |members|)
    case Union(disc, size, cases) =>
      var k := FindCase(cases, vs[disc].bytes);
      EncodeMember(cases[k].member, v.value, [], []) + Zeros(size - SizeOf(cases[k].member))
  }

  function EncodeFirst(fs: seq<Field>, vs: seq<Value>, n: nat): (b: seq<byte>)
    requires n <= |fs| == |vs| && TypedFirst(fs, vs, n) && WfFirst(fs, n)
    ensures |b| == SizeOfFirst(fs, n)
    decreases fs, n
  {
    if n == 0 then [] else EncodeFirst(fs, vs, n - 1) + EncodeMember(fs[n - 1], vs[n - 1], fs, vs)
  }

  /** The elements of a variable-length array, one after the other. */
  function EncodeItems(elem: Field, items: seq<Value>, n: nat): (b: seq<byte>)
    requires n <= |items| && WfMember(elem, [])
    requires forall i :: 0 <= i < n ==> TypedMember(elem, items[i], [])
    ensures |b| == n * SizeOf(elem)
  {
    if n == 0 then [] else EncodeItems(elem, items, n - 1) + EncodeMember(elem, items[n - 1], [], [])
  }

  // ----------------------------------------------------------------------------------------
  // Decoding members of fixed size

  function Position(fs: seq<Field>, i: nat): nat
    requires i <= |fs|
  {
    SizeOfFirst(fs, i)
  }

  lemma {:induction false} PositionMonotone(fs: seq<Field>, i: nat, j: nat)
    requires i <= j <= |fs|
    ensures Position(fs, i) <= Position(fs, j)
    decreases j
  {
    if i < j { PositionMonotone(fs, i, j - 1); }
  }

  /** The bytes of member `i` in a packed struct. */
  function Part(fs: seq<Field>, b: seq<byte>, i: nat): (p: seq<byte>)
    requires i < |fs| && SizeOfFirst(fs, |fs|) <= |b|
    ensures |p| == SizeOf(fs[i])
  {
    PositionMonotone(fs, i + 1, |fs|);
    b[Position(fs, i)..Position(fs, i + 1)]
  }

  /**
   * Member `f` from its own bytes; `b` holds the whole struct, for the discriminator.  A discriminator that
   * selects nothing fails an assertion if the build has them (`checked`), and leaves the union zero if not.
   */
  function DecodeMember(checked: bool, f: Field, part: seq<byte>, fs: seq<Field>, b: seq<byte>): Outcome<Value>
    requires WfMember(f, fs) && |part| == SizeOf(f) && SizeOfFirst(fs, |fs|) <= |b|
    decreases f, 0
  {
    match f
    case Plain(_) => Decoded(Raw(part))
    case Fixed(bytes) => Decoded(Raw(bytes))
    case Nested(members) =>
      var vs := DecodeFirst(checked, members, part, |members|);
      if vs.Decoded? then Decoded(Struct(vs.value)) else vs.Fail()
    case Union(disc, _, cases) =>
      var k := FindCase(cases, Part(fs, b, disc));
      if k == |cases| then (if checked then Asserts else Decoded(Unselected))
      else
        var m := cases[k].member;
        var v := DecodeMember(checked, m, part[..SizeOf(m)], [], []);
        if v.Decoded? then Decoded(Variant(v.value)) else v.Fail()
  }

  function DecodeFirst(checked: bool, fs: seq<Field>, b: seq<byte>, n: nat): (r: Outcome<seq<Value>>)
    requires n <= |fs| && WfFirst(fs, n) && SizeOfFirst(fs, |fs|) <= |b|
    ensures r.Decoded? ==> |r.value| == n
    decreases fs, n
  {
    if n == 0 then Decoded([])
    else
      var front := DecodeFirst(checked, fs, b, n - 1);
      if !front.Decoded? then front
      else
        var last := DecodeMember(checked, fs[n - 1], Part(fs, b, n - 1), fs, b);
        if last.Decoded? then Decoded(front.value + [last.value]) else last.Fail()
  }

  // ----------------------------------------------------------------------------------------
  // What survives: fixed_value members take their value, everything else is kept

  function Canonical(f: Field, v: Value, vs: seq<Value>): Value
    requires TypedMember(f, v, vs)
    decreases f, 0
  {
    match f
    case Plain(_) => v
    case Fixed(bytes) => Raw(bytes)
    case Nested(members) => Struct(CanonicalFirst(members, v.members, |members|))
    case Union(disc, _, cases) =>
      var k := FindCase(cases, vs[disc].bytes);
      Variant(Canonical(cases[k].member, v.value, []))
    case Vla(_, elem) => Elements(CanonicalItems(elem, v.items, |v.items|))
    case Str => v
  }

  function CanonicalItems(elem: Field, items: seq<Value>, n: nat): (r: seq<Value>)
    requires n <= |items| && forall i :: 0 <= i < |items| ==> TypedMember(elem, items[i], [])
    ensures |r| == n
    decreases elem, n
  {
    if n == 0 then [] else CanonicalItems(elem, items, n - 1) + [Canonical(elem, items[n - 1], [])]
  }

  function CanonicalFirst(fs: seq<Field>, vs: seq<Value>, n: nat): (r: seq<Value>)
    requires n <= |fs| == |vs| && TypedFirst(fs, vs, n)
    ensures |r| == n
    decreases fs, n
  {
    if n == 0 then [] else CanonicalFirst(fs, vs, n - 1) + [Canonical(fs[n - 1], vs[n - 1], vs)]
  }

  // ----------------------------------------------------------------------------------------
  // Round trip of members of fixed size

  lemma {:induction false} TypedPrefix(fs: seq<Field>, vs: seq<Value>, i: nat, n: nat)
    requires i < n <= |fs| == |vs| && TypedFirst(fs, vs, n)
    ensures TypedFirst(fs, vs, i) && TypedMember(fs[i], vs[i], vs)
    decreases n
  {
    if i < n - 1 { TypedPrefix(fs, vs, i, n - 1); }
  }

  lemma {:induction false} WfPrefix(fs: seq<Field>, i: nat, n: nat)
    requires i < n <= |fs| && WfFirst(fs, n)
    ensures WfFirst(fs, i) && WfMember(fs[i], fs)
    decreases n
  {
    if i < n - 1 { WfPrefix(fs, i, n - 1); }
  }

  /** Encoding puts each member where decoding looks for it. */
  lemma {:induction false} PartOfEncoding(fs: seq<Field>, vs: seq<Value>, i: nat, n: nat, b: seq<byte>)
    requires i < n <= |fs| == |vs| && TypedFirst(fs, vs, n) && WfFirst(fs, n)
    requires WfMember(fs[i], fs) && TypedMember(fs[i], vs[i], vs)
    requires SizeOfFirst(fs, |fs|) <= |b| && EncodeFirst(fs, vs, n) <= b
    ensures Part(fs, b, i) == EncodeMember(fs[i], vs[i], fs, vs)
    decreases n
  {
    var front := EncodeFirst(fs, vs, n - 1);
    var last := EncodeMember(fs[n - 1], vs[n - 1], fs, vs);
    assert front <= front + last <= b;
    if i == n - 1 {
      assert b[|front|..|front| + |last|] == (front + last)[|front|..] == last;
    } else {
      PartOfEncoding(fs, vs, i, n - 1, b);
    }
  }

  lemma {:induction false} MemberRoundTrip(checked: bool, f: Field, v: Value, fs: seq<Field>, vs: seq<Value>,
                                           b: seq<byte>)
    requires WfMember(f, fs) && TypedMember(f, v, vs) && SizeOfFirst(fs, |fs|) <= |b|
    requires f.Union? ==> f.disc < |vs| && vs[f.disc].Raw? && Part(fs, b, f.disc) == vs[f.disc].bytes
    ensures DecodeMember(checked, f, EncodeMember(f, v, fs, vs), fs, b) == Decoded(Canonical(f, v, vs))
    decreases f, 0
  {
    match f
    case Plain(_) =>
    case Fixed(_) =>
    case Nested(members) =>
      StructRoundTrip(checked, members, v.members, |members|, EncodeFirst(members, v.members, |members|));
    case Union(disc, size, cases) =>
      var k := FindCase(cases, vs[disc].bytes);
      var m := cases[k].member;
      var inner := EncodeMember(m, v.value, [], []);
      MemberRoundTrip(checked, m, v.value, [], [], []);
      assert (inner + Zeros(size - SizeOf(m)))[..SizeOf(m)] == inner;
  }

  lemma {:induction false} StructRoundTrip(checked: bool, fs: seq<Field>, vs: seq<Value>, n: nat, b: seq<byte>)
    requires n <= |fs| == |vs| && TypedFirst(fs, vs, |fs|) && WfFirst(fs, |fs|)
    requires TypedFirst(fs, vs, n) && WfFirst(fs, n)
    requires EncodeFirst(fs, vs, |fs|) <= b
    ensures DecodeFirst(checked, fs, b, n) == Decoded(CanonicalFirst(fs, vs, n))
    decreases fs, n
  {
    if n > 0 {
      var i := n - 1;
      StructRoundTrip(checked, fs, vs, i, b);
      PartOfEncoding(fs, vs, i, |fs|, b);
      if fs[i].Union? {
        var d := fs[i].disc;
        TypedPrefix(fs, vs, d, |fs|);
        WfPrefix(fs, d, |fs|);
        PartOfEncoding(fs, vs, d, |fs|, b);
      }
      MemberRoundTrip(checked, fs[i], vs[i], fs, vs, b);
    }
  }

  // ----------------------------------------------------------------------------------------
  // Root structs: members of variable size live behind the struct, found through an offset

  ghost predicate RootOk(fs: seq<Field>, vs: seq<Value>) { WfRoot(fs) && Typed(fs, vs) }

  /** What a member puts behind the struct. */
  function Tail(f: Field, v: Value, fs: seq<Field>, vs: seq<Value>): seq<byte>
    requires WfRootMember(f, fs) && TypedMember(f, v, vs)
  {
    match f
    case Vla(_, elem) => EncodeItems(elem, v.items, |v.items|)
    case Str => if v.text.None? then [] else v.text.value + [0]
    case _ => []
  }

  function TailFirst(fs: seq<Field>, vs: seq<Value>, n: nat): seq<byte>
    requires n <= |fs| == |vs| && WfRoot(fs) && TypedFirst(fs, vs, n)
  {
    if n == 0 then [] else TailFirst(fs, vs, n - 1) + Tail(fs[n - 1], vs[n - 1], fs, vs)
  }

  /** Where the variable part of member `i` starts, counted from the start of the struct. */
  function TailOffset(fs: seq<Field>, vs: seq<Value>, i: nat): nat
    requires i <= |fs| == |vs| && WfRoot(fs) && TypedFirst(fs, vs, i)
  {
    SizeOfFirst(fs, |fs|) + |TailFirst(fs, vs, i)|
  }

  /** The whole message fits a 16-bit length. */
  ghost predicate Fits(fs: seq<Field>, vs: seq<Value>)
    requires RootOk(fs, vs)
  {
    TailOffset(fs, vs, |fs|) < 0x1_0000
  }

  lemma {:induction false} TailMonotone(fs: seq<Field>, vs: seq<Value>, i: nat, j: nat)
    requires i <= j <= |fs| == |vs| && WfRoot(fs) && TypedFirst(fs, vs, i) && TypedFirst(fs, vs, j)
    ensures TailFirst(fs, vs, i) <= TailFirst(fs, vs, j)
    decreases j
  {
    hide Tail, SizeOf, WfMember, TypedMember;
    if i < j {
      TailMonotone(fs, vs, i, j - 1);
    }
  }

  /** The bytes of member `i` inside the struct. */
  function RootMember(fs: seq<Field>, vs: seq<Value>, i: nat): (b: seq<byte>)
    requires i < |fs| == |vs| && WfRoot(fs) && TypedFirst(fs, vs, i) && TypedMember(fs[i], vs[i], vs)
    requires TailOffset(fs, vs, i) + |Tail(fs[i], vs[i], fs, vs)| < 0x1_0000
    ensures |b| == SizeOf(fs[i])
  {
    if IsVariable(fs[i]) then
      var data := Tail(fs[i], vs[i], fs, vs);
      Le16(if data == [] then 0 else TailOffset(fs, vs, i)) + Le16(|data|)
    else EncodeMember(fs[i], vs[i], fs, vs)
  }

  function RootFirst(fs: seq<Field>, vs: seq<Value>, n: nat): (b: seq<byte>)
    requires n <= |fs| == |vs| && WfRoot(fs) && TypedFirst(fs, vs, n)
    requires TailOffset(fs, vs, n) < 0x1_0000
    ensures |b| == SizeOfFirst(fs, n)
  {
    if n == 0 then [] else RootFirst(fs, vs, n - 1) + RootMember(fs, vs, n - 1)
  }

  function EncodeRoot(fs: seq<Field>, vs: seq<Value>): seq<byte>
    requires RootOk(fs, vs) && Fits(fs, vs)
  {
    RootFirst(fs, vs, |fs|) + TailFirst(fs, vs, |fs|)
  }

  /** What the generated size function adds for one member. */
  function TailSize(f: Field, v: Value, vs: seq<Value>): nat
    requires TypedMember(f, v, vs)
  {
    match f
    case Vla(count, elem) => ToNat(vs[count].bytes) * SizeOf(elem)
    case Str => if v.text.None? then 0 else |v.text.value| + 1
    case _ => 0
  }

  lemma TailSizeIsLength(f: Field, v: Value, fs: seq<Field>, vs: seq<Value>)
    requires WfRootMember(f, fs) && TypedMember(f, v, vs)
    ensures |Tail(f, v, fs, vs)| == TailSize(f, v, vs)
  {
  }

  // ----------------------------------------------------------------------------------------
  // Decoding root structs

  function DecodeItems(checked: bool, elem: Field, b: seq<byte>, n: nat): (r: Outcome<seq<Value>>)
    requires WfMember(elem, []) && n * SizeOf(elem) <= |b|
    ensures r.Decoded? ==> |r.value| == n
  {
    if n == 0 then Decoded([])
    else
      ItemsFit(n, SizeOf(elem));
      var front := DecodeItems(checked, elem, b, n - 1);
      if !front.Decoded? then front
      else
        var last := DecodeMember(checked, elem, b[(n - 1) * SizeOf(elem)..n * SizeOf(elem)], [], []);
        if last.Decoded? then Decoded(front.value + [last.value]) else last.Fail()
  }

  lemma ItemsFit(n: nat, size: nat)
    requires n > 0
    ensures n * size == (n - 1) * size + size
  {
  }

  /** Text up to its terminator. */
  function CString(s: seq<byte>): seq<byte> {
    if s == [] || s[0] == 0 then [] else [s[0]] + CString(s[1..])
  }

  /** Arrays are checked against the input, strings are not. */
  function DecodeRootMember(checked: bool, fs: seq<Field>, b: seq<byte>, i: nat): Outcome<Value>
    requires i < |fs| && WfRoot(fs) && SizeOfFirst(fs, |fs|) <= |b|
  {
    var part := Part(fs, b, i);
    match fs[i]
    case Vla(count, elem) =>
      var offset, length := FromLe16(part[..2]), FromLe16(part[2..]);
      var n := ToNat(Part(fs, b, count));
      if length == 0 then Decoded(Elements([]))
      else if offset as nat + length as nat > |b| || length != n * SizeOf(elem) then Rejected
      else
        var items := DecodeItems(checked, elem, b[offset..offset as nat + length as nat], n);
        if items.Decoded? then Decoded(Elements(items.value)) else items.Fail()
    case Str =>
      var offset, length := FromLe16(part[..2]), FromLe16(part[2..]);
      if length == 0 then Decoded(Text(None))
      else if offset as nat + length as nat > |b| then ReadsPast
      else Decoded(Text(Some(CString(b[offset..offset as nat + length as nat]))))
    case _ => DecodeMember(checked, fs[i], part, fs, b)
  }

  function DecodeRootFirst(checked: bool, fs: seq<Field>, b: seq<byte>, n: nat): (r: Outcome<seq<Value>>)
    requires n <= |fs| && WfRoot(fs) && SizeOfFirst(fs, |fs|) <= |b|
    ensures r.Decoded? ==> |r.value| == n
  {
    if n == 0 then Decoded([])
    else
      var front := DecodeRootFirst(checked, fs, b, n - 1);
      if !front.Decoded? then front
      else
        var last := DecodeRootMember(checked, fs, b, n - 1);
        if last.Decoded? then Decoded(front.value + [last.value]) else last.Fail()
  }

  function DecodeRoot(checked: bool, fs: seq<Field>, b: seq<byte>): Outcome<seq<Value>>
    requires WfRoot(fs)
  {
    if |b| < SizeOfFirst(fs, |fs|) then Rejected else DecodeRootFirst(checked, fs, b, |fs|)
  }

  // ----------------------------------------------------------------------------------------
  // Round trip of root structs

  lemma {:induction false} RootPart(fs: seq<Field>, vs: seq<Value>, i: nat, n: nat, b: seq<byte>)
    requires i < n <= |fs| == |vs| && WfRoot(fs) && TypedFirst(fs, vs, n) && TailOffset(fs, vs, n) < 0x1_0000
    requires TypedFirst(fs, vs, i) && TypedMember(fs[i], vs[i], vs)
    requires TailOffset(fs, vs, i) + |Tail(fs[i], vs[i], fs, vs)| < 0x1_0000
    requires SizeOfFirst(fs, |fs|) <= |b| && RootFirst(fs, vs, n) <= b
    ensures Part(fs, b, i) == RootMember(fs, vs, i)
    decreases n
  {
    hide SizeOf, Tail, RootMember, WfRootMember, TypedMember;
    var front := RootFirst(fs, vs, n - 1);
    var last := RootMember(fs, vs, n - 1);
    assert front <= front + last <= b;
    if i == n - 1 {
      assert b[|front|..|front| + |last|] == (front + last)[|front|..] == last;
    } else {
      RootPart(fs, vs, i, n - 1, b);
    }
  }

  lemma {:induction false} ItemsRoundTrip(checked: bool, elem: Field, items: seq<Value>, n: nat, b: seq<byte>)
    requires WfMember(elem, []) && (elem.Plain? || elem.Nested?) && n <= |items|
    requires forall i :: 0 <= i < |items| ==> TypedMember(elem, items[i], [])
    requires EncodeItems(elem, items, n) <= b
    ensures DecodeItems(checked, elem, b, n) == Decoded(CanonicalItems(elem, items, n))
    decreases n
  {
    if n > 0 {
      var front := EncodeItems(elem, items, n - 1);
      var last := EncodeMember(elem, items[n - 1], [], []);
      assert front <= front + last <= b;
      ItemsRoundTrip(checked, elem, items, n - 1, b);
      ItemsFit(n, SizeOf(elem));
      assert b[(n - 1) * SizeOf(elem)..n * SizeOf(elem)] == (front + last)[|front|..] == last;
      MemberRoundTrip(checked, elem, items[n - 1], [], [], []);
    }
  }

  lemma {:induction false} CStringRoundTrip(s: seq<byte>)
    requires 0 !in s
    ensures CString(s + [0]) == s
  {
    if s != [] {
      CStringRoundTrip(s[1..]);
      assert (s + [0])[1..] == s[1..] + [0];
    }
  }

  /** The variable part of member `i` lies at the offset recorded for it. */
  lemma TailAt(fs: seq<Field>, vs: seq<Value>, i: nat, b: seq<byte>)
    requires i < |fs| && RootOk(fs, vs) && Fits(fs, vs) && b == EncodeRoot(fs, vs)
    ensures TypedFirst(fs, vs, i) && TypedFirst(fs, vs, i + 1) && TypedMember(fs[i], vs[i], vs)
    ensures var data := Tail(fs[i], vs[i], fs, vs);
            var offset := TailOffset(fs, vs, i);
            offset + |data| <= |b| && offset + |data| < 0x1_0000 && b[offset..offset + |data|] == data
  {
    hide SizeOfFirst, Tail, RootMember, RootFirst, WfRootMember, TypedMember, TailFirst;
    TypedPrefix(fs, vs, i, |fs|);
    if i + 1 < |fs| { TypedPrefix(fs, vs, i + 1, |fs|); }
    TailStep(fs, vs, i);
    var all := TailFirst(fs, vs, |fs|);
    var front := TailFirst(fs, vs, i);
    var data := Tail(fs[i], vs[i], fs, vs);
    TailMonotone(fs, vs, i + 1, |fs|);
    SliceBehind(RootFirst(fs, vs, |fs|), all, front, data);
  }

  lemma TailStep(fs: seq<Field>, vs: seq<Value>, i: nat)
    requires i < |fs| == |vs| && WfRoot(fs) && TypedFirst(fs, vs, i) && TypedFirst(fs, vs, i + 1)
    requires TypedMember(fs[i], vs[i], vs)
    ensures TailFirst(fs, vs, i + 1) == TailFirst(fs, vs, i) + Tail(fs[i], vs[i], fs, vs)
  {
    hide Tail, TypedMember;
  }

  lemma SliceBehind(struct: seq<byte>, all: seq<byte>, front: seq<byte>, data: seq<byte>)
    requires front + data <= all
    ensures var at := |struct| + |front|;
            at + |data| <= |struct + all| && (struct + all)[at..at + |data|] == data
  {
    assert all == front + data + all[|front| + |data|..];
  }

  lemma RootVlaRoundTrip(checked: bool, fs: seq<Field>, vs: seq<Value>, i: nat, b: seq<byte>)
    requires i < |fs| && RootOk(fs, vs) && Fits(fs, vs) && b == EncodeRoot(fs, vs)
    requires fs[i].Vla? && TypedMember(fs[i], vs[i], vs)
    ensures DecodeRootMember(checked, fs, b, i) == Decoded(Canonical(fs[i], vs[i], vs))
  {
    hide SizeOfFirst, EncodeItems, DecodeItems, EncodeMember, DecodeMember, TailFirst, RootFirst,
         CanonicalFirst, CanonicalItems;
    TailAt(fs, vs, i, b);
    RootPart(fs, vs, i, |fs|, b);
    var part := Part(fs, b, i);
    var data := Tail(fs[i], vs[i], fs, vs);
    assert part[..2] == Le16(if data == [] then 0 else TailOffset(fs, vs, i)) && part[2..] == Le16(|data|);
    PlainPart(fs, vs, fs[i].count, b);
    VlaRoundTrip(checked, fs[i].elem, vs[i].items, data);
  }

  lemma RootMemberRoundTrip(checked: bool, fs: seq<Field>, vs: seq<Value>, i: nat, b: seq<byte>)
    requires i < |fs| && RootOk(fs, vs) && Fits(fs, vs) && b == EncodeRoot(fs, vs)
    requires TypedMember(fs[i], vs[i], vs)
    ensures DecodeRootMember(checked, fs, b, i) == Decoded(Canonical(fs[i], vs[i], vs))
  {
    hide SizeOfFirst, EncodeItems, DecodeItems, EncodeMember, DecodeMember, TailFirst, RootFirst,
         CanonicalFirst, CanonicalItems;
    TailAt(fs, vs, i, b);
    RootPart(fs, vs, i, |fs|, b);
    var part := Part(fs, b, i);
    var data := Tail(fs[i], vs[i], fs, vs);
    match fs[i]
    case Vla(count, elem) =>
      RootVlaRoundTrip(checked, fs, vs, i, b);
    case Str =>
      assert part[..2] == Le16(if data == [] then 0 else TailOffset(fs, vs, i)) && part[2..] == Le16(|data|);
      if vs[i].text.Some? { CStringRoundTrip(vs[i].text.value); }
    case Union(disc, _, _) =>
      PlainPart(fs, vs, disc, b);
      MemberRoundTrip(checked, fs[i], vs[i], fs, vs, b);
    case _ =>
      MemberRoundTrip(checked, fs[i], vs[i], fs, vs, b);
  }

  lemma VlaRoundTrip(checked: bool, elem: Field, items: seq<Value>, data: seq<byte>)
    requires WfMember(elem, []) && (elem.Plain? || elem.Nested?) && SizeOf(elem) > 0
    requires forall i :: 0 <= i < |items| ==> TypedMember(elem, items[i], [])
    requires data == EncodeItems(elem, items, |items|)
    ensures |data| == |items| * SizeOf(elem)
    ensures data == [] <==> items == []
    ensures DecodeItems(checked, elem, data, |items|) == Decoded(CanonicalItems(elem, items, |items|))
  {
    ItemsRoundTrip(checked, elem, items, |items|, data);
    if items != [] { ItemsFit(|items|, SizeOf(elem)); }
  }

  lemma PlainPart(fs: seq<Field>, vs: seq<Value>, i: nat, b: seq<byte>)
    requires i < |fs| && RootOk(fs, vs) && Fits(fs, vs) && b == EncodeRoot(fs, vs)
    requires fs[i].Plain?
    ensures vs[i].Raw? && Part(fs, b, i) == vs[i].bytes
  {
    TailAt(fs, vs, i, b);
    RootPart(fs, vs, i, |fs|, b);
  }

  lemma {:induction false} RootFirstRoundTrip(checked: bool, fs: seq<Field>, vs: seq<Value>, n: nat, b: seq<byte>)
    requires n <= |fs| && RootOk(fs, vs) && Fits(fs, vs) && b == EncodeRoot(fs, vs) && TypedFirst(fs, vs, n)
    ensures DecodeRootFirst(checked, fs, b, n) == Decoded(CanonicalFirst(fs, vs, n))
    decreases n
  {
    if n > 0 {
      RootFirstRoundTrip(checked, fs, vs, n - 1, b);
      RootMemberRoundTrip(checked, fs, vs, n - 1, b);
    }
  }

  /**
   * Decoding what was encoded gives the value back, with fixed_value members at their fixed value,
   * for every supported schema and every value of it that fits 16 bits.
   */
  lemma RoundTrip(checked: bool, fs: seq<Field>, vs: seq<Value>)
    requires RootOk(fs, vs) && Fits(fs, vs)
    ensures DecodeRoot(checked, fs, EncodeRoot(fs, vs)) == Decoded(CanonicalFirst(fs, vs, |fs|))
  {
    RootFirstRoundTrip(checked, fs, vs, |fs|, EncodeRoot(fs, vs));
  }

  /** The variable parts lie behind the struct and do not overlap. */
  lemma TailsDisjoint(fs: seq<Field>, vs: seq<Value>, i: nat, j: nat)
    requires i < j < |fs| && RootOk(fs, vs) && Fits(fs, vs)
    ensures TypedFirst(fs, vs, i) && TypedFirst(fs, vs, j) && TypedMember(fs[i], vs[i], vs)
    ensures SizeOfFirst(fs, |fs|) <= TailOffset(fs, vs, i)
    ensures TailOffset(fs, vs, i) + |Tail(fs[i], vs[i], fs, vs)| <= TailOffset(fs, vs, j)
  {
    hide SizeOfFirst, Tail, TailFirst, WfRootMember, TypedMember, TypedFirst;
    TypedStep(fs, vs, i);
    TypedStep(fs, vs, j);
    TailStep(fs, vs, i);
    TailMonotone(fs, vs, i + 1, j);
  }

  /** Inside an encoded union, the bytes past the selected member are zero. */
  lemma InactiveUnionBytesZero(f: Field, v: Value, fs: seq<Field>, vs: seq<Value>, i: nat)
    requires f.Union? && WfMember(f, fs) && TypedMember(f, v, vs)
    requires SizeOf(f.cases[FindCase(f.cases, vs[f.disc].bytes)].member) <= i < f.size
    ensures EncodeMember(f, v, fs, vs)[i] == 0
  {
  }

  // ----------------------------------------------------------------------------------------
  // How decoding ends

  /** Every union in the member has a discriminator that selects one of its members. */
  ghost predicate Selected(f: Field, part: seq<byte>, fs: seq<Field>, b: seq<byte>)
    requires WfMember(f, fs) && |part| == SizeOf(f) && SizeOfFirst(fs, |fs|) <= |b|
    decreases f
  {
    match f
    case Plain(_) => true
    case Fixed(_) => true
    case Nested(members) =>
      forall i :: 0 <= i < |members| ==>
        (WfPrefix(members, i, |members|); Selected(members[i], Part(members, part, i), members, part))
    case Union(disc, _, cases) =>
      var k := FindCase(cases, Part(fs, b, disc));
      k < |cases| && Selected(cases[k].member, part[..SizeOf(cases[k].member)], [], [])
  }

  /** A member of fixed size is always decoded, unless an assertion fails. */
  lemma {:induction false} MemberEnds(checked: bool, f: Field, part: seq<byte>, fs: seq<Field>, b: seq<byte>)
    requires WfMember(f, fs) && |part| == SizeOf(f) && SizeOfFirst(fs, |fs|) <= |b|
    ensures var r := DecodeMember(checked, f, part, fs, b);
            if checked && !Selected(f, part, fs, b) then r == Asserts else r.Decoded?
    decreases f, 0
  {
    match f
    case Plain(_) =>
    case Fixed(_) =>
    case Nested(members) => FirstEnds(checked, members, part, |members|);
    case Union(disc, _, cases) =>
      var k := FindCase(cases, Part(fs, b, disc));
      if k < |cases| {
        MemberEnds(checked, cases[k].member, part[..SizeOf(cases[k].member)], [], []);
      }
  }

  lemma {:induction false} FirstEnds(checked: bool, fs: seq<Field>, b: seq<byte>, n: nat)
    requires n <= |fs| && WfFirst(fs, |fs|) && WfFirst(fs, n) && SizeOfFirst(fs, |fs|) <= |b|
    ensures var r := DecodeFirst(checked, fs, b, n);
            if checked && !FirstSelected(fs, b, n) then r == Asserts else r.Decoded?
    decreases fs, n
  {
    hide SizeOf, SizeOfFirst, DecodeMember, Selected, WfMember, Part;
    if n > 0 {
      FirstEnds(checked, fs, b, n - 1);
      MemberEnds(checked, fs[n - 1], Part(fs, b, n - 1), fs, b);
    }
  }

  ghost predicate FirstSelected(fs: seq<Field>, b: seq<byte>, n: nat)
    requires n <= |fs| && WfFirst(fs, |fs|) && SizeOfFirst(fs, |fs|) <= |b|
  {
    forall i :: 0 <= i < n ==> (WfPrefix(fs, i, |fs|); Selected(fs[i], Part(fs, b, i), fs, b))
  }

  function Item(elem: Field, b: seq<byte>, i: nat): (part: seq<byte>)
    requires (i + 1) * SizeOf(elem) <= |b|
    ensures |part| == SizeOf(elem)
  {
    ItemsFit(i + 1, SizeOf(elem));
    b[i * SizeOf(elem)..(i + 1) * SizeOf(elem)]
  }

  lemma ItemsMonotone(i: nat, n: nat, size: nat)
    requires i <= n
    ensures i * size <= n * size
  {
  }

  ghost predicate ItemsSelected(elem: Field, b: seq<byte>, n: nat)
    requires WfMember(elem, []) && n * SizeOf(elem) <= |b|
  {
    forall i :: 0 <= i < n ==> (ItemsMonotone(i + 1, n, SizeOf(elem)); Selected(elem, Item(elem, b, i), [], []))
  }

  lemma NoItems(elem: Field, b: seq<byte>)
    requires WfMember(elem, [])
    ensures ItemsSelected(elem, b, 0)
  {
  }

  lemma ItemsSelectedStep(elem: Field, b: seq<byte>, n: nat)
    requires WfMember(elem, []) && 0 < n && n * SizeOf(elem) <= |b|
    ensures (n - 1) * SizeOf(elem) <= |b|
    ensures ItemsSelected(elem, b, n) <==>
            ItemsSelected(elem, b, n - 1) && Selected(elem, Item(elem, b, n - 1), [], [])
  {
    hide Selected, WfMember, SizeOf, Item;
    ItemsMonotone(n - 1, n, SizeOf(elem));
  }

  lemma {:induction false} ItemsEnd(checked: bool, elem: Field, b: seq<byte>, n: nat)
    requires WfMember(elem, []) && n * SizeOf(elem) <= |b|
    ensures var r := DecodeItems(checked, elem, b, n);
            if checked && !ItemsSelected(elem, b, n) then r == Asserts else r.Decoded?
  {
    hide Selected, WfMember, SizeOf, ItemsSelected, DecodeMember;
    if n == 0 {
      NoItems(elem, b);
    } else {
      ItemsFit(n, SizeOf(elem));
      ItemsSelectedStep(elem, b, n);
      ItemsEnd(checked, elem, b, n - 1);
      MemberEnds(checked, elem, Item(elem, b, n - 1), [], []);
    }
  }

  /** Where the data of an array or string is said to be. */
  function Extent(fs: seq<Field>, b: seq<byte>, i: nat): (nat, nat)
    requires i < |fs| && SizeOfFirst(fs, |fs|) <= |b| && IsVariable(fs[i])
  {
    var part := Part(fs, b, i);
    (FromLe16(part[..2]) as nat, FromLe16(part[2..]) as nat)
  }

  /** Member `i` says it has data that does not lie within the input. */
  predicate Outside(fs: seq<Field>, b: seq<byte>, i: nat)
    requires i < |fs| && SizeOfFirst(fs, |fs|) <= |b|
  {
    IsVariable(fs[i]) && Extent(fs, b, i).1 > 0 && Extent(fs, b, i).0 + Extent(fs, b, i).1 > |b|
  }

  /** An array whose size is not what its count says. */
  predicate Miscounted(fs: seq<Field>, b: seq<byte>, i: nat)
    requires i < |fs| && WfRoot(fs) && SizeOfFirst(fs, |fs|) <= |b|
  {
    && fs[i].Vla? && Extent(fs, b, i).1 > 0
    && Extent(fs, b, i).1 != ToNat(Part(fs, b, fs[i].count)) * SizeOf(fs[i].elem)
  }

  predicate BadArray(fs: seq<Field>, b: seq<byte>, i: nat)
    requires i < |fs| && WfRoot(fs) && SizeOfFirst(fs, |fs|) <= |b|
  {
    fs[i].Vla? && (Outside(fs, b, i) || Miscounted(fs, b, i))
  }

  predicate BadString(fs: seq<Field>, b: seq<byte>, i: nat)
    requires i < |fs| && SizeOfFirst(fs, |fs|) <= |b|
  {
    fs[i].Str? && Outside(fs, b, i)
  }

  /** A union in member `i`, or in an element of it, whose discriminator selects nothing. */
  ghost predicate BadUnion(fs: seq<Field>, b: seq<byte>, i: nat)
    requires i < |fs| && WfRoot(fs) && SizeOfFirst(fs, |fs|) <= |b|
  {
    match fs[i]
    case Str => false
    case Vla(count, elem) =>
      var (offset, length) := Extent(fs, b, i);
      && length > 0 && !BadArray(fs, b, i)
      && !ItemsSelected(elem, b[offset..offset + length], ToNat(Part(fs, b, count)))
    case _ => !Selected(fs[i], Part(fs, b, i), fs, b)
  }

  ghost predicate EndsAs(checked: bool, fs: seq<Field>, b: seq<byte>, i: nat, r: Outcome<Value>)
    requires i < |fs| && WfRoot(fs) && SizeOfFirst(fs, |fs|) <= |b|
  {
    && (r == Rejected <==> BadArray(fs, b, i))
    && (r == ReadsPast <==> BadString(fs, b, i))
    && (r == Asserts <==> checked && BadUnion(fs, b, i))
  }

  lemma ArrayEnds(checked: bool, fs: seq<Field>, b: seq<byte>, i: nat)
    requires i < |fs| && WfRoot(fs) && SizeOfFirst(fs, |fs|) <= |b| && fs[i].Vla?
    ensures EndsAs(checked, fs, b, i, DecodeRootMember(checked, fs, b, i))
  {
    hide SizeOf, SizeOfFirst, DecodeItems, Selected, ItemsSelected, Part, ToNat, WfMember;
    var (offset, length) := Extent(fs, b, i);
    if length > 0 && !BadArray(fs, b, i) {
      ItemsEnd(checked, fs[i].elem, b[offset..offset + length], ToNat(Part(fs, b, fs[i].count)));
    }
  }

  lemma RootMemberEnds(checked: bool, fs: seq<Field>, b: seq<byte>, i: nat)
    requires i < |fs| && WfRoot(fs) && SizeOfFirst(fs, |fs|) <= |b|
    ensures EndsAs(checked, fs, b, i, DecodeRootMember(checked, fs, b, i))
  {
    hide SizeOfFirst, DecodeItems, DecodeMember, Selected, ItemsSelected, Part, ToNat;
    if fs[i].Vla? {
      ArrayEnds(checked, fs, b, i);
    } else if !fs[i].Str? {
      MemberEnds(checked, fs[i], Part(fs, b, i), fs, b);
    }
  }

  ghost predicate Bad(checked: bool, fs: seq<Field>, b: seq<byte>, i: nat)
    requires i < |fs| && WfRoot(fs) && SizeOfFirst(fs, |fs|) <= |b|
  {
    BadArray(fs, b, i) || BadString(fs, b, i) || (checked && BadUnion(fs, b, i))
  }

  /** Member `i` is the first that cannot be decoded. */
  ghost predicate FirstBad(checked: bool, fs: seq<Field>, b: seq<byte>, i: nat)
    requires i < |fs| && WfRoot(fs) && SizeOfFirst(fs, |fs|) <= |b|
  {
    Bad(checked, fs, b, i) && forall j :: 0 <= j < i ==> !Bad(checked, fs, b, j)
  }

  /** The first member that cannot be decoded decides how decoding ends. */
  lemma {:induction false} RootFirstEnds(checked: bool, fs: seq<Field>, b: seq<byte>, n: nat)
    requires n <= |fs| && WfRoot(fs) && SizeOfFirst(fs, |fs|) <= |b|
    ensures DecodeRootFirst(checked, fs, b, n).Decoded? <==> forall i :: 0 <= i < n ==> !Bad(checked, fs, b, i)
    ensures forall i :: 0 <= i < n && FirstBad(checked, fs, b, i) ==>
              && !DecodeRootMember(checked, fs, b, i).Decoded?
              && DecodeRootFirst(checked, fs, b, n) == DecodeRootMember(checked, fs, b, i).Fail()
    decreases n
  {
    hide SizeOfFirst, BadArray, BadString, BadUnion, DecodeRootMember;
    forall i | 0 <= i < n
      ensures DecodeRootMember(checked, fs, b, i).Decoded? <==> !Bad(checked, fs, b, i)
    {
      RootMemberEnds(checked, fs, b, i);
    }
    if n > 0 {
      RootFirstEnds(checked, fs, b, n - 1);
    }
  }

  lemma {:induction false} FindFirstBad(checked: bool, fs: seq<Field>, b: seq<byte>, n: nat) returns (i: nat)
    requires n < |fs| && WfRoot(fs) && SizeOfFirst(fs, |fs|) <= |b| && Bad(checked, fs, b, n)
    ensures i <= n && FirstBad(checked, fs, b, i)
  {
    hide Bad;
    if j :| 0 <= j < n && Bad(checked, fs, b, j) {
      i := FindFirstBad(checked, fs, b, j);
    } else {
      i := n;
    }
  }

  /**
   * The end that decoding comes to, exactly: a value if the struct fits the input and nothing in it is bad;
   * otherwise, what the first bad member brings about.
   */
  lemma DecodeEnds(checked: bool, fs: seq<Field>, b: seq<byte>)
    requires WfRoot(fs)
    ensures var r := DecodeRoot(checked, fs, b); var fits := SizeOfFirst(fs, |fs|) <= |b|;
            && (r.Decoded? <==> fits && forall i :: 0 <= i < |fs| ==> !Bad(checked, fs, b, i))
            && (r == Rejected <==>
                  !fits || exists i :: 0 <= i < |fs| && FirstBad(checked, fs, b, i) && BadArray(fs, b, i))
            && (r == ReadsPast <==>
                  fits && exists i :: 0 <= i < |fs| && FirstBad(checked, fs, b, i) && BadString(fs, b, i))
            && (r == Asserts <==>
                  fits && checked
                  && exists i :: 0 <= i < |fs| && FirstBad(checked, fs, b, i) && BadUnion(fs, b, i))
  {
    hide SizeOfFirst, BadArray, BadString, BadUnion, DecodeRootMember, DecodeRootFirst;
    if SizeOfFirst(fs, |fs|) <= |b| {
      RootFirstEnds(checked, fs, b, |fs|);
      forall i | 0 <= i < |fs|
        ensures EndsAs(checked, fs, b, i, DecodeRootMember(checked, fs, b, i))
      {
        RootMemberEnds(checked, fs, b, i);
      }
      if k :| 0 <= k < |fs| && Bad(checked, fs, b, k) {
        var i := FindFirstBad(checked, fs, b, k);
        assert DecodeRootFirst(checked, fs, b, |fs|) == DecodeRootMember(checked, fs, b, i).Fail();
        forall j | 0 <= j < |fs| && FirstBad(checked, fs, b, j)
          ensures j == i
        {
        }
      }
    }
  }

  /** Four bytes of input that say a string of one byte follows are read past their end. */
  lemma StringReadsPast(checked: bool)
    ensures WfRoot([Str]) && DecodeRoot(checked, [Str], [4, 0, 1, 0]) == ReadsPast
  {
    var fs, b: seq<byte> := [Str], [4, 0, 1, 0];
    assert SizeOfFirst(fs, 1) == SizeOfFirst(fs, 0) + SizeOf(fs[0]) == 4;
    assert Part(fs, b, 0) == b;
    assert b[..2] == [4, 0] && b[2..] == [1, 0];
    assert Extent(fs, b, 0) == (4, 1);
    assert BadString(fs, b, 0) && FirstBad(checked, fs, b, 0);
    DecodeEnds(checked, fs, b);
  }

  /** A discriminator that selects nothing fails an assertion, or passes for a union that is zero. */
  lemma UnknownDiscriminator(checked: bool)
    ensures var fs := [Plain(1), Union(0, 1, [Case([1], Plain(1))])];
            && WfRoot(fs)
            && DecodeRoot(checked, fs, [2, 7]) == if checked then Asserts else Decoded([Raw([2]), Unselected])
  {
    var u := Union(0, 1, [Case([1], Plain(1))]);
    var fs, b: seq<byte> := [Plain(1), u], [2, 7];
    assert SizeOfFirst(fs, 1) == SizeOfFirst(fs, 0) + SizeOf(fs[0]) == 1;
    assert SizeOfFirst(fs, 2) == SizeOfFirst(fs, 1) + SizeOf(fs[1]) == 2;
    assert Part(fs, b, 0) == [2];
    assert FindCase(u.cases, [2]) == 1 by {
      assert u.cases[1..] == [];
    }
    assert DecodeRootMember(checked, fs, b, 0) == Decoded(Raw([2]));
    assert DecodeRootFirst(checked, fs, b, 0) == Decoded([]);
    assert DecodeRootFirst(checked, fs, b, 1) == Decoded([] + [Raw([2])]);
    assert DecodeRootMember(checked, fs, b, 1) == if checked then Asserts else Decoded(Unselected);
    assert [] + [Raw([2])] + [Unselected] == [Raw([2]), Unselected];
  }

  // ----------------------------------------------------------------------------------------
  // The emitted functions

  /** A member's bytes go into the struct at `at`, its variable part behind the earlier ones. */
  method WriteMember(payload: array<byte>, at: nat, member: seq<byte>, base: nat, vlaOffset: nat, data: seq<byte>)
    requires at + |member| <= base <= vlaOffset && vlaOffset + |data| <= payload.Length
    modifies payload
    ensures payload[..at + |member|] == old(payload[..at]) + member
    ensures payload[base..vlaOffset + |data|] == old(payload[base..vlaOffset]) + data
  {
    forall i | 0 <= i < |member| {
      payload[at + i] := member[i];
    }
    forall i | 0 <= i < |data| {
      payload[vlaOffset + i] := data[i];
    }
  }

  /** The generated size function: header, struct, and the variable part of every member. */
  method EncodedSize(fs: seq<Field>, vs: seq<Value>, headerSize: nat) returns (encodedSize: nat)
    requires RootOk(fs, vs)
    ensures encodedSize == headerSize + TailOffset(fs, vs, |fs|)
  {
    encodedSize := headerSize + SizeOfFirst(fs, |fs|);
    for i := 0 to |fs|
      invariant TypedFirst(fs, vs, i)
      invariant encodedSize == headerSize + TailOffset(fs, vs, i)
    {
      hide SizeOfFirst, Tail, TailSize, WfRootMember, TypedMember;
      TypedStep(fs, vs, i);
      TailSizeIsLength(fs[i], vs[i], fs, vs);
      encodedSize := encodedSize + TailSize(fs[i], vs[i], vs);
    }
  }

  lemma TypedStep(fs: seq<Field>, vs: seq<Value>, i: nat)
    requires Typed(fs, vs) && i < |fs|
    ensures TypedMember(fs[i], vs[i], vs) && TypedFirst(fs, vs, i) && TypedFirst(fs, vs, i + 1)
  {
    TypedPrefix(fs, vs, i, |fs|);
    if i + 1 < |fs| { TypedPrefix(fs, vs, i + 1, |fs|); }
  }

  /** The 16-bit offset stays in range, and the member is where the next tail starts. */
  lemma EncodeStep(fs: seq<Field>, vs: seq<Value>, i: nat)
    requires RootOk(fs, vs) && Fits(fs, vs) && i < |fs|
    ensures TypedMember(fs[i], vs[i], vs) && TypedFirst(fs, vs, i) && TypedFirst(fs, vs, i + 1)
    ensures TailOffset(fs, vs, i) + |Tail(fs[i], vs[i], fs, vs)| == TailOffset(fs, vs, i + 1)
    ensures TailOffset(fs, vs, i + 1) <= TailOffset(fs, vs, |fs|)
    ensures Position(fs, i) + SizeOf(fs[i]) == Position(fs, i + 1) <= SizeOfFirst(fs, |fs|)
    ensures TailFirst(fs, vs, i + 1) == TailFirst(fs, vs, i) + Tail(fs[i], vs[i], fs, vs)
    ensures RootFirst(fs, vs, i + 1) == RootFirst(fs, vs, i) + RootMember(fs, vs, i)
  {
    hide RootMember, Tail, WfRootMember, TypedMember, SizeOf, TailFirst, RootFirst;
    TypedStep(fs, vs, i);
    TailStep(fs, vs, i);
    TailMonotone(fs, vs, i + 1, |fs|);
    PositionMonotone(fs, i + 1, |fs|);
    RootStep(fs, vs, i);
  }

  lemma RootStep(fs: seq<Field>, vs: seq<Value>, i: nat)
    requires RootOk(fs, vs) && Fits(fs, vs) && i < |fs|
    requires TypedMember(fs[i], vs[i], vs) && TypedFirst(fs, vs, i) && TypedFirst(fs, vs, i + 1)
    requires TailOffset(fs, vs, i) + |Tail(fs[i], vs[i], fs, vs)| == TailOffset(fs, vs, i + 1) < 0x1_0000
    ensures RootFirst(fs, vs, i + 1) == RootFirst(fs, vs, i) + RootMember(fs, vs, i)
  {
    hide RootMember, Tail, WfRootMember, TypedMember, SizeOf, TailFirst;
  }

  lemma EncodeStart(fs: seq<Field>, vs: seq<Value>)
    requires RootOk(fs, vs) && Fits(fs, vs)
    ensures TypedFirst(fs, vs, 0) && Position(fs, 0) == 0
    ensures TailFirst(fs, vs, 0) == [] && TailOffset(fs, vs, 0) <= TailOffset(fs, vs, |fs|)
    ensures RootFirst(fs, vs, 0) == []
  {
    hide RootMember, Tail, WfRootMember, TypedMember, SizeOf;
    TailMonotone(fs, vs, 0, |fs|);
  }

  /**
   * The generated top-level encoder: it fills a buffer of exactly the computed size, member by
   * member, with `vlaOffset` running through the variable parts.
   */
  method Encode(fs: seq<Field>, vs: seq<Value>) returns (payload: array<byte>, vlaOffset: nat)
    requires RootOk(fs, vs) && Fits(fs, vs)
    ensures payload[..] == EncodeRoot(fs, vs)
    ensures vlaOffset == payload.Length == TailOffset(fs, vs, |fs|)
  {
    hide SizeOf, SizeOfFirst, Tail, RootMember, RootFirst, TailFirst, WfRootMember, TypedMember, TypedFirst;
    var payloadSize := EncodedSize(fs, vs, 0);
    payload := new byte[payloadSize];
    var base := SizeOfFirst(fs, |fs|);
    vlaOffset := base;
    EncodeStart(fs, vs);
    for i := 0 to |fs|
      invariant TypedFirst(fs, vs, i) && Position(fs, i) <= base
      invariant vlaOffset == TailOffset(fs, vs, i) <= payloadSize
      invariant payload[..Position(fs, i)] == RootFirst(fs, vs, i)
      invariant payload[base..vlaOffset] == TailFirst(fs, vs, i)
    {
      EncodeStep(fs, vs, i);
      var data := Tail(fs[i], vs[i], fs, vs);
      WriteMember(payload, Position(fs, i), RootMember(fs, vs, i), base, vlaOffset, data);
      vlaOffset := vlaOffset + |data|;
    }
    assert payload[..] == payload[..base] + payload[base..];
  }

  /** The generated top-level decoder: members in order, up to the first that cannot be decoded. */
  method Decode(checked: bool, fs: seq<Field>, b: seq<byte>) returns (r: Outcome<seq<Value>>)
    requires WfRoot(fs)
    ensures r == DecodeRoot(checked, fs, b)
  {
    hide DecodeRootMember, SizeOf;
    if |b| < SizeOfFirst(fs, |fs|) {
      return Rejected;
    }
    var vs := [];
    for i := 0 to |fs|
      invariant DecodeRootFirst(checked, fs, b, i) == Decoded(vs)
    {
      var v := DecodeRootMember(checked, fs, b, i);
      if !v.Decoded? {
        r := v.Fail();
        DecodeStaysFailed(checked, fs, b, i + 1, |fs|);
        return;
      }
      vs := vs + [v.value];
    }
    r := Decoded(vs);
  }

  lemma {:induction false} DecodeStaysFailed(checked: bool, fs: seq<Field>, b: seq<byte>, i: nat, n: nat)
    requires i <= n <= |fs| && WfRoot(fs) && SizeOfFirst(fs, |fs|) <= |b|
    requires !DecodeRootFirst(checked, fs, b, i).Decoded?
    ensures DecodeRootFirst(checked, fs, b, n) == DecodeRootFirst(checked, fs, b, i)
    decreases n
  {
    hide DecodeRootMember;
    if i < n { DecodeStaysFailed(checked, fs, b, i, n - 1); }
  }
}
