/** Small things that several parts of the model share. */
module Util {

  datatype Option<+T> = None | Some(value: T)

  /** The error codes of the CHRE API that the model uses. */
  datatype ChreError =
    | NoError | GenericError | Busy | NoMemory | Timeout | FunctionDisabled | ObsoleteRequest | Transient
    | DestinationNotFound

  /** Events and requests of CHRE itself, rather than of a nanoapp. */
  const SYSTEM_INSTANCE_ID: nat := 0

  type uint64 = x: int | 0 <= x < 0x1_0000_0000_0000_0000

  /** 64-bit addition wraps around, */
  function Add64(a: uint64, b: uint64): uint64 {
    if a + b < 0x1_0000_0000_0000_0000 then a + b else a + b - 0x1_0000_0000_0000_0000
  }

  /** and so does subtraction. */
  function Sub64(a: uint64, b: uint64): uint64 {
    if a >= b then a - b else a - b + 0x1_0000_0000_0000_0000
  }

  function Min(a: int, b: int): int { if b < a then b else a }

  /** `k` times `d`, by repeated addition. */
  function Times(k: nat, d: nat): nat {
    if k == 0 then 0 else Times(k - 1, d) + d
  }

  function Erase<T>(s: seq<T>, i: nat): seq<T>
    requires i < |s|
  {
    s[..i] + s[i + 1..]
  }

  lemma {:induction false} SubsetSize<T>(a: set<T>, b: set<T>)
    requires a <= b
    ensures |a| <= |b|
  {
    if a != {} {
      var x :| x in a;
      SubsetSize(a - {x}, b - {x});
    }
  }
}
