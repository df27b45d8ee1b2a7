/** The small vocabulary every component shares. */
module Basics {

  const U32_MAX: nat := 0xFFFF_FFFF
  const U64_MAX: nat := 0xFFFF_FFFF_FFFF_FFFF

  type Byte = b: int | 0 <= b < 256

  datatype Option<+T> = None | Some(value: T)

  datatype Result<+T, +E> = Ok(value: T) | Err(error: E)

  function Min(a: nat, b: nat): nat { if a < b then a else b }

  function Max(a: nat, b: nat): nat { if a < b then b else a }

  function Pow2(n: nat): (p: nat)
    ensures p >= 1
  {
    if n == 0 then 1 else 2 * Pow2(n - 1)
  }

  /** The sequence with its `p`-th element taken out. */
  function Without<T>(s: seq<T>, p: nat): (rest: seq<T>)
    requires p < |s|
    ensures |rest| == |s| - 1
    ensures forall i :: 0 <= i < |rest| ==> rest[i] == s[if i < p then i else i + 1]
  {
    s[..p] + s[p + 1..]
  }
}
