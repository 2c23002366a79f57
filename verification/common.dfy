/** What several drivers share. */
module Common {

  datatype Option<+T> = None | Some(value: T)

  newtype Byte = x: int | 0 <= x < 256

  /** Error numbers; the drivers return them negated. */
  const ENOMEM := 12
  const EFAULT := 14
  const EINVAL := 22
  const ENOSPC := 28
  const ERESTARTSYS := 512

  function Min(a: nat, b: nat): nat {
    if a < b then a else b
  }

  function Max(a: nat, b: nat): nat {
    if a < b then b else a
  }

  /** The number of values of a 32-bit integer. */
  const WORD32: nat := 0x1_0000_0000

  /** `x`, `k` times over. */
  function Repeat<T>(x: seq<T>, k: nat): seq<T> {
    if k == 0 then [] else x + Repeat(x, k - 1)
  }

  lemma RepeatHasOnly<T>(x: T, k: nat)
    ensures forall y | y in Repeat([x], k) :: y == x
  {
  }

  lemma Assoc<T>(x: seq<T>, y: seq<T>, z: seq<T>)
    ensures x + y + z == x + (y + z)
  {
  }
}
