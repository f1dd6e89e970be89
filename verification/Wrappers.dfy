/** Result types shared by the models, and the byte type they read and write. */
module Wrappers {
  datatype Option<+T> = None | Some(value: T)

  datatype Result<+T, +E> = Ok(value: T) | Err(error: E)

  type Byte = b: int | 0 <= b < 256

  type Bytes = seq<Byte>

  const U64_MAX: int := 0xFFFF_FFFF_FFFF_FFFF

  /** `saturating_add(1)` on a 64-bit unsigned counter. */
  function SatInc(n: nat): (r: nat)
    ensures n < U64_MAX ==> r == n + 1
    ensures n == U64_MAX ==> r == n
  {
    if n < U64_MAX then n + 1 else n
  }

  /** A number as a program prints it. */
  function Decimal(n: nat): string {
    (if n < 10 then "" else Decimal(n / 10)) + ["0123456789"[n % 10]]
  }

  lemma Associative<T>(a: seq<T>, b: seq<T>, c: seq<T>)
    ensures a + b + c == a + (b + c)
  {
  }
}
