/** Basic values shared by the Devote engine and the masternode payment ballot:
    addresses, hashes, bytes, optional values, and the fixed-width integer
    conversions of Go that the engine relies on. */
module Primitives {

  datatype Option<T> = None | Some(value: T)

  datatype Result<T, E> = Success(value: T) | Failure(error: E)

  /** A 20-byte account address, as a number. */
  type Address = nat

  /** A 32-byte Keccak-256 digest, as a number. */
  type Hash = nat

  type byte = b: int | 0 <= b < 256

  const ZeroAddress: Address := 0
  const ZeroHash: Hash := 0

  const Two63: nat := 0x8000_0000_0000_0000
  const Two64: nat := 0x1_0000_0000_0000_0000

  /** `n` zero bytes, as `make([]byte, n)` yields them. */
  function Zeros(n: nat): (z: seq<byte>)
    ensures |z| == n
    ensures forall i :: 0 <= i < n ==> z[i] == 0
  {
    seq(n, _ => 0)
  }

  /** Go's `(*big.Int).Uint64()` on a non-negative value: the low 64 bits. */
  function U64(x: nat): nat
  {
    x % Two64
  }

  /** Subtraction on `uint64`, wrapping below zero. */
  function SubU64(a: nat, b: nat): nat
  {
    (U64(a) - U64(b)) % Two64
  }

  /** Addition on `uint64`, wrapping above 2^64 - 1. */
  function AddU64(a: nat, b: nat): nat
  {
    (U64(a) + U64(b)) % Two64
  }

  /** Go's integer division, which truncates toward zero (Dafny's `/` is Euclidean). */
  function GoDiv(a: int, b: int): int
    requires b > 0
  {
    if a >= 0 then a / b else -((-a) / b)
  }
}
