/** Bytes, 32-byte hashes and big-endian numbers. */
module Bytes {

  type Byte = b: int | 0 <= b < 256
  type Bytes = seq<Byte>

  const KECCAK_LENGTH: nat := 32

  function ZeroHash(): (z: Bytes)
    ensures |z| == KECCAK_LENGTH
  {
    seq(KECCAK_LENGTH, _ => 0)
  }

  type H256 = s: Bytes | |s| == KECCAK_LENGTH ghost witness ZeroHash()

  /** Keccak-256 is a parameter of every model that hashes: the theorems hold for any such function. */
  type Hasher = Bytes -> H256

  /** Shortest big-endian form of `n`; zero has no bytes. */
  function Compact(n: nat): (b: Bytes)
    ensures n == 0 <==> b == []
    ensures b != [] ==> b[0] != 0
  {
    if n == 0 then [] else Compact(n / 256) + [n % 256]
  }

  /** Value of a big-endian byte string. */
  function BigEndian(b: Bytes): nat {
    if b == [] then 0 else 256 * BigEndian(b[..|b| - 1]) + b[|b| - 1]
  }
}
