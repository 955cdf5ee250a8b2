/** Numbers in a fixed number of big-endian bytes. */
module FixedWidth {
  import opened Basics
  import opened Bytes

  /** Big-endian bytes of a number that fits. */
  function FixedBytes(n: nat, length: nat): (b: Bytes)
    ensures |b| == length
  {
    if length == 0 then [] else FixedBytes(n / 256, length - 1) + [n % 256]
  }

  function Pow256(k: nat): nat {
    if k == 0 then 1 else 256 * Pow256(k - 1)
  }

  lemma {:induction false} FixedValue(n: nat, length: nat)
    requires n < Pow256(length)
    ensures BigEndian(FixedBytes(n, length)) == n
  {
    if length > 0 {
      FixedValue(n / 256, length - 1);
      var b := FixedBytes(n, length);
      assert b[..length - 1] == FixedBytes(n / 256, length - 1);
    }
  }

  lemma Powers()
    ensures Pow256(8) == U64_RANGE && Pow256(32) == U256_RANGE
  {
    Double(4, 4);
    Double(8, 8);
    Double(16, 16);
  }

  lemma {:induction false} Double(i: nat, j: nat)
    ensures Pow256(i + j) == Pow256(i) * Pow256(j)
  {
    if i > 0 {
      Double(i - 1, j);
      assert Pow256(i) * Pow256(j) == 256 * (Pow256(i - 1) * Pow256(j));
    }
  }
}
