/** Stored trie nodes. A 16-bit mask is the set of its one bits, so `count_ones` is its cardinality. */
module TrieNode {
  import opened Basics
  import opened Bytes
  import opened Nibbles

  type Mask = set<Nibble>

  /** The bits of a mask from `n` on. */
  function From(mask: Mask, n: nat): Mask {
    set m | m in mask && n <= m
  }

  lemma FromStep(mask: Mask, n: nat)
    requires n < 16
    ensures From(mask, n) == if n in mask then {n} + From(mask, n + 1) else From(mask, n + 1)
    ensures |From(mask, n)| == |From(mask, n + 1)| + if n in mask then 1 else 0
  {
    assert From(mask, n) == if n in mask then {n} + From(mask, n + 1) else From(mask, n + 1);
  }

  /** The bits of a mask from `n` on, in increasing order. */
  function BitsFrom(mask: Mask, n: nat): seq<Nibble>
    requires n <= 16
    decreases mask, 16 - n
  {
    if n == 16 then [] else (if n in mask then [n] else []) + BitsFrom(mask, n + 1)
  }

  lemma {:induction false} BitsFromContents(mask: Mask, n: nat)
    requires n <= 16
    ensures |BitsFrom(mask, n)| == |From(mask, n)|
    ensures forall m :: m in BitsFrom(mask, n) <==> m in mask && n <= m
    decreases 16 - n
  {
    hide BitsFrom, From;
    BitsFromStep(mask, n);
    if n < 16 {
      FromStep(mask, n);
      BitsFromContents(mask, n + 1);
    }
  }

  lemma BitsFromStep(mask: Mask, n: nat)
    requires n <= 16
    ensures n == 16 ==> BitsFrom(mask, n) == [] && From(mask, n) == {}
    ensures n < 16 && n in mask ==> BitsFrom(mask, n) == [n] + BitsFrom(mask, n + 1)
    ensures n < 16 && n !in mask ==> BitsFrom(mask, n) == BitsFrom(mask, n + 1)
  {
  }

  /** Number of bits below `n`: `count_ones` of the mask cut off at `n`. */
  function Rank(mask: Mask, n: nat): nat {
    |set m | m in mask && m < n|
  }

  lemma RankStep(mask: Mask, n: nat)
    ensures Rank(mask, n + 1) == Rank(mask, n) + if n < 16 && n in mask then 1 else 0
  {
    var below, upto := set m | m in mask && m < n, set m | m in mask && m < n + 1;
    if m :| m in mask && m == n {
      assert upto == below + {m};
    } else {
      assert upto == below;
    }
  }

  lemma RankBound(mask: Mask, n: nat)
    ensures Rank(mask, n) <= |mask|
  {
    var below := set m | m in mask && m < n;
    assert mask == below + (mask - below);
  }

  lemma RankEnds(mask: Mask)
    ensures Rank(mask, 0) == 0 && Rank(mask, 16) == |mask|
  {
    assert (set m | m in mask && m < 0) == {};
    assert (set m | m in mask && m < 16) == mask;
  }

  lemma {:induction false} BitsFromRank(mask: Mask, n: nat)
    requires n <= 16
    ensures forall i :: 0 <= i < |BitsFrom(mask, n)| ==> Rank(mask, BitsFrom(mask, n)[i]) == Rank(mask, n) + i
    decreases 16 - n
  {
    if n < 16 {
      RankStep(mask, n);
      BitsFromStep(mask, n);
      BitsFromRank(mask, n + 1);
    }
  }

  /** A bit stands at its rank among the bits. */
  ghost predicate InRankOrder(mask: Mask, bits: seq<Nibble>) {
    && |bits| == |mask|
    && (forall m :: m in bits <==> m in mask)
    && (forall i :: 0 <= i < |bits| ==> Rank(mask, bits[i]) == i)
  }

  lemma AtRank(mask: Mask, bits: seq<Nibble>, m: Nibble)
    requires InRankOrder(mask, bits) && m in mask
    ensures Rank(mask, m) < |mask| && bits[Rank(mask, m)] == m
  {
    var i :| 0 <= i < |bits| && bits[i] == m;
  }

  /** All bits of a mask in increasing order. */
  function Bits(mask: Mask): (bits: seq<Nibble>)
    ensures |bits| == |mask| && forall m :: m in bits <==> m in mask
  {
    assert From(mask, 0) == mask;
    BitsFromContents(mask, 0);
    BitsFrom(mask, 0)
  }

  lemma BitsInRankOrder(mask: Mask)
    ensures InRankOrder(mask, Bits(mask))
  {
    BitsFromRank(mask, 0);
    RankEnds(mask);
  }

  datatype Node = Node(stateMask: Mask, treeMask: Mask, hashMask: Mask, hashes: seq<H256>, rootHash: Option<H256>) {
    /** What the constructor asserts. */
    predicate Valid() {
      treeMask <= stateMask && hashMask <= stateMask && |hashMask| == |hashes|
    }
  }

  // Storage format

  function Pow2(n: nat): nat {
    if n == 0 then 1 else 2 * Pow2(n - 1)
  }

  /** The `count` bits of a mask from `base` on, as a number. */
  function MaskNumber(mask: Mask, base: nat, count: nat): (b: nat)
    requires base + count <= 16
    ensures b < Pow2(count)
    decreases mask, count
  {
    if count == 0 then 0 else (if base in mask then 1 else 0) + 2 * MaskNumber(mask, base + 1, count - 1)
  }

  function MaskByte(mask: Mask, base: nat): Byte
    requires base <= 8
  {
    assert Pow2(8) == 256;
    MaskNumber(mask, base, 8)
  }

  /** Bit `i` of a number, shifted right bit by bit. */
  predicate Bit(b: nat, i: nat) {
    if i == 0 then b % 2 == 1 else Bit(b / 2, i - 1)
  }

  /** Big-endian form of a 16-bit mask. */
  function MaskBytes(mask: Mask): (b: Bytes)
    ensures |b| == 2
  {
    [MaskByte(mask, 8), MaskByte(mask, 0)]
  }

  function BytesMask(b: Bytes): Mask
    requires |b| == 2
  {
    set n: Nibble | if n < 8 then Bit(b[1], n) else Bit(b[0], n - 8)
  }

  lemma Halve(low: nat, high: nat)
    requires low < 2
    ensures (low + 2 * high) / 2 == high && (low + 2 * high) % 2 == low
  {
  }

  lemma {:induction false} MaskNumberBit(mask: Mask, base: nat, count: nat, i: nat)
    requires base + count <= 16 && i < count
    ensures Bit(MaskNumber(mask, base, count), i) <==> base + i in mask
    decreases i
  {
    hide Pow2;
    Halve(if base in mask then 1 else 0, MaskNumber(mask, base + 1, count - 1));
    if i > 0 {
      MaskNumberBit(mask, base + 1, count - 1, i - 1);
    }
  }

  lemma BytesMaskBytes(mask: Mask)
    ensures BytesMask(MaskBytes(mask)) == mask
  {
    forall n: Nibble ensures n in BytesMask(MaskBytes(mask)) <==> n in mask {
      if n < 8 {
        MaskNumberBit(mask, 0, 8, n);
      } else {
        MaskNumberBit(mask, 8, 8, n - 8);
      }
    }
  }

  function Concat(hashes: seq<H256>): (b: Bytes)
    ensures |b| == KECCAK_LENGTH * |hashes|
  {
    if hashes == [] then [] else hashes[0] + Concat(hashes[1..])
  }

  function Marshalled(n: Node): Bytes {
    MaskBytes(n.stateMask) + MaskBytes(n.treeMask) + MaskBytes(n.hashMask) +
    (if n.rootHash.Some? then n.rootHash.value else []) + Concat(n.hashes)
  }

  method MarshalNode(n: Node) returns (buf: Bytes)
    ensures buf == Marshalled(n)
  {
    buf := MaskBytes(n.stateMask);
    buf := buf + MaskBytes(n.treeMask);
    buf := buf + MaskBytes(n.hashMask);
    if n.rootHash.Some? {
      buf := buf + n.rootHash.value;
    }
    for i := 0 to |n.hashes|
      invariant buf + Concat(n.hashes[i..]) == Marshalled(n)
    {
      assert n.hashes[i..][0] == n.hashes[i] && n.hashes[i..][1..] == n.hashes[i + 1..];
      buf := buf + n.hashes[i];
    }
  }

  lemma {:induction false} NumberOfMask(mask: Mask, base: nat, count: nat, b: nat)
    requires base + count <= 16 && b < Pow2(count) && forall i :: 0 <= i < count ==> (base + i in mask <==> Bit(b, i))
    ensures MaskNumber(mask, base, count) == b
    decreases count
  {
    if count > 0 {
      forall i | 0 <= i < count - 1 ensures base + 1 + i in mask <==> Bit(b / 2, i) {
        assert base + (i + 1) in mask <==> Bit(b, i + 1);
      }
      NumberOfMask(mask, base + 1, count - 1, b / 2);
      assert base + 0 in mask <==> Bit(b, 0);
    }
  }

  /** Every two bytes are those of a mask. */
  lemma MaskBytesOfMask(b: Bytes)
    requires |b| == 2
    ensures MaskBytes(BytesMask(b)) == b
  {
    assert Pow2(8) == 256;
    var mask := BytesMask(b);
    hide Pow2, MaskNumber;
    forall i | 0 <= i < 8 ensures (8 + i in mask <==> Bit(b[0], i)) && (0 + i in mask <==> Bit(b[1], i)) {
      InBytesMask(b, i);
      InBytesMask(b, 8 + i);
    }
    NumberOfMask(mask, 8, 8, b[0]);
    NumberOfMask(mask, 0, 8, b[1]);
  }

  lemma InBytesMask(b: Bytes, n: Nibble)
    requires |b| == 2
    ensures n in BytesMask(b) <==> if n < 8 then Bit(b[1], n) else Bit(b[0], n - 8)
  {
  }

  /** The buffer has whole words, as many as the hash mask asks for or one more, and no mask bit outside of the state mask. */
  predicate WellFormed(v: Bytes) {
    && |v| >= 6 && (|v| - 6) % KECCAK_LENGTH == 0
    && BytesMask(v[2..4]) <= BytesMask(v[0..2]) && BytesMask(v[4..6]) <= BytesMask(v[0..2])
    && |BytesMask(v[4..6])| <= (|v| - 6) / KECCAK_LENGTH <= |BytesMask(v[4..6])| + 1
  }

  /** No node, one that the constructor's assertions reject, or a node. */
  datatype Unmarshalled = NotANode | Rejected | Read(node: Node)

  /**
   The node in a buffer. A first word beyond what the hash mask asks for is the root hash. A node is read if
   and only if the buffer is the marshalled form of a valid one, and then it is this one.
   */
  method UnmarshalNode(v: Bytes) returns (r: Unmarshalled)
    ensures r.NotANode? <==> |v| < 6 || (|v| - 6) % KECCAK_LENGTH != 0
    ensures r.Read? <==> WellFormed(v)
    ensures r.Rejected? <==> |v| >= 6 && (|v| - 6) % KECCAK_LENGTH == 0 && !WellFormed(v)
    ensures r.Read? ==> r.node.Valid() && Marshalled(r.node) == v
    ensures forall n: Node :: n.Valid() && Marshalled(n) == v ==> r == Read(n)
  {
    forall n: Node | n.Valid() && Marshalled(n) == v
      ensures MarshalledParts(n, v)
    {
      PartsOfMarshalled(n);
    }
    hide Marshalled, BytesMask, MaskBytes;
    if |v| < 6 || (|v| - 6) % KECCAK_LENGTH != 0 {
      return NotANode;
    }
    var stateMask, treeMask, hashMask := BytesMask(v[0..2]), BytesMask(v[2..4]), BytesMask(v[4..6]);
    var i := 6;
    var rootHash := None;
    if |hashMask| + 1 == (|v| - 6) / KECCAK_LENGTH {
      rootHash := Some(v[i..i + KECCAK_LENGTH]);
      i := i + KECCAK_LENGTH;
    }
    ghost var start := i;
    var numHashes := (|v| - i) / KECCAK_LENGTH;
    var hashes: seq<H256> := [];
    for k := 0 to numHashes
      invariant |hashes| == k && i == start + KECCAK_LENGTH * k <= |v|
      invariant Concat(hashes) == v[start..i]
    {
      ConcatAppend(hashes, v[i..i + KECCAK_LENGTH]);
      hashes := hashes + [v[i..i + KECCAK_LENGTH]];
      i := i + KECCAK_LENGTH;
    }
    assert i == |v|;
    assert v[6..start] == if rootHash.Some? then rootHash.value else [];
    var node := Node(stateMask, treeMask, hashMask, hashes, rootHash);
    Assembled(v, node, start);
    forall n: Node | n.Valid() && Marshalled(n) == v ensures n == node {
      OneNode(n, node, v);
    }
    if !(treeMask <= stateMask && hashMask <= stateMask && |hashMask| == |hashes|) {
      return Rejected;
    }
    return Read(node);
  }

  /** A hash bit without a state bit. */
  method RejectedBuffer() returns (r: Unmarshalled)
    ensures r == Rejected
  {
    var v: Bytes := [0, 0, 0, 0, 0, 1];
    assert v[0..2] == [0, 0] && v[4..6] == [0, 1];
    InBytesMask(v[0..2], 0);
    InBytesMask(v[4..6], 0);
    r := UnmarshalNode(v);
  }

  /** What the marshalled form of a valid node is made of. */
  ghost predicate MarshalledParts(n: Node, v: Bytes) {
    && |v| >= 6 && |v| - 6 == KECCAK_LENGTH * (|n.hashMask| + if n.rootHash.Some? then 1 else 0)
    && n.stateMask == BytesMask(v[0..2]) && n.treeMask == BytesMask(v[2..4]) && n.hashMask == BytesMask(v[4..6])
    && (if n.rootHash.Some? then n.rootHash.value else []) + Concat(n.hashes) == v[6..]
  }

  lemma PartsOfMarshalled(n: Node)
    requires n.Valid()
    ensures MarshalledParts(n, Marshalled(n))
  {
    var v := Marshalled(n);
    hide BytesMask;
    assert v[0..2] == MaskBytes(n.stateMask) && v[2..4] == MaskBytes(n.treeMask) && v[4..6] == MaskBytes(n.hashMask);
    BytesMaskBytes(n.stateMask);
    BytesMaskBytes(n.treeMask);
    BytesMaskBytes(n.hashMask);
    assert v[6..] == (if n.rootHash.Some? then n.rootHash.value else []) + Concat(n.hashes);
  }

  lemma Assembled(v: Bytes, node: Node, start: nat)
    requires |v| >= 6 && node.stateMask == BytesMask(v[0..2]) && node.treeMask == BytesMask(v[2..4]) && node.hashMask == BytesMask(v[4..6])
    requires 6 <= start <= |v| && v[6..start] == (if node.rootHash.Some? then node.rootHash.value else []) && Concat(node.hashes) == v[start..]
    ensures Marshalled(node) == v && (if node.rootHash.Some? then node.rootHash.value else []) + Concat(node.hashes) == v[6..]
  {
    MaskBytesOfMask(v[0..2]);
    MaskBytesOfMask(v[2..4]);
    MaskBytesOfMask(v[4..6]);
    hide BytesMask, MaskBytes;
    assert v == v[0..2] + v[2..4] + v[4..6] + v[6..start] + v[start..];
    assert v[6..start] + v[start..] == v[6..];
  }

  lemma OneNode(n: Node, node: Node, v: Bytes)
    requires MarshalledParts(n, v) && node.stateMask == n.stateMask && node.treeMask == n.treeMask && node.hashMask == n.hashMask
    requires node.rootHash.Some? <==> |node.hashMask| + 1 == (|v| - 6) / KECCAK_LENGTH
    requires (if node.rootHash.Some? then node.rootHash.value else []) + Concat(node.hashes) == v[6..]
    ensures n == node
  {
    var root: Bytes, root': Bytes := if n.rootHash.Some? then n.rootHash.value else [], if node.rootHash.Some? then node.rootHash.value else [];
    assert n.rootHash.Some? <==> node.rootHash.Some?;
    assert root == v[6..][..|root|] == root';
    assert Concat(node.hashes) == v[6..][|root|..] == Concat(n.hashes);
    ConcatInjective(node.hashes, n.hashes);
  }

  lemma {:induction false} ConcatAppend(hashes: seq<H256>, h: H256)
    ensures Concat(hashes + [h]) == Concat(hashes) + h
  {
    if hashes == [] {
      assert hashes + [h] == [h];
    } else {
      assert (hashes + [h])[1..] == hashes[1..] + [h];
      ConcatAppend(hashes[1..], h);
    }
  }

  lemma {:induction false} ConcatInjective(a: seq<H256>, b: seq<H256>)
    requires Concat(a) == Concat(b)
    ensures a == b
  {
    if a != [] && b != [] {
      assert a[0] == Concat(a)[..KECCAK_LENGTH] == Concat(b)[..KECCAK_LENGTH] == b[0];
      assert Concat(a[1..]) == Concat(a)[KECCAK_LENGTH..] == Concat(b)[KECCAK_LENGTH..] == Concat(b[1..]);
      ConcatInjective(a[1..], b[1..]);
      assert a == [a[0]] + a[1..];
      assert b == [b[0]] + b[1..];
    }
  }

  /** Whether a root hash is present is read off the number of words alone, and read off rightly. */
  method RoundTrip(n: Node) returns (r: Unmarshalled)
    requires n.Valid()
    ensures r == Read(n)
  {
    var buf := MarshalNode(n);
    r := UnmarshalNode(buf);
  }
}
