/**
 The Merkle-Patricia trie of Appendix D of the Ethereum Yellow Paper, on a finite map from nibble
 paths to values. Besides leaf values a map may hold the hash of a whole branch node: such an entry
 stands for every key below its path.
 */
module Trie {
  import opened Bytes
  import opened Nibbles
  import HexPrefix
  import Rlp

  datatype Value = Leaf(bytes: Bytes) | Hash(hash: H256, inDb: bool)

  type Entries = map<Path, Value>

  /** No key is a prefix of another one. */
  ghost predicate PrefixFree(j: Entries) {
    forall a, b :: a in j && b in j && a <= b ==> a == b
  }

  /** Entries whose key starts with `p`. */
  ghost function Under(j: Entries, p: Path): Entries {
    map k | k in j && p <= k :: j[k]
  }

  ghost predicate Shared(j: Entries, p: Path) {
    forall k :: k in j ==> p <= k
  }

  /** `p` is the longest path that every key starts with. */
  ghost predicate IsLcp(j: Entries, p: Path) {
    Shared(j, p) && forall n: Nibble :: !Shared(j, Child(p, n))
  }

  /** A trie node can be built for the entries `j`, all of them below `p`. */
  ghost predicate Buildable(j: Entries, p: Path) {
    j != map[] && PrefixFree(j) && Shared(j, p)
  }

  lemma LcpExists(j: Entries, p: Path, k: Path)
    requires k in j && Shared(j, p)
    ensures exists q :: IsLcp(j, q)
    decreases |k| - |p|
  {
    if n: Nibble :| Shared(j, Child(p, n)) {
      LcpExists(j, Child(p, n), k);
    } else {
      assert IsLcp(j, p);
    }
  }

  lemma LcpUnique(j: Entries, p: Path, q: Path)
    requires j != map[] && IsLcp(j, p) && IsLcp(j, q)
    ensures p == q
  {
    var k :| k in j;
    if |p| < |q| {
      LcpLongest(j, p, q);
    } else if |q| < |p| {
      LcpLongest(j, q, p);
    }
  }

  lemma LcpLongest(j: Entries, p: Path, q: Path)
    requires j != map[] && IsLcp(j, p) && Shared(j, q)
    ensures q <= p
  {
    var k :| k in j;
    if |p| < |q| {
      SharedNext(j, p, q);
    }
  }

  lemma SharedNext(j: Entries, p: Path, q: Path)
    requires Shared(j, p) && Shared(j, q) && |p| < |q|
    ensures Shared(j, Child(p, q[|p|]))
  {
    forall k | k in j ensures Child(p, q[|p|]) <= k {
      assert q <= k && p <= k;
    }
  }

  ghost function Lcp(j: Entries): (p: Path)
    requires j != map[]
    ensures IsLcp(j, p)
  {
    var k :| k in j;
    LcpExists(j, [], k);
    var p :| IsLcp(j, p);
    p
  }

  ghost function Only(j: Entries): (k: Path)
    requires |j| == 1
    ensures k in j && forall k' :: k' in j ==> k' == k
  {
    var k :| k in j;
    assert |j.Keys - {k}| == 0;
    assert forall k' :: k' in j ==> k' in j.Keys - {k} || k' == k;
    k
  }

  /** The branch at the longest common prefix splits the entries into strictly smaller parts. */
  lemma ChildSmaller(j: Entries, p: Path, n: Nibble)
    requires IsLcp(j, p)
    ensures |Under(j, Child(p, n))| < |j|
  {
    assert !Shared(j, Child(p, n));
    var k :| k in j && !(Child(p, n) <= k);
    var c := Under(j, Child(p, n));
    assert c.Keys <= j.Keys - {k};
    CardinalityMonotone(c.Keys, j.Keys - {k});
  }

  lemma CardinalityMonotone<T>(a: set<T>, b: set<T>)
    requires a <= b
    ensures |a| <= |b|
    decreases |a|
  {
    if a != {} {
      var x :| x in a;
      CardinalityMonotone(a - {x}, b - {x});
    }
  }

  // Node composition

  function WrapHash(x: H256): Bytes {
    [Rlp.EMPTY_STRING_CODE + KECCAK_LENGTH] + x
  }

  /** A node shorter than a hash is inlined into its parent, any other one is referred to by hash. */
  function NodeRef(keccak: Hasher, rlp: Bytes): Bytes {
    if |rlp| < KECCAK_LENGTH then rlp else WrapHash(keccak(rlp))
  }

  function LeafRlp(path: Path, value: Bytes): Bytes {
    Rlp.EncodeList(Rlp.EncodeString(HexPrefix.Encode(path, true)) + Rlp.EncodeString(value))
  }

  function ExtensionRlp(path: Path, child: Bytes): Bytes {
    Rlp.EncodeList(Rlp.EncodeString(HexPrefix.Encode(path, false)) + child)
  }

  /** The hash of a branch, standing at its own path, needs no node of its own. */
  ghost predicate IsHashAt(j: Entries, p: Path) {
    |j| == 1 && p in j && j[p].Hash?
  }

  /** Structural composition: the node for the entries `j` seen from path `p`. */
  ghost function NodeRlp(keccak: Hasher, j: Entries, p: Path): Bytes
    requires Buildable(j, p) && !IsHashAt(j, p)
    decreases |j|, 18
  {
    if |j| == 1 then
      var k := Only(j);
      match j[k]
      case Leaf(v) => LeafRlp(k[|p|..], v)
      case Hash(x, _) => ExtensionRlp(k[|p|..], WrapHash(x))
    else
      var q := Lcp(j);
      LcpLongest(j, q, p);
      if p == q then
        BranchRlp(keccak, j, q)
      else
        ExtensionRlp(q[|p|..], NodeRef(keccak, BranchRlp(keccak, j, q)))
  }

  ghost function BranchRlp(keccak: Hasher, j: Entries, p: Path): Bytes
    requires Buildable(j, p) && IsLcp(j, p)
    decreases |j|, 17
  {
    Rlp.EncodeList(BranchPayload(keccak, j, p, 0))
  }

  /** References of the children from nibble `n` on, then the empty value slot. */
  ghost function BranchPayload(keccak: Hasher, j: Entries, p: Path, n: nat): Bytes
    requires Buildable(j, p) && IsLcp(j, p) && n <= 16
    decreases |j|, 16 - n
  {
    if n == 16 then
      [Rlp.EMPTY_STRING_CODE]
    else
      var c := Under(j, Child(p, n));
      ChildSmaller(j, p, n);
      (if c == map[] then [Rlp.EMPTY_STRING_CODE] else Ref(keccak, c, Child(p, n))) + BranchPayload(keccak, j, p, n + 1)
  }

  /** Node cap function: the reference by which a parent includes the entries `j` at path `p`. */
  ghost function Ref(keccak: Hasher, j: Entries, p: Path): Bytes
    requires Buildable(j, p)
    decreases |j|, 19
  {
    if IsHashAt(j, p) then WrapHash(j[p].hash) else NodeRef(keccak, NodeRlp(keccak, j, p))
  }

  function EmptyRoot(keccak: Hasher): H256 {
    keccak([Rlp.EMPTY_STRING_CODE])
  }

  ghost function Root(keccak: Hasher, j: Entries): H256
    requires PrefixFree(j)
  {
    if j == map[] then EmptyRoot(keccak)
    else if IsHashAt(j, []) then j[[]].hash
    else keccak(NodeRlp(keccak, j, []))
  }
}
