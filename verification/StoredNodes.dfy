/**
 Which trie nodes are worth keeping, and what is kept of them: branch nodes one of whose children is
 a branch itself or leads to a kept node. Defined on the trie, without reference to any builder.
 */
module StoredNodes {
  import opened Basics
  import opened Bytes
  import opened Nibbles
  import opened Trie
  import opened TrieNode

  /** The node at `p` is a branch, not a leaf or an extension. */
  ghost predicate IsBranch(j: Entries, p: Path) {
    IsHashAt(j, p) || (|j| > 1 && IsLcp(j, p))
  }

  /** A kept node stands at or below this one. */
  ghost predicate Kept(j: Entries)
    requires j != map[]
    decreases |j|
  {
    if |j| == 1 then
      j[Only(j)].Hash? && j[Only(j)].inDb
    else
      exists n: Nibble :: KeptChild(j, n)
  }

  ghost predicate KeptChild(j: Entries, n: Nibble)
    requires j != map[]
    decreases |j|, 0
  {
    var p := Child(Lcp(j), n);
    ChildSmaller(j, Lcp(j), n);
    var c := Under(j, p);
    c != map[] && (IsBranch(c, p) || Kept(c))
  }

  ghost function StateMask(j: Entries, p: Path): Mask {
    set n: Nibble | Under(j, Child(p, n)) != map[]
  }

  ghost function HashMask(j: Entries, p: Path): Mask {
    set n: Nibble | Under(j, Child(p, n)) != map[] && IsBranch(Under(j, Child(p, n)), Child(p, n))
  }

  ghost function TreeMask(j: Entries, p: Path): Mask {
    set n: Nibble | Under(j, Child(p, n)) != map[] && Kept(Under(j, Child(p, n)))
  }

  lemma KeptMasks(j: Entries, p: Path)
    requires |j| > 1 && IsLcp(j, p)
    ensures Kept(j) <==> HashMask(j, p) != {} || TreeMask(j, p) != {}
  {
    LcpUnique(j, Lcp(j), p);
    forall n: Nibble ensures KeptChild(j, n) <==> n in HashMask(j, p) || n in TreeMask(j, p) {
    }
    if n: Nibble :| KeptChild(j, n) {
      assert n in HashMask(j, p) || n in TreeMask(j, p);
    }
    if n :| n in HashMask(j, p) {
      assert KeptChild(j, n);
    }
    if n :| n in TreeMask(j, p) {
      assert KeptChild(j, n);
    }
  }

  ghost function BranchHash(keccak: Hasher, j: Entries, p: Path): H256
    requires Buildable(j, p) && IsBranch(j, p)
  {
    if IsHashAt(j, p) then j[p].hash else keccak(BranchRlp(keccak, j, p))
  }

  lemma UnderBuildable(j: Entries, p: Path)
    requires PrefixFree(j) && Under(j, p) != map[]
    ensures Buildable(Under(j, p), p)
  {
  }

  /** Hashes of the branch children in the order of their nibbles. */
  ghost function ChildHashes(keccak: Hasher, j: Entries, p: Path): seq<H256>
    requires PrefixFree(j)
  {
    var bits := Bits(HashMask(j, p));
    seq(|bits|, i requires 0 <= i < |bits| =>
      assert bits[i] in HashMask(j, p);
      BranchHash(keccak, Under(j, Child(p, bits[i])), Child(p, bits[i])))
  }

  ghost function NodeAt(keccak: Hasher, j: Entries, p: Path): Node
    requires Buildable(j, p) && IsLcp(j, p)
  {
    Node(StateMask(j, p), TreeMask(j, p), HashMask(j, p), ChildHashes(keccak, j, p),
         if p == [] then Some(keccak(BranchRlp(keccak, j, p))) else None)
  }

  /** The kept nodes of a trie, children before parents, in the order of their paths otherwise. */
  ghost function Nodes(keccak: Hasher, j: Entries): seq<(Path, Node)>
    requires j != map[] && PrefixFree(j)
    decreases |j|, 17
  {
    if |j| == 1 then []
    else
      var p := Lcp(j);
      NodesBelow(keccak, j, p, 16) + (if Kept(j) then [(p, NodeAt(keccak, j, p))] else [])
  }

  /** Kept nodes below the children of `p` up to nibble `n`. */
  ghost function NodesBelow(keccak: Hasher, j: Entries, p: Path, n: nat): seq<(Path, Node)>
    requires PrefixFree(j) && IsLcp(j, p) && n <= 16
    decreases |j|, n
  {
    if n == 0 then []
    else
      var c := Under(j, Child(p, n - 1));
      ChildSmaller(j, p, n - 1);
      NodesBelow(keccak, j, p, n - 1) + if c == map[] then [] else Nodes(keccak, c)
  }

  /** Every kept node satisfies what the node constructor asserts. */
  lemma NodeAtValid(keccak: Hasher, j: Entries, p: Path)
    requires Buildable(j, p) && IsLcp(j, p)
    ensures NodeAt(keccak, j, p).Valid()
  {
  }

  /** A reader finds the hash of child `n` at the number of hashed children before it. */
  lemma HashAtRank(keccak: Hasher, j: Entries, p: Path, n: Nibble)
    requires PrefixFree(j) && n in HashMask(j, p)
    ensures var i := Rank(HashMask(j, p), n);
      i < |ChildHashes(keccak, j, p)| && ChildHashes(keccak, j, p)[i] == BranchHash(keccak, Under(j, Child(p, n)), Child(p, n))
  {
    BitsInRankOrder(HashMask(j, p));
    AtRank(HashMask(j, p), Bits(HashMask(j, p)), n);
  }
}
