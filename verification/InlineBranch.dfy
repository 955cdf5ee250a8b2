/** A trie whose nodes cannot all be collected: a branch of 22 bytes stands inline in the root branch. */
module InlineBranch {
  import opened Basics
  import opened Bytes
  import opened Nibbles
  import opened Trie
  import opened TrieNode
  import opened StoredNodes
  import opened BuilderInvariant
  import opened TrieRun
  import Rlp
  import HexPrefix

  const ONE: Value := Leaf([1])

  const ENTRIES: seq<Entry> := [Entry([0, 0], ONE), Entry([0, 1], ONE), Entry([1], ONE)]

  /** The entries as a map; those of the small branch; the root path and that of the small branch. */
  const ALL: Entries := map[[0, 0] := ONE, [0, 1] := ONE, [1] := ONE]
  const SMALL: Entries := map[[0, 0] := ONE, [0, 1] := ONE]

  /** A leaf with a value of one byte and nothing left of its path takes three bytes. */
  lemma LeafSize(keccak: Hasher, k: Path)
    ensures Buildable(map[k := ONE], k) && |Ref(keccak, map[k := ONE], k)| == 3
  {
    var j: Entries := map[k := ONE];
    assert j.Keys == {k};
    assert Only(j) == k;
    assert HexPrefix.Encode([], true) == [0x20];
    assert k[|k|..] == [];
    assert Rlp.EncodeString([0x20]) == [0x20] && Rlp.EncodeString([1]) == [1];
    assert |LeafRlp([], [1])| == 3;
  }

  lemma NotBelow(p: Path, n: Nibble, k: Path)
    requires |p| < |k| && k[..|p|] == p
    ensures k[|p|] != n ==> !(Child(p, n) <= k)
  {
    assert Child(p, n)[|p|] == n;
  }

  lemma SmallBuilds()
    ensures Buildable(SMALL, [0]) && IsLcp(SMALL, [0])
    ensures Under(SMALL, [0, 0]) == map[[0, 0] := ONE] && Under(SMALL, [0, 1]) == map[[0, 1] := ONE]
    ensures forall n: Nibble :: n > 1 ==> Under(SMALL, Child([0], n)) == map[]
    ensures Child([0], 0) == [0, 0] && Child([0], 1) == [0, 1]
  {
    assert [0, 0] in SMALL && [0, 1] in SMALL;
    forall n: Nibble ensures !Shared(SMALL, Child([0], n)) {
      NotBelow([0], n, [0, 0]);
      NotBelow([0], n, [0, 1]);
    }
    forall n: Nibble | n > 1 ensures Under(SMALL, Child([0], n)) == map[] {
      assert Child([0], n)[1] == n;
    }
  }

  /** From the third child on there is one byte each, and one for the value. */
  lemma {:induction false} EmptyChildren(keccak: Hasher, n: nat)
    requires 2 <= n <= 16 && Buildable(SMALL, [0]) && IsLcp(SMALL, [0])
    ensures |BranchPayload(keccak, SMALL, [0], n)| == 17 - n
    decreases 16 - n
  {
    SmallBuilds();
    if n < 16 {
      EmptyChildren(keccak, n + 1);
      PayloadEmpty(keccak, n);
    }
  }

  lemma PayloadEmpty(keccak: Hasher, n: Nibble)
    requires Buildable(SMALL, [0]) && IsLcp(SMALL, [0]) && Under(SMALL, Child([0], n)) == map[]
    ensures BranchPayload(keccak, SMALL, [0], n) == [Rlp.EMPTY_STRING_CODE] + BranchPayload(keccak, SMALL, [0], n + 1)
  {
  }

  lemma PayloadLeaf(keccak: Hasher, n: Nibble, k: Path)
    requires Buildable(SMALL, [0]) && IsLcp(SMALL, [0]) && k == Child([0], n) && Under(SMALL, k) == map[k := ONE]
    ensures |BranchPayload(keccak, SMALL, [0], n)| == 3 + |BranchPayload(keccak, SMALL, [0], n + 1)|
  {
    LeafSize(keccak, k);
    ChildSmaller(SMALL, [0], n);
    hide Ref;
    assert BranchPayload(keccak, SMALL, [0], n) == Ref(keccak, Under(SMALL, k), k) + BranchPayload(keccak, SMALL, [0], n + 1);
  }

  /** The branch above the first two leaves takes 22 bytes. */
  lemma SmallBranchSize(keccak: Hasher)
    ensures Buildable(SMALL, [0]) && IsLcp(SMALL, [0]) && |BranchRlp(keccak, SMALL, [0])| == 22
  {
    SmallBuilds();
    hide BranchPayload, Ref;
    EmptyChildren(keccak, 2);
    PayloadLeaf(keccak, 1, [0, 1]);
    PayloadLeaf(keccak, 0, [0, 0]);
  }

  lemma AllBuilds()
    ensures PrefixFree(ALL) && BranchPoint(ALL, []) && Under(ALL, [0]) == SMALL && Child([], 0) == [0]
  {
    hide Under, IsLcp, PrefixFree;
    AllPrefixFree();
    UnderSmall();
    UnderNothing(ALL);
    AllBranches();
    AllMany();
  }

  lemma AllPrefixFree()
    ensures PrefixFree(ALL)
  {
    forall a, b | a in ALL && b in ALL && a <= b ensures a == b {
      assert a[0] == b[0];
      if |a| == 2 {
        assert a[1] == b[1];
      }
    }
  }

  lemma UnderSmall()
    ensures Under(ALL, [0]) == SMALL && Child([], 0) == [0]
  {
    NotBelow([], 0, [1]);
  }

  lemma UnderNothing(j: Entries)
    ensures Under(j, []) == j
  {
  }

  lemma AllBranches()
    ensures IsLcp(ALL, [])
  {
    assert [0, 0] in ALL && [1] in ALL;
    forall n: Nibble ensures !Shared(ALL, Child([], n)) {
      NotBelow([], n, [0, 0]);
      NotBelow([], n, [1]);
    }
  }

  lemma AllMany()
    ensures |ALL| > 1
  {
    assert |{[0, 0], [1]}| == 2;
    CardinalityMonotone({[0, 0], [1]}, ALL.Keys);
  }

  /** The branches of this trie cannot all be collected. */
  lemma InlineBranchNotWide(keccak: Hasher)
    ensures PrefixFree(ALL) && !AllWide(keccak, ALL)
  {
    AllBuilds();
    SmallBranchSize(keccak);
    SmallIsBranch();
    assert Child([], 0) == [0];
    NarrowChild(keccak, 0);
    assert BranchPoint(ALL, []);
  }

  lemma SmallIsBranch()
    requires IsLcp(SMALL, [0])
    ensures IsBranch(SMALL, [0]) && SMALL != map[] && !IsHashAt(SMALL, [0])
  {
    assert [0, 0] in SMALL && [0, 1] in SMALL;
    CardinalityMonotone({[0, 0], [0, 1]}, SMALL.Keys);
  }

  lemma NarrowChild(keccak: Hasher, n: Nibble)
    requires PrefixFree(ALL) && Child([], n) == [0] && Under(ALL, [0]) == SMALL && IsBranch(SMALL, [0]) && !IsHashAt(SMALL, [0])
    requires Buildable(SMALL, [0]) && IsLcp(SMALL, [0]) && |BranchRlp(keccak, SMALL, [0])| == 22
    ensures !Wide(keccak, ALL, [])
  {
    hide BranchRlp;
  }

  lemma EntriesSorted()
    ensures TrieRun.Sorted(ENTRIES) && ToMap(ENTRIES) == ALL
  {
    LessAt([0, 0], [0, 1], 1);
    LessAt([0, 1], [1], 0);
    assert ENTRIES[..2][..1] == ENTRIES[..1] && ENTRIES[..1][..0] == [];
    assert ToMap(ENTRIES[..1]) == ToMap(ENTRIES[..1][..0])[[0, 0] := ONE];
    assert ToMap(ENTRIES[..2]) == ToMap(ENTRIES[..2][..1])[[0, 1] := ONE];
    assert ToMap(ENTRIES) == ToMap(ENTRIES[..2])[[1] := ONE];
  }

  /** A run over its leaves fails with a collector, and without one it gives the root. */
  method FailedRun(keccak: Hasher) returns (with: bool, without: bool)
    ensures !with && without
  {
    EntriesSorted();
    InlineBranchNotWide(keccak);
    hide *;
    var collected := BuildTrie(keccak, true, ENTRIES);
    var plain := BuildTrie(keccak, false, ENTRIES);
    with, without := collected.Some?, plain.Some?;
  }
}
