/**
 A branch hash may stand for the whole subtrie below its path. This is what lets the root be
 recomputed from stored branch hashes and only the entries of the changed subtries.
 */
module Substitution {
  import opened Bytes
  import opened Nibbles
  import opened Trie

  /** `j` with everything below `q` replaced by the branch hash `x`. */
  ghost function Collapse(j: Entries, q: Path, x: H256, inDb: bool): Entries {
    (map k | k in j && !(q <= k) :: j[k])[q := Hash(x, inDb)]
  }

  /** The subtrie at `q` is a branch node, too long to be inlined, and `x` is its hash. */
  ghost predicate IsBranchHash(keccak: Hasher, j: Entries, q: Path, x: H256)
    requires PrefixFree(j)
  {
    var s := Under(j, q);
    && s != map[]
    && IsLcp(s, q)
    && |s| > 1
    && |BranchRlp(keccak, s, q)| >= KECCAK_LENGTH
    && x == keccak(BranchRlp(keccak, s, q))
  }

  lemma CollapseKeepsPrefixFree(j: Entries, q: Path, x: H256, inDb: bool)
    requires PrefixFree(j) && Under(j, q) != map[]
    ensures PrefixFree(Collapse(j, q, x, inDb))
  {
    var s := Under(j, q);
    var k :| k in s;
    forall a, b | a in Collapse(j, q, x, inDb) && b in Collapse(j, q, x, inDb) && a <= b ensures a == b {
      assert b == q ==> a <= k;
    }
  }

  /** Entries above `q` keep their branching point. */
  lemma CollapseKeepsLcp(j: Entries, q: Path, x: H256, inDb: bool, l: Path)
    requires IsLcp(j, l) && Under(j, q) != map[] && IsLcp(Under(j, q), q) && Under(j, q) != j
    ensures l <= q && l != q
    ensures IsLcp(Collapse(j, q, x, inDb), l)
  {
    var s, j' := Under(j, q), Collapse(j, q, x, inDb);
    assert Shared(s, l);
    LcpLongest(s, q, l);
    assert l == q ==> Shared(j, q);
    UnderAll(j, q);
    forall n: Nibble ensures !Shared(j', Child(l, n)) {
      CollapseShared(j, q, x, inDb, Child(l, n));
    }
  }

  lemma CollapseShared(j: Entries, q: Path, x: H256, inDb: bool, m: Path)
    ensures Shared(Collapse(j, q, x, inDb), m) ==> Shared(j, m)
  {
    var j' := Collapse(j, q, x, inDb);
    assert q in j';
    assert forall k :: k in j ==> q <= k || k in j';
  }

  lemma UnderAll(j: Entries, q: Path)
    ensures Shared(j, q) <==> Under(j, q) == j
  {
    assert Shared(Under(j, q), q);
    assert Shared(j, q) ==> Under(j, q).Keys == j.Keys;
  }

  lemma CollapseChild(j: Entries, q: Path, x: H256, inDb: bool, c: Path)
    requires |c| <= |q|
    ensures Under(Collapse(j, q, x, inDb), c) == if c <= q then Collapse(Under(j, c), q, x, inDb) else Under(j, c)
    ensures c <= q ==> Under(Under(j, c), q) == Under(j, q)
  {
  }

  lemma TwoKeys(j: Entries, a: Path, b: Path)
    requires a in j && b in j && a != b
    ensures |j| > 1
  {
    CardinalityMonotone({a, b}, j.Keys);
  }

  lemma CollapseCard(j: Entries, q: Path, x: H256, inDb: bool)
    requires PrefixFree(j) && Under(j, q) != j
    ensures |Collapse(j, q, x, inDb)| > 1
    ensures Under(j, q) != map[] ==> |j| > 1
  {
    var j' := Collapse(j, q, x, inDb);
    UnderAll(j, q);
    var k :| k in j && !(q <= k);
    TwoKeys(j', k, q);
    if k' :| k' in Under(j, q) {
      TwoKeys(j, k, k');
    }
  }

  ghost predicate SameNode(keccak: Hasher, j: Entries, j': Entries, p: Path) {
    && Buildable(j, p)
    && Buildable(j', p)
    && Ref(keccak, j', p) == Ref(keccak, j, p)
    && !IsHashAt(j, p)
    && (if IsHashAt(j', p) then j'[p].hash == keccak(NodeRlp(keccak, j, p)) else NodeRlp(keccak, j', p) == NodeRlp(keccak, j, p))
  }

  lemma CollapseWhole(keccak: Hasher, j: Entries, p: Path, q: Path, x: H256, inDb: bool)
    requires Buildable(j, p) && p <= q && IsBranchHash(keccak, j, q, x) && Under(j, q) == j
    ensures SameNode(keccak, j, map[q := Hash(x, inDb)], p)
  {
    LcpUnique(j, Lcp(j), q);
    var j' := map[q := Hash(x, inDb)];
    assert q in j' && Only(j') == q;
  }

  lemma SameBranchSameNode(keccak: Hasher, j: Entries, j': Entries, p: Path, l: Path)
    requires Buildable(j, p) && Buildable(j', p) && |j| > 1 && |j'| > 1 && IsLcp(j, l) && IsLcp(j', l)
    requires BranchPayload(keccak, j', l, 0) == BranchPayload(keccak, j, l, 0)
    ensures SameNode(keccak, j, j', p)
  {
    LcpUnique(j, Lcp(j), l);
    LcpUnique(j', Lcp(j'), l);
    LcpLongest(j, l, p);
    assert NodeRlp(keccak, j', p) == NodeRlp(keccak, j, p);
  }

  /** Collapsing a branch into its hash changes no reference above it. */
  lemma {:induction false} CollapseKeepsRef(keccak: Hasher, j: Entries, p: Path, q: Path, x: H256, inDb: bool)
    requires Buildable(j, p) && p <= q && IsBranchHash(keccak, j, q, x)
    ensures SameNode(keccak, j, Collapse(j, q, x, inDb), p)
    decreases |j|, 18
  {
    var j' := Collapse(j, q, x, inDb);
    CollapseKeepsPrefixFree(j, q, x, inDb);
    assert q in j';
    if Under(j, q) == j {
      UnderAll(j, q);
      assert j' == map[q := Hash(x, inDb)];
      CollapseWhole(keccak, j, p, q, x, inDb);
    } else {
      var l := Lcp(j);
      CollapseKeepsLcp(j, q, x, inDb, l);
      CollapseCard(j, q, x, inDb);
      CollapseKeepsPayload(keccak, j, q, x, inDb, l, 0);
      SameBranchSameNode(keccak, j, j', p, l);
    }
  }

  lemma {:induction false} CollapseKeepsPayload(keccak: Hasher, j: Entries, q: Path, x: H256, inDb: bool, l: Path, n: nat)
    requires n <= 16 && PrefixFree(j) && IsBranchHash(keccak, j, q, x) && Under(j, q) != j
    requires IsLcp(j, l) && Buildable(j, l) && IsLcp(Collapse(j, q, x, inDb), l) && Buildable(Collapse(j, q, x, inDb), l)
    ensures BranchPayload(keccak, Collapse(j, q, x, inDb), l, n) == BranchPayload(keccak, j, l, n)
    decreases |j|, 16 - n
  {
    if n < 16 {
      var c := Child(l, n);
      CollapseKeepsLcp(j, q, x, inDb, l);
      CollapseChild(j, q, x, inDb, c);
      ChildSmaller(j, l, n);
      if c <= q {
        CollapseKeepsRef(keccak, Under(j, c), c, q, x, inDb);
      }
      CollapseKeepsPayload(keccak, j, q, x, inDb, l, n + 1);
    }
  }

  /** The root of the trie does not change either, at any path of the collapsed branch, the root included. */
  lemma CollapseKeepsRoot(keccak: Hasher, j: Entries, q: Path, x: H256, inDb: bool)
    requires PrefixFree(j) && IsBranchHash(keccak, j, q, x)
    ensures PrefixFree(Collapse(j, q, x, inDb))
    ensures Root(keccak, Collapse(j, q, x, inDb)) == Root(keccak, j)
  {
    CollapseKeepsRef(keccak, j, [], q, x, inDb);
  }

  datatype Cut = Cut(path: Path, hash: H256, inDb: bool)

  ghost function CollapseAll(j: Entries, cuts: seq<Cut>): Entries {
    if cuts == [] then j
    else Collapse(CollapseAll(j, cuts[..|cuts| - 1]), cuts[|cuts| - 1].path, cuts[|cuts| - 1].hash, cuts[|cuts| - 1].inDb)
  }

  /** Every cut replaces a branch of what the cuts before it left. */
  ghost predicate ValidCuts(keccak: Hasher, j: Entries, cuts: seq<Cut>)
    requires PrefixFree(j)
  {
    forall i :: 0 <= i < |cuts| ==>
      PrefixFree(CollapseAll(j, cuts[..i])) && IsBranchHash(keccak, CollapseAll(j, cuts[..i]), cuts[i].path, cuts[i].hash)
  }

  /** Any mix of leaves and branch hashes obtained by cutting branches off has the root of the leaves alone. */
  lemma {:induction false} MixKeepsRoot(keccak: Hasher, j: Entries, cuts: seq<Cut>)
    requires PrefixFree(j) && ValidCuts(keccak, j, cuts)
    ensures PrefixFree(CollapseAll(j, cuts))
    ensures Root(keccak, CollapseAll(j, cuts)) == Root(keccak, j)
  {
    if cuts != [] {
      var front, last := cuts[..|cuts| - 1], cuts[|cuts| - 1];
      FrontCuts(keccak, j, cuts);
      hide Root, IsBranchHash, Collapse, PrefixFree, ValidCuts;
      MixKeepsRoot(keccak, j, front);
      CollapseKeepsRoot(keccak, CollapseAll(j, front), last.path, last.hash, last.inDb);
    }
  }

  lemma FrontCuts(keccak: Hasher, j: Entries, cuts: seq<Cut>)
    requires PrefixFree(j) && ValidCuts(keccak, j, cuts) && cuts != []
    ensures var front, last := cuts[..|cuts| - 1], cuts[|cuts| - 1];
      ValidCuts(keccak, j, front) && PrefixFree(CollapseAll(j, front)) && IsBranchHash(keccak, CollapseAll(j, front), last.path, last.hash)
  {
    hide IsBranchHash, CollapseAll, PrefixFree;
    var front := cuts[..|cuts| - 1];
    forall i | 0 <= i < |front|
      ensures PrefixFree(CollapseAll(j, front[..i])) && IsBranchHash(keccak, CollapseAll(j, front[..i]), front[i].path, front[i].hash)
    {
      assert front[..i] == cuts[..i];
    }
  }
}
