/** The invariant of the streaming trie builder and the steps that keep it, on plain values. */
module BuilderInvariant {
  import opened Bytes
  import opened Nibbles
  import opened Trie
  import opened TrieNode
  import opened StoredNodes
  import opened Spine
  import Seqs

  /** `last` is the greatest key. */
  ghost predicate IsLast(j: Entries, last: Path) {
    last in j && forall k :: k in j ==> k == last || Less(k, last)
  }

  /** `next` may follow `last`: it is greater and does not extend it. */
  predicate Follows(last: Path, next: Path) {
    Less(last, next) && !(last <= next)
  }

  /** Nibbles below `p` that lead to a branch, among `bits`. */
  ghost function BranchBits(j: Entries, p: Path, bits: Mask): Mask {
    set n | n in bits && Under(j, Child(p, n)) != map[] && IsBranch(Under(j, Child(p, n)), Child(p, n))
  }

  /** Nibbles below `p` that lead to a kept node, among `bits`. */
  ghost function KeptBits(j: Entries, p: Path, bits: Mask): Mask {
    set n | n in bits && Under(j, Child(p, n)) != map[] && Kept(Under(j, Child(p, n)))
  }

  /** Finished subtries at depth `d`, that at `c[..m]` included. */
  ghost function OpenBits(c: Path, groups: seq<Mask>, m: nat, d: nat): Mask
    requires m <= |c|
  {
    Group(groups, d) + if d + 1 == m then {c[d]} else {}
  }

  /** The masks tell the branches and the kept nodes among the finished subtries. */
  ghost predicate MasksOk(j: Entries, c: Path, groups: seq<Mask>, m: nat, hashMasks: seq<Mask>, treeMasks: seq<Mask>) {
    && m <= |c|
    && |hashMasks| == |treeMasks|
    && |groups| <= |hashMasks| && m <= |hashMasks|
    && forall d :: 0 <= d < |hashMasks| ==>
      && (d < |c| ==> hashMasks[d] == BranchBits(j, c[..d], OpenBits(c, groups, m, d)))
      && (d < |c| ==> treeMasks[d] == KeptBits(j, c[..d], OpenBits(c, groups, m, d)))
      && (d >= |c| ==> hashMasks[d] == {} && treeMasks[d] == {})
  }

  /** Without a collector no mask bit is ever set. */
  ghost predicate MasksUnused(hashMasks: seq<Mask>, treeMasks: seq<Mask>) {
    |hashMasks| == |treeMasks| && forall d :: 0 <= d < |hashMasks| ==> hashMasks[d] == {} && treeMasks[d] == {}
  }

  /** Kept nodes of the finished subtries. */
  ghost function NodesOf(keccak: Hasher, j: Entries, open: seq<Path>): seq<(Path, Node)>
    requires PrefixFree(j) && AllPresent(j, open)
  {
    if open == [] then []
    else NodesOf(keccak, j, open[..|open| - 1]) + Nodes(keccak, Under(j, open[|open| - 1]))
  }

  /** Every branch child of the branch at `p` is long enough to be referred to by hash. */
  ghost predicate Wide(keccak: Hasher, j: Entries, p: Path)
    requires PrefixFree(j)
  {
    forall n: Nibble :: Under(j, Child(p, n)) != map[] && IsBranch(Under(j, Child(p, n)), Child(p, n)) ==>
      IsHashAt(Under(j, Child(p, n)), Child(p, n)) || |BranchRlp(keccak, Under(j, Child(p, n)), Child(p, n))| >= KECCAK_LENGTH
  }

  ghost predicate BranchPoint(j: Entries, p: Path) {
    |Under(j, p)| > 1 && IsLcp(Under(j, p), p)
  }

  /** The branches that are complete once `next` has come (all of them, if nothing follows) are wide. */
  ghost predicate ClosedWide(keccak: Hasher, j: Entries, next: Path)
    requires PrefixFree(j)
  {
    forall p :: BranchPoint(j, p) && (next == [] || !(p <= next)) ==> Wide(keccak, j, p)
  }

  /** The masks, with or without a collector. */
  ghost predicate MasksFit(collecting: bool, j: Entries, c: Path, groups: seq<Mask>, m: nat, hashMasks: seq<Mask>, treeMasks: seq<Mask>) {
    if collecting then MasksOk(j, c, groups, m, hashMasks, treeMasks)
    else MasksUnused(hashMasks, treeMasks) && m <= |hashMasks|
  }

  ghost predicate CollectedFit(keccak: Hasher, collecting: bool, j: Entries, open: seq<Path>, collected: seq<(Path, Node)>) {
    if collecting then CollectedOk(keccak, j, open, collected) else collected == []
  }

  // References

  lemma WideRef(keccak: Hasher, j: Entries, p: Path)
    requires Buildable(j, p) && IsBranch(j, p)
    requires IsHashAt(j, p) || |BranchRlp(keccak, j, p)| >= KECCAK_LENGTH
    ensures |Ref(keccak, j, p)| == KECCAK_LENGTH + 1 && Ref(keccak, j, p)[1..] == BranchHash(keccak, j, p)
  {
    if !IsHashAt(j, p) {
      LcpUnique(j, Lcp(j), p);
    }
  }

  lemma BranchRef(keccak: Hasher, j: Entries, p: Path)
    requires Buildable(j, p) && |j| > 1 && IsLcp(j, p)
    ensures Ref(keccak, j, p) == NodeRef(keccak, BranchRlp(keccak, j, p))
  {
    LcpUnique(j, Lcp(j), p);
  }

  /** The only entry below a key is the key itself. */
  lemma UnderKey(j: Entries, k: Path)
    requires PrefixFree(j) && k in j
    ensures Under(j, k) == map[k := j[k]] && |Under(j, k)| == 1
  {
    var s := Under(j, k);
    assert s.Keys == {k};
  }

  lemma PushLeaf(keccak: Hasher, j: Entries, k: Path, m: nat)
    requires PrefixFree(j) && k in j && j[k].Leaf? && m <= |k| && Under(j, k[..m]) == Under(j, k)
    ensures k in Under(j, k[..m])
    ensures RefAt(keccak, j, k[..m]) == NodeRef(keccak, LeafRlp(k[m..], j[k].bytes))
  {
    UnderKey(j, k);
    var s := Under(j, k);
    assert Only(s) == k;
    assert k in s && !IsHashAt(s, k[..m]);
    assert NodeRlp(keccak, s, k[..m]) == LeafRlp(k[|k[..m]|..], j[k].bytes);
  }

  lemma PushHash(keccak: Hasher, j: Entries, k: Path)
    requires PrefixFree(j) && k in j && j[k].Hash?
    ensures Under(j, k) != map[] && RefAt(keccak, j, k) == WrapHash(j[k].hash) && IsBranch(Under(j, k), k)
  {
    UnderKey(j, k);
  }

  lemma PushExtension(keccak: Hasher, j: Entries, c: Path, m: nat)
    requires PrefixFree(j) && m < |c| && Under(j, c[..m]) == Under(j, c) != map[] && IsBranch(Under(j, c), c)
    ensures RefAt(keccak, j, c[..m]) == NodeRef(keccak, ExtensionRlp(c[m..], RefAt(keccak, j, c)))
    ensures !IsBranch(Under(j, c[..m]), c[..m])
  {
    var s := Under(j, c);
    if IsHashAt(s, c) {
      assert Only(s) == c;
      assert !IsHashAt(s, c[..m]);
      assert NodeRlp(keccak, s, c[..m]) == ExtensionRlp(c[|c[..m]|..], WrapHash(s[c].hash));
    } else {
      LcpUnique(s, Lcp(s), c);
      BranchRef(keccak, s, c);
      assert !IsHashAt(s, c[..m]);
      assert NodeRlp(keccak, s, c[..m]) == ExtensionRlp(c[|c[..m]|..], NodeRef(keccak, BranchRlp(keccak, s, c)));
      if IsLcp(s, c[..m]) {
        LcpUnique(s, c, c[..m]);
      }
    }
  }

  // Order

  lemma OthersSmaller(j: Entries, last: Path, c: Path, d: nat)
    requires IsLast(j, last) && c <= last && d < |c|
    ensures forall n :: n in Others(j, c, d) ==> n < c[d]
  {
    forall n | n in Others(j, c, d) ensures n < c[d] {
      var k :| k in Under(j, Child(c[..d], n));
      assert k[..d] == Child(c[..d], n)[..d] == c[..d] == last[..d];
      assert k[d] == Child(c[..d], n)[d] == n;
      PrefixLengthUnique(k, last, d);
    }
  }

  lemma AddKeepsPrefixFree(j: Entries, last: Path, next: Path, v: Value)
    requires PrefixFree(j) && IsLast(j, last) && Follows(last, next)
    ensures PrefixFree(j[next := v]) && IsLast(j[next := v], next) && next !in j
  {
    LessAsymmetric(last, next);
    forall k | k in j ensures Less(k, next) && !(k <= next) && !(next <= k) {
      if k != last {
        LessTransitive(k, last, next);
        if k <= next {
          PrefixBetween(k, last, next);
        }
      }
      LessAsymmetric(k, next);
      if next <= k {
        PrefixLess(next, k);
      }
    }
  }

  /** What lies between a path and its extension extends the path. */
  lemma PrefixBetween(a: Path, b: Path, c: Path)
    requires Less(a, b) && Less(b, c) && a <= c
    ensures a <= b
  {
    var i := PrefixLength(a, b);
    assert a[..i] == b[..i];
    if i < |a| {
      assert c[..i] == a[..i] == b[..i] && c[i] == a[i];
      LessAt(c, b, i);
      LessAsymmetric(b, c);
    } else {
      assert a == a[..i];
    }
  }

  /** A new key that follows touches no finished subtrie. */
  lemma AddKeepsUnder(j: Entries, next: Path, v: Value, p: Path)
    requires !(p <= next)
    ensures Under(j[next := v], p) == Under(j, p)
  {
  }

  // Masks

  /** Whether a mask contains one more bit. */
  ghost predicate GrowsBy(before: Mask, bit: Nibble, present: bool, after: Mask) {
    after == if present then before + {bit} else before
  }

  /** Making the subtrie at `c[..m]` visible adds at most its bit at the level above. */
  lemma MasksGrow(j: Entries, c: Path, groups: seq<Mask>, m: nat, hm: seq<Mask>, tm: seq<Mask>, hm': seq<Mask>, tm': seq<Mask>)
    requires MasksOk(j, c, groups, 0, hm, tm) && 0 < m <= |c| && m <= |hm|
    requires Under(j, c[..m]) != map[]
    requires |hm'| == |tm'| == |hm| && forall d :: 0 <= d < |hm| && d != m - 1 ==> hm'[d] == hm[d] && tm'[d] == tm[d]
    requires GrowsBy(hm[m - 1], c[m - 1], IsBranch(Under(j, c[..m]), c[..m]), hm'[m - 1])
    requires GrowsBy(tm[m - 1], c[m - 1], Kept(Under(j, c[..m])), tm'[m - 1])
    ensures MasksOk(j, c, groups, m, hm', tm')
  {
    assert Child(c[..m - 1], c[m - 1]) == c[..m];
    forall d | 0 <= d < |hm| && d < |c|
      ensures hm'[d] == BranchBits(j, c[..d], OpenBits(c, groups, m, d))
      ensures tm'[d] == KeptBits(j, c[..d], OpenBits(c, groups, m, d))
    {
      if d == m - 1 {
        BranchBitsAdd(j, c[..d], OpenBits(c, groups, 0, d), c[d]);
        KeptBitsAdd(j, c[..d], OpenBits(c, groups, 0, d), c[d]);
      } else {
        assert OpenBits(c, groups, m, d) == OpenBits(c, groups, 0, d);
      }
    }
  }

  lemma BranchBitsAdd(j: Entries, p: Path, bits: Mask, n: Nibble)
    requires Under(j, Child(p, n)) != map[]
    ensures GrowsBy(BranchBits(j, p, bits), n, IsBranch(Under(j, Child(p, n)), Child(p, n)), BranchBits(j, p, bits + {n}))
  {
  }

  lemma KeptBitsAdd(j: Entries, p: Path, bits: Mask, n: Nibble)
    requires Under(j, Child(p, n)) != map[]
    ensures GrowsBy(KeptBits(j, p, bits), n, Kept(Under(j, Child(p, n))), KeptBits(j, p, bits + {n}))
  {
  }

  /** Forgetting the subtrie at `c` and everything deeper than `m`, where nothing else leaves `c`. */
  lemma MasksTruncate(j: Entries, c: Path, groups: seq<Mask>, m: nat, hm: seq<Mask>, tm: seq<Mask>)
    requires MasksOk(j, c, groups, |c|, hm, tm) && m < |c| && |groups| <= m
    ensures MasksOk(j, c, groups, 0, hm[..m], tm[..m])
    ensures Under(j, c) != map[] ==> (tm[|c| - 1] != {} <==> Kept(Under(j, c)))
  {
    var d := |c| - 1;
    assert Child(c[..d], c[d]) == c;
    assert OpenBits(c, groups, |c|, d) == {c[d]};
    if Under(j, c) != map[] && Kept(Under(j, c)) {
      assert c[d] in KeptBits(j, c[..d], {c[d]});
    }
    forall d | 0 <= d < m ensures OpenBits(c, groups, |c|, d) == OpenBits(c, groups, 0, d) {
    }
  }

  /** When the next key comes, the subtrie at `c[..m + 1]` is one of those that leave it. */
  lemma MasksNext(j: Entries, c: Path, next: Path, groups: seq<Mask>, m: nat, hm: seq<Mask>, tm: seq<Mask>)
    requires m < |c| && m < |next| && c[..m] == next[..m] && |groups| <= m + 1
    requires MasksOk(j, c, groups, m + 1, hm, tm)
    ensures MasksOk(j, next, Extend(groups, m, Group(groups, m) + {c[m]}), 0, hm, tm)
  {
    var groups' := Extend(groups, m, Group(groups, m) + {c[m]});
    forall d | 0 <= d < |hm|
      ensures d < |next| ==> hm[d] == BranchBits(j, next[..d], OpenBits(next, groups', 0, d))
      ensures d < |next| ==> tm[d] == KeptBits(j, next[..d], OpenBits(next, groups', 0, d))
      ensures d >= |next| ==> hm[d] == {} && tm[d] == {}
    {
      if d <= m {
        assert c[..d] == c[..m][..d] == next[..m][..d] == next[..d];
        assert OpenBits(c, groups, m + 1, d) == OpenBits(next, groups', 0, d);
      } else {
        assert hm[d] == {} && tm[d] == {};
        assert Group(groups', d) == {};
      }
    }
  }

  /** At a branch the masks are those of its node. */
  lemma MasksOfBranch(j: Entries, c: Path, groups: seq<Mask>, m: nat, hm: seq<Mask>, tm: seq<Mask>, k: Path)
    requires MasksOk(j, c, groups, m + 1, hm, tm) && m < |c| && k in j && c <= k && Others(j, c, m) == Group(groups, m)
    ensures m < |hm| == |tm|
    ensures var p := c[..m]; hm[m] == HashMask(Under(j, p), p) && tm[m] == TreeMask(Under(j, p), p)
  {
    var p := c[..m];
    BranchMask(j, c, m, k);
    assert OpenBits(c, groups, m + 1, m) == StateMask(Under(j, p), p);
    forall n: Nibble ensures Under(Under(j, p), Child(p, n)) == Under(j, Child(p, n)) {
      UnderUnder(j, p, Child(p, n));
    }
    forall n: Nibble ensures n in hm[m] <==> n in HashMask(Under(j, p), p) {
    }
    forall n: Nibble ensures n in tm[m] <==> n in TreeMask(Under(j, p), p) {
    }
  }

  /** Once a branch is closed only the levels above it remain. */
  lemma MasksAbove(j: Entries, c: Path, groups: seq<Mask>, m: nat, hm: seq<Mask>, tm: seq<Mask>, groups': seq<Mask>)
    requires MasksOk(j, c, groups, m + 1, hm, tm) && m < |c|
    requires |groups'| <= m && forall d :: 0 <= d < m ==> Group(groups', d) == Group(groups, d)
    ensures MasksOk(j, c[..m], groups', 0, hm[..m], tm[..m])
  {
    forall d | 0 <= d < m
      ensures hm[d] == BranchBits(j, c[..m][..d], OpenBits(c[..m], groups', 0, d))
      ensures tm[d] == KeptBits(j, c[..m][..d], OpenBits(c[..m], groups', 0, d))
    {
      assert c[..m][..d] == c[..d];
      assert OpenBits(c, groups, m + 1, d) == OpenBits(c[..m], groups', 0, d);
    }
  }

  // Kept nodes

  lemma NodesAppend(keccak: Hasher, j: Entries, open: seq<Path>, p: Path)
    requires PrefixFree(j) && Under(j, p) != map[] && AllPresent(j, open)
    ensures AllPresent(j, open + [p])
    ensures NodesOf(keccak, j, open + [p]) == NodesOf(keccak, j, open) + Nodes(keccak, Under(j, p))
  {
    assert (open + [p])[..|open|] == open;
  }

  ghost predicate AllPresent(j: Entries, open: seq<Path>) {
    forall i :: 0 <= i < |open| ==> Under(j, open[i]) != map[]
  }

  ghost predicate CollectedOk(keccak: Hasher, j: Entries, open: seq<Path>, collected: seq<(Path, Node)>) {
    PrefixFree(j) && AllPresent(j, open) && collected == NodesOf(keccak, j, open)
  }

  ghost predicate IsStateMask(j: Entries, p: Path, mask: Mask) {
    forall n: Nibble :: n in mask <==> Under(j, Child(p, n)) != map[]
  }

  lemma RowPresent(j: Entries, open: seq<Path>, p: Path, mask: Mask, bits: seq<Nibble>)
    requires IsStateMask(j, p, mask) && AllPresent(j, open) && forall n :: n in bits ==> n in mask
    ensures AllPresent(j, open + Row(p, bits))
  {
    var all := open + Row(p, bits);
    forall i | 0 <= i < |all| ensures Under(j, all[i]) != map[] {
      if |open| <= i {
        assert bits[i - |open|] in mask;
      }
    }
  }

  /** The nodes of the children of a branch, one after the other. */
  lemma {:induction false} NodesOfRow(keccak: Hasher, j: Entries, open: seq<Path>, p: Path, mask: Mask, bits: seq<Nibble>, n: nat)
    requires PrefixFree(j) && n <= 16 && IsLcp(Under(j, p), p) && IsStateMask(j, p, mask) && InRankOrder(mask, bits)
    requires AllPresent(j, open)
    ensures Rank(mask, n) <= |bits| && AllPresent(j, open + Row(p, bits[..Rank(mask, n)]))
    ensures NodesOf(keccak, j, open + Row(p, bits[..Rank(mask, n)])) == NodesOf(keccak, j, open) + NodesBelow(keccak, Under(j, p), p, n)
  {
    RankBound(mask, n);
    RowPresent(j, open, p, mask, bits[..Rank(mask, n)]);
    if n == 0 {
      RankEnds(mask);
      assert open + Row(p, bits[..0]) == open;
    } else {
      NodesOfRow(keccak, j, open, p, mask, bits, n - 1);
      RowStep(open, p, mask, bits, n - 1);
      NodesOfNext(keccak, j, open + Row(p, bits[..Rank(mask, n - 1)]), p, mask, n - 1, NodesOf(keccak, j, open));
    }
  }

  lemma NodesBelowStep(keccak: Hasher, j: Entries, p: Path, n: Nibble)
    requires PrefixFree(j) && IsLcp(Under(j, p), p)
    ensures NodesBelow(keccak, Under(j, p), p, n + 1) ==
      NodesBelow(keccak, Under(j, p), p, n) + if Under(j, Child(p, n)) == map[] then [] else Nodes(keccak, Under(j, Child(p, n)))
  {
    UnderUnder(j, p, Child(p, n));
  }

  lemma NodesOfNext(keccak: Hasher, j: Entries, before: seq<Path>, p: Path, mask: Mask, n: Nibble, prefix: seq<(Path, Node)>)
    requires PrefixFree(j) && IsLcp(Under(j, p), p) && (n in mask <==> Under(j, Child(p, n)) != map[]) && AllPresent(j, before)
    requires NodesOf(keccak, j, before) == prefix + NodesBelow(keccak, Under(j, p), p, n)
    ensures n in mask ==> AllPresent(j, before + [Child(p, n)])
    ensures NodesOf(keccak, j, if n in mask then before + [Child(p, n)] else before) == prefix + NodesBelow(keccak, Under(j, p), p, n + 1)
  {
    NodesBelowStep(keccak, j, p, n);
    var below := NodesBelow(keccak, Under(j, p), p, n);
    if n in mask {
      NodesAppend(keccak, j, before, Child(p, n));
      var more := Nodes(keccak, Under(j, Child(p, n)));
      Seqs.Assoc(prefix, below, more);
    } else {
      assert below + [] == below;
    }
  }

  lemma RowStep(open: seq<Path>, p: Path, mask: Mask, bits: seq<Nibble>, n: Nibble)
    requires InRankOrder(mask, bits)
    ensures n !in mask ==> Rank(mask, n + 1) == Rank(mask, n)
    ensures n in mask ==> Rank(mask, n + 1) == Rank(mask, n) + 1 <= |bits|
    ensures n in mask ==> open + Row(p, bits[..Rank(mask, n + 1)]) == open + Row(p, bits[..Rank(mask, n)]) + [Child(p, n)]
  {
    RankStep(mask, n);
    if n in mask {
      AtRank(mask, bits, n);
      assert Row(p, bits[..Rank(mask, n) + 1]) == Row(p, bits[..Rank(mask, n)]) + [Child(p, n)];
    }
  }

  lemma NodesOfBranch(keccak: Hasher, j: Entries, p: Path)
    requires PrefixFree(j) && BranchPoint(j, p)
    ensures var s := Under(j, p);
      Nodes(keccak, s) == NodesBelow(keccak, s, p, 16) + (if Kept(s) then [(p, NodeAt(keccak, s, p))] else [])
  {
    LcpUnique(Under(j, p), Lcp(Under(j, p)), p);
  }

  // Children of a branch

  /** `refs` are the references of the children of `p` in `mask`, each at its rank. */
  ghost predicate ChildRefs(keccak: Hasher, s: Entries, p: Path, mask: Mask, refs: seq<Bytes>)
    requires PrefixFree(s)
  {
    && |refs| == |mask|
    && forall n: Nibble :: n in mask ==> ChildRef(keccak, s, p, n, refs, Rank(mask, n))
  }

  ghost predicate ChildRef(keccak: Hasher, s: Entries, p: Path, n: Nibble, refs: seq<Bytes>, i: nat)
    requires PrefixFree(s)
  {
    Under(s, Child(p, n)) != map[] && i < |refs| && refs[i] == RefAt(keccak, s, Child(p, n))
  }

  /** The last row on the stack holds the children of the branch at its path. */
  lemma LastRow(keccak: Hasher, j: Entries, above: seq<Path>, p: Path, mask: Mask, stack: seq<Bytes>)
    requires PrefixFree(j) && RefsOk(keccak, j, above + Row(p, Bits(mask)), stack)
    ensures |stack| == |above| + |mask|
    ensures ChildRefs(keccak, Under(j, p), p, mask, stack[|above|..])
    ensures RefsOk(keccak, j, above, stack[..|above|])
  {
    var open := above + Row(p, Bits(mask));
    BitsInRankOrder(mask);
    forall n: Nibble | n in mask ensures ChildRef(keccak, Under(j, p), p, n, stack[|above|..], Rank(mask, n)) {
      AtRank(mask, Bits(mask), n);
      UnderUnder(j, p, Child(p, n));
      assert open[|above| + Rank(mask, n)] == Child(p, n);
    }
    forall i | 0 <= i < |above| ensures Under(j, above[i]) != map[] && stack[i] == RefAt(keccak, j, above[i]) {
      assert open[i] == above[i];
    }
  }

  /** The references of branch children are wrapped hashes. */
  lemma HashesOfChildren(keccak: Hasher, s: Entries, p: Path, childRefs: seq<Bytes>)
    requires PrefixFree(s) && Wide(keccak, s, p) && ChildRefs(keccak, s, p, HashMask(s, p), childRefs)
    ensures |childRefs| == |ChildHashes(keccak, s, p)|
    ensures forall i :: 0 <= i < |childRefs| ==>
      |childRefs[i]| == KECCAK_LENGTH + 1 && childRefs[i][1..] == ChildHashes(keccak, s, p)[i]
  {
    var mask := HashMask(s, p);
    BitsInRankOrder(mask);
    forall i | 0 <= i < |childRefs| ensures |childRefs[i]| == KECCAK_LENGTH + 1 && childRefs[i][1..] == ChildHashes(keccak, s, p)[i] {
      var n := Bits(mask)[i];
      assert n in mask;
      assert ChildRef(keccak, s, p, n, childRefs, i);
      WideRef(keccak, Under(s, Child(p, n)), Child(p, n));
    }
  }

  /** A branch is wide exactly when the references of its branch children have the length of a wrapped hash. */
  lemma WideLengths(keccak: Hasher, s: Entries, p: Path, childRefs: seq<Bytes>)
    requires PrefixFree(s) && ChildRefs(keccak, s, p, HashMask(s, p), childRefs)
    ensures Wide(keccak, s, p) <==> forall i :: 0 <= i < |childRefs| ==> |childRefs[i]| == KECCAK_LENGTH + 1
  {
    if Wide(keccak, s, p) {
      HashesOfChildren(keccak, s, p, childRefs);
    }
    if forall i :: 0 <= i < |childRefs| ==> |childRefs[i]| == KECCAK_LENGTH + 1 {
      forall n: Nibble | n in HashMask(s, p)
        ensures IsHashAt(Under(s, Child(p, n)), Child(p, n)) || |BranchRlp(keccak, Under(s, Child(p, n)), Child(p, n))| >= KECCAK_LENGTH
      {
        assert ChildRef(keccak, s, p, n, childRefs, Rank(HashMask(s, p), n));
        LongRef(keccak, Under(s, Child(p, n)), Child(p, n));
      }
    }
  }

  lemma LongRef(keccak: Hasher, j: Entries, p: Path)
    requires Buildable(j, p) && IsBranch(j, p) && |Ref(keccak, j, p)| == KECCAK_LENGTH + 1
    ensures IsHashAt(j, p) || |BranchRlp(keccak, j, p)| >= KECCAK_LENGTH
  {
    if !IsHashAt(j, p) {
      BranchRef(keccak, j, p);
    }
  }

  lemma WideUnder(keccak: Hasher, j: Entries, p: Path)
    requires PrefixFree(j)
    ensures Wide(keccak, Under(j, p), p) <==> Wide(keccak, j, p)
  {
    forall n: Nibble ensures Under(Under(j, p), Child(p, n)) == Under(j, Child(p, n)) {
      UnderUnder(j, p, Child(p, n));
    }
  }

  // Moving along the path

  /** Paths of the finished subtries: those that leave `c`, and `c[..m]` itself if it is one. */
  ghost function Open(c: Path, groups: seq<Mask>, own: seq<Path>): seq<Path>
    requires |groups| <= |c|
  {
    Rows(c, groups, |groups|) + own
  }

  /** The builder stands at `c`, an end of the last key or a branch above it. */
  ghost predicate At(keccak: Hasher, collecting: bool, j: Entries, last: Path, c: Path, groups: seq<Mask>, top: bool,
                     stack: seq<Bytes>, hm: seq<Mask>, tm: seq<Mask>, collected: seq<(Path, Node)>)
  {
    && PrefixFree(j) && IsLast(j, last) && c != [] && c <= last
    && (if top then BranchPoint(j, c) else c == last)
    && GroupsOk(j, c, groups)
    && RefsOk(keccak, j, Open(c, groups, if top then [c] else []), stack)
    && CollectedFit(keccak, collecting, j, Open(c, groups, if top then [c] else []), collected)
    && MasksFit(collecting, j, c, groups, if top then |c| else 0, hm, tm)
  }

  /** The subtrie below `c` has been pushed as seen from `c[..m]`. */
  ghost predicate Pushed(keccak: Hasher, collecting: bool, j: Entries, c: Path, groups: seq<Mask>, m: nat,
                         stack: seq<Bytes>, hm: seq<Mask>, tm: seq<Mask>, collected: seq<(Path, Node)>)
  {
    && PrefixFree(j) && m <= |c| && GroupsOk(j, c, groups) && |groups| <= m
    && Under(j, c[..m]) != map[]
    && RefsOk(keccak, j, Open(c, groups, [c[..m]]), stack)
    && CollectedFit(keccak, collecting, j, Open(c, groups, [c[..m]]), collected)
    && MasksFit(collecting, j, c, groups, m, hm, tm)
  }

  /** Everything that has come is finished, apart from what lies on the path to `next`. */
  ghost predicate ReadyFor(keccak: Hasher, collecting: bool, j: Entries, next: Path, groups: seq<Mask>,
                           stack: seq<Bytes>, hm: seq<Mask>, tm: seq<Mask>, collected: seq<(Path, Node)>)
  {
    && PrefixFree(j)
    && GroupsOk(j, next, groups)
    && RefsOk(keccak, j, Open(next, groups, []), stack)
    && CollectedFit(keccak, collecting, j, Open(next, groups, []), collected)
    && MasksFit(collecting, j, next, groups, 0, hm, tm)
  }

  lemma OpenNext(j: Entries, last: Path, c: Path, next: Path, groups: seq<Mask>, m: nat)
    requires IsLast(j, last) && Less(last, next) && c <= last && m == PrefixLength(next, c) && m < |c| && m < |next|
    requires GroupsOk(j, c, groups) && |groups| <= m + 1
    ensures var groups' := Extend(groups, m, Group(groups, m) + {c[m]});
      GroupsOk(j, next, groups') && Open(next, groups', []) == Open(c, groups, [c[..m + 1]])
  {
    var groups' := Extend(groups, m, Group(groups, m) + {c[m]});
    OthersSmaller(j, last, c, m);
    GroupsNext(j, last, c, next, groups, m);
    RowsExtend(c, groups, m);
    assert |groups'| == m + 1;
    RowsAgree(c, next, groups', groups', m + 1);
    assert Open(next, groups', []) == Rows(next, groups', m + 1);
  }

  /** The next key leaves the path at `m`: it may come. */
  lemma PushedThenReady(keccak: Hasher, collecting: bool, j: Entries, last: Path, c: Path, next: Path, groups: seq<Mask>, m: nat,
                        stack: seq<Bytes>, hm: seq<Mask>, tm: seq<Mask>, collected: seq<(Path, Node)>)
    requires Pushed(keccak, collecting, j, c, groups, m + 1, stack, hm, tm, collected)
    requires IsLast(j, last) && Less(last, next) && c <= last && m == PrefixLength(next, c) && m < |c| && m < |next|
    ensures ReadyFor(keccak, collecting, j, next, Extend(groups, m, Group(groups, m) + {c[m]}), stack, hm, tm, collected)
  {
    hide RefsOk, CollectedOk, GroupsOk, MasksOk, Open;
    assert |groups| <= m + 1;
    OpenNext(j, last, c, next, groups, m);
    if collecting {
      MasksNext(j, c, next, groups, m, hm, tm);
    }
  }

  /** The subtrie pushed completes the row of the branch at `c[..m]`. */
  lemma OpenRow(j: Entries, last: Path, c: Path, groups: seq<Mask>, m: nat)
    requires IsLast(j, last) && c <= last && m < |c| && GroupsOk(j, c, groups) && |groups| == m + 1
    ensures Open(c, groups, [c[..m + 1]]) == Rows(c, groups, m) + Row(c[..m], Bits(groups[m] + {c[m]}))
  {
    var groups' := Extend(groups, m, Group(groups, m) + {c[m]});
    OthersSmaller(j, last, c, m);
    RowsExtend(c, groups, m);
    RowsAgree(c, c, groups, groups', m);
  }

  /** `groups` without the empty levels at its end. */
  ghost predicate Trimmed(groups: seq<Mask>, trimmed: seq<Mask>) {
    && trimmed <= groups
    && (trimmed != [] ==> trimmed[|trimmed| - 1] != {})
    && forall d :: |trimmed| <= d < |groups| ==> groups[d] == {}
  }

  lemma OthersPrefix(j: Entries, c: Path, m: nat, d: nat)
    requires d < m <= |c|
    ensures Others(j, c[..m], d) == Others(j, c, d)
  {
    assert c[..m][..d] == c[..d];
  }

  lemma GroupsAbove(j: Entries, c: Path, groups: seq<Mask>, m: nat, trimmed: seq<Mask>)
    requires GroupsOk(j, c, groups) && m < |c| && |groups| == m + 1 && Trimmed(groups[..m], trimmed)
    ensures GroupsOk(j, c[..m], trimmed)
    ensures Rows(c[..m], trimmed, |trimmed|) == Rows(c, groups, m)
  {
    hide Rows, Others;
    forall d | 0 <= d < m ensures Others(j, c[..m], d) == Group(trimmed, d) == Group(groups, d) {
      OthersPrefix(j, c, m, d);
    }
    RowsAgree(c[..m], c, trimmed, groups, m);
    RowsBeyond(c[..m], trimmed, m);
  }

  lemma MasksTrim(collecting: bool, j: Entries, c: Path, groups: seq<Mask>, m: nat, hm: seq<Mask>, tm: seq<Mask>, trimmed: seq<Mask>)
    requires MasksFit(collecting, j, c, groups, m, hm, tm) && Trimmed(groups, trimmed)
    ensures MasksFit(collecting, j, c, trimmed, m, hm, tm)
  {
    if collecting {
      forall d | 0 <= d < |hm| && d < |c| ensures OpenBits(c, groups, m, d) == OpenBits(c, trimmed, m, d) {
      }
    }
  }

  /** After a branch is closed the builder stands at it. */
  lemma ClosedThenAt(keccak: Hasher, collecting: bool, j: Entries, last: Path, c: Path, groups: seq<Mask>, m: nat, trimmed: seq<Mask>,
                     stack: seq<Bytes>, hm: seq<Mask>, tm: seq<Mask>, collected: seq<(Path, Node)>)
    requires PrefixFree(j) && IsLast(j, last) && c <= last && 0 < m < |c| && GroupsOk(j, c, groups) && |groups| == m + 1
    requires Trimmed(groups[..m], trimmed) && BranchPoint(j, c[..m])
    requires RefsOk(keccak, j, Rows(c, groups, m) + [c[..m]], stack)
    requires CollectedFit(keccak, collecting, j, Rows(c, groups, m) + [c[..m]], collected)
    requires MasksFit(collecting, j, c[..m], groups[..m], m, hm, tm)
    ensures At(keccak, collecting, j, last, c[..m], trimmed, true, stack, hm, tm, collected)
  {
    hide RefsOk, CollectedOk, MasksFit, Trimmed, BranchPoint;
    GroupsAbove(j, c, groups, m, trimmed);
    MasksTrim(collecting, j, c[..m], groups[..m], m, hm, tm, trimmed);
    assert Open(c[..m], trimmed, [c[..m]]) == Rows(c, groups, m) + [c[..m]];
  }

  lemma RootPushed(keccak: Hasher, j: Entries, stack: seq<Bytes>)
    requires PrefixFree(j) && RefsOk(keccak, j, [[]], stack)
    ensures j != map[] && stack == [Ref(keccak, j, [])]
  {
    var open: seq<Path> := [[]];
    assert open[0] == [];
    assert Under(j, []) == j;
  }

  lemma RootCollected(keccak: Hasher, j: Entries, collected: seq<(Path, Node)>)
    requires CollectedOk(keccak, j, [[]], collected)
    ensures j != map[] && collected == Nodes(keccak, j)
  {
    var none: seq<Path> := [];
    assert Under(j, []) == j;
    assert [[]][..0] == none;
    NodesAppend(keccak, j, none, []);
    assert none + [[]] == [[]];
  }

  lemma MasksPad(collecting: bool, j: Entries, c: Path, groups: seq<Mask>, m: nat, hm: seq<Mask>, tm: seq<Mask>, hm': seq<Mask>, tm': seq<Mask>)
    requires MasksFit(collecting, j, c, groups, m, hm, tm) && |hm'| == |tm'| >= |hm|
    requires forall d :: 0 <= d < |hm'| ==> hm'[d] == (if d < |hm| then hm[d] else {}) && tm'[d] == (if d < |tm| then tm[d] else {})
    ensures MasksFit(collecting, j, c, groups, m, hm', tm')
  {
    if collecting {
      forall d | |hm| <= d < |hm'| && d < |c| ensures OpenBits(c, groups, m, d) == {} {
      }
    }
  }

  lemma PrefixTooShort(next: Path, c: Path, m: nat)
    requires PrefixLength(next, c) < m <= |c|
    ensures !(c[..m] <= next)
  {
    if c[..m] <= next {
      PrefixLengthAtLeast(next, c, m);
    }
  }

  lemma NotPrefixLength(next: Path, c: Path)
    requires !(c <= next)
    ensures PrefixLength(next, c) < |c|
  {
    var i := PrefixLength(next, c);
    assert c[..i] == next[..i];
  }

  lemma FollowsLength(last: Path, next: Path, c: Path)
    requires Follows(last, next) && c <= last && !(c <= next)
    ensures PrefixLength(next, c) < |c| && PrefixLength(next, c) < |next|
  {
    NotPrefixLength(next, c);
    var i := PrefixLength(next, c);
    assert i == |next| ==> next <= c <= last;
    if i == |next| {
      LessAsymmetric(last, next);
      PrefixLess(next, last);
    }
  }

  lemma ReadyThenAt(keccak: Hasher, collecting: bool, j: Entries, last: Path, groups: seq<Mask>,
                    stack: seq<Bytes>, hm: seq<Mask>, tm: seq<Mask>, collected: seq<(Path, Node)>)
    requires ReadyFor(keccak, collecting, j, last, groups, stack, hm, tm, collected) && IsLast(j, last) && last != []
    ensures At(keccak, collecting, j, last, last, groups, false, stack, hm, tm, collected)
  {
  }

  /** A new key leaves everything that is finished as it is. */
  lemma ReadyAfterAdd(keccak: Hasher, collecting: bool, j: Entries, next: Path, v: Value, groups: seq<Mask>,
                      stack: seq<Bytes>, hm: seq<Mask>, tm: seq<Mask>, collected: seq<(Path, Node)>)
    requires ReadyFor(keccak, collecting, j, next, groups, stack, hm, tm, collected) && PrefixFree(j[next := v])
    ensures ReadyFor(keccak, collecting, j[next := v], next, groups, stack, hm, tm, collected)
  {
    hide Rows, CollectedOk, MasksOk, Ref;
    var j' := j[next := v];
    assert GroupsOk(j', next, groups) by {
      forall d | 0 <= d < |next| ensures Others(j', next, d) == Others(j, next, d) {
        OthersAfterAdd(j, next, v, d);
      }
    }
    var open := Open(next, groups, []);
    assert open == Rows(next, groups, |groups|);
    forall i | 0 <= i < |open| ensures Under(j', open[i]) == Under(j, open[i]) {
      RowsLeave(next, groups, j, |groups|, i);
      AddKeepsUnder(j, next, v, open[i]);
    }
    if collecting {
      CollectedAfterAdd(keccak, j, next, v, open, collected);
      MasksAfterAdd(j, next, v, groups, hm, tm);
    }
  }

  lemma OthersAfterAdd(j: Entries, next: Path, v: Value, d: nat)
    requires d < |next|
    ensures Others(j[next := v], next, d) == Others(j, next, d)
    ensures forall n: Nibble :: n != next[d] ==> Under(j[next := v], Child(next[..d], n)) == Under(j, Child(next[..d], n))
  {
    forall n: Nibble | n != next[d] ensures Under(j[next := v], Child(next[..d], n)) == Under(j, Child(next[..d], n)) {
      assert Child(next[..d], n)[d] == n;
      AddKeepsUnder(j, next, v, Child(next[..d], n));
    }
  }

  lemma {:induction false} CollectedAfterAdd(keccak: Hasher, j: Entries, next: Path, v: Value, open: seq<Path>, collected: seq<(Path, Node)>)
    requires PrefixFree(j[next := v]) && CollectedOk(keccak, j, open, collected)
    requires forall i :: 0 <= i < |open| ==> Under(j[next := v], open[i]) == Under(j, open[i])
    ensures CollectedOk(keccak, j[next := v], open, collected)
    decreases |open|
  {
    hide Nodes, Under, PrefixFree;
    if open != [] {
      var front := open[..|open| - 1];
      CollectedAfterAdd(keccak, j, next, v, front, NodesOf(keccak, j, front));
    }
  }

  lemma MasksAfterAdd(j: Entries, next: Path, v: Value, groups: seq<Mask>, hm: seq<Mask>, tm: seq<Mask>)
    requires GroupsOk(j, next, groups) && MasksOk(j, next, groups, 0, hm, tm)
    ensures MasksOk(j[next := v], next, groups, 0, hm, tm)
  {
    forall d | 0 <= d < |hm| && d < |next|
      ensures hm[d] == BranchBits(j[next := v], next[..d], OpenBits(next, groups, 0, d))
      ensures tm[d] == KeptBits(j[next := v], next[..d], OpenBits(next, groups, 0, d))
    {
      OthersAfterAdd(j, next, v, d);
      assert OpenBits(next, groups, 0, d) == Others(j, next, d);
    }
  }

  /** Nothing but the whole trie is left. */
  ghost predicate IsRoot(keccak: Hasher, collecting: bool, j: Entries, stack: seq<Bytes>, collected: seq<(Path, Node)>) {
    PrefixFree(j) && j != map[] && stack == [Ref(keccak, j, [])] && collected == if collecting then Nodes(keccak, j) else []
  }

  lemma RootReached(keccak: Hasher, collecting: bool, j: Entries, stack: seq<Bytes>, collected: seq<(Path, Node)>)
    requires PrefixFree(j) && RefsOk(keccak, j, [[]], stack) && CollectedFit(keccak, collecting, j, [[]], collected)
    ensures IsRoot(keccak, collecting, j, stack, collected)
  {
    hide RefsOk, CollectedOk;
    RootPushed(keccak, j, stack);
    if collecting {
      RootCollected(keccak, j, collected);
    }
  }

  /** A single node, with no branch above it, is the whole trie. */
  lemma PushedThenRoot(keccak: Hasher, collecting: bool, j: Entries, c: Path,
                       stack: seq<Bytes>, hm: seq<Mask>, tm: seq<Mask>, collected: seq<(Path, Node)>)
    requires Pushed(keccak, collecting, j, c, [], 0, stack, hm, tm, collected)
    ensures IsRoot(keccak, collecting, j, stack, collected)
  {
    hide RefsOk, CollectedOk, IsRoot;
    assert c[..0] == [];
    assert Open(c, [], [c[..0]]) == [[]];
    RootReached(keccak, collecting, j, stack, collected);
  }

  lemma ClosedThenRoot(keccak: Hasher, collecting: bool, j: Entries, c: Path, groups: seq<Mask>, stack: seq<Bytes>, collected: seq<(Path, Node)>)
    requires PrefixFree(j) && RefsOk(keccak, j, Rows(c, groups, 0) + [c[..0]], stack)
    requires CollectedFit(keccak, collecting, j, Rows(c, groups, 0) + [c[..0]], collected)
    ensures IsRoot(keccak, collecting, j, stack, collected)
  {
    hide RefsOk, CollectedOk, IsRoot;
    assert c[..0] == [];
    assert Rows(c, groups, 0) + [c[..0]] == [[]];
    RootReached(keccak, collecting, j, stack, collected);
  }

  /** What closing a branch needs. */
  lemma PushedThenClose(keccak: Hasher, collecting: bool, j: Entries, last: Path, c: Path, next: Path, groups: seq<Mask>, m: nat,
                        stack: seq<Bytes>, hm: seq<Mask>, tm: seq<Mask>, collected: seq<(Path, Node)>)
    requires Pushed(keccak, collecting, j, c, groups, m + 1, stack, hm, tm, collected)
    requires IsLast(j, last) && c <= last && m < |c| && |groups| == m + 1
    requires next == [] || PrefixLength(next, c) < m
    ensures PrefixFree(j) && last in j && GroupsOk(j, c, groups) && BranchPoint(j, c[..m]) && (next == [] || !(c[..m] <= next))
    ensures RefsOk(keccak, j, Rows(c, groups, m) + Row(c[..m], Bits(groups[m] + {c[m]})), stack)
    ensures collecting ==> CollectedOk(keccak, j, Rows(c, groups, m) + Row(c[..m], Bits(groups[m] + {c[m]})), collected)
    ensures !collecting ==> collected == []
    ensures collecting ==> MasksOk(j, c, groups, m + 1, hm, tm)
    ensures !collecting ==> MasksUnused(hm, tm) && m < |hm|
  {
    hide RefsOk, CollectedOk, MasksOk, Open, BranchPoint;
    OpenRow(j, last, c, groups, m);
    BranchAtPoint(j, c, m, last);
    if next != [] {
      PrefixTooShort(next, c, m);
    }
  }

  // Wide branches

  /** The branches that are complete once `next` has come are wide, apart from those above `c`. */
  ghost predicate WideBut(keccak: Hasher, j: Entries, c: Path, next: Path)
    requires PrefixFree(j)
  {
    forall p :: BranchPoint(j, p) && (next == [] || !(p <= next)) && (p == c || !(p <= c)) ==> Wide(keccak, j, p)
  }

  /** Between two levels of the groups there is no branch. */
  lemma NoBranchBetween(j: Entries, c: Path, m: nat, k: Path, p: Path)
    requires PrefixFree(j) && m <= |c| && k in j && c <= k && p <= c && m <= |p| < |c|
    requires forall d :: m <= d < |c| ==> Others(j, c, d) == {}
    ensures !BranchPoint(j, p)
  {
    NothingBetween(j, c, |p|, k);
    assert p == c[..|p|];
    assert Shared(Under(j, p), Child(p, c[|p|])) by {
      forall x | x in Under(j, p) ensures Child(p, c[|p|]) <= x {
        assert x in Under(j, c);
      }
    }
  }

  lemma WideAtFirst(keccak: Hasher, j: Entries, last: Path, next: Path)
    requires PrefixFree(j) && last in j && (last == [] ==> j.Keys == {[]}) && ClosedWide(keccak, j, last)
    ensures WideBut(keccak, j, last, next)
  {
    UnderKey(j, last);
  }

  /** Closing the branch at `c[..m]`, wide as it is. */
  lemma WideMore(keccak: Hasher, j: Entries, c: Path, m: nat, last: Path, next: Path, g: seq<Mask>)
    requires PrefixFree(j) && m < |c| && last in j && c <= last && GroupsOk(j, c, g) && |g| == m + 1
    requires WideBut(keccak, j, c, next) && Wide(keccak, j, c[..m])
    ensures WideBut(keccak, j, c[..m], next)
  {
    hide Wide, BranchPoint;
    forall p | BranchPoint(j, p) && (next == [] || !(p <= next)) && (p == c[..m] || !(p <= c[..m])) ensures Wide(keccak, j, p) {
      if p <= c && p != c && p != c[..m] {
        Beyond(p, c, m);
        NoBranchBetween(j, c, m + 1, last, p);
      }
    }
  }

  lemma Beyond(p: Path, c: Path, m: nat)
    requires p <= c && m <= |c| && !(p <= c[..m])
    ensures |p| > m
  {
    if |p| <= m {
      ShorterPrefix(p, c, m);
    }
  }

  lemma ShorterPrefix(p: Path, c: Path, m: nat)
    requires p <= c && |p| <= m <= |c|
    ensures p <= c[..m]
  {
  }

  /** Nothing more is closed: the levels left are on the path to `next`. */
  lemma WideToNext(keccak: Hasher, j: Entries, c: Path, last: Path, next: Path, g: seq<Mask>)
    requires PrefixFree(j) && c != [] && last in j && c <= last && GroupsOk(j, c, g) && |g| <= |c|
    requires WideBut(keccak, j, c, next) && (next == [] ==> g == [])
    requires next != [] ==> |g| <= PrefixLength(next, c) + 1 && PrefixLength(next, c) < |c|
    ensures ClosedWide(keccak, j, next)
  {
    hide Wide, BranchPoint;
    forall p | BranchPoint(j, p) && (next == [] || !(p <= next)) ensures Wide(keccak, j, p) {
      if p <= c && p != c {
        if next != [] && |p| < |g| {
          PrefixOfNext(next, c, p);
        }
        NoBranchBetween(j, c, |g|, last, p);
      }
    }
  }

  lemma PrefixOfNext(next: Path, c: Path, p: Path)
    requires p <= c && |p| <= PrefixLength(next, c)
    ensures p <= next
  {
    var i := PrefixLength(next, c);
    assert next[..i] == c[..i] && p == c[..i][..|p|];
  }

  /** When the root is closed, all is. */
  lemma WideToRoot(keccak: Hasher, j: Entries)
    requires PrefixFree(j) && WideBut(keccak, j, [], [])
    ensures ClosedWide(keccak, j, [])
  {
  }

  lemma NotWide(keccak: Hasher, j: Entries, p: Path, next: Path)
    requires PrefixFree(j) && BranchPoint(j, p) && (next == [] || !(p <= next)) && !Wide(keccak, j, p)
    ensures !ClosedWide(keccak, j, next)
  {
  }

  /** A new key changes no branch that it is not below. */
  lemma ClosedAfterAdd(keccak: Hasher, j: Entries, next: Path, v: Value)
    requires PrefixFree(j) && PrefixFree(j[next := v]) && next != [] && ClosedWide(keccak, j, next)
    ensures ClosedWide(keccak, j[next := v], next)
  {
    var j' := j[next := v];
    forall p | BranchPoint(j', p) && !(p <= next) ensures Wide(keccak, j', p) {
      AddKeepsUnder(j, next, v, p);
      forall n: Nibble ensures Under(j', Child(p, n)) == Under(j, Child(p, n)) {
        AddKeepsUnder(j, next, v, Child(p, n));
      }
      assert Wide(keccak, j, p);
    }
  }

  lemma SoleClosed(keccak: Hasher, j: Entries, next: Path)
    requires PrefixFree(j) && |j| <= 1
    ensures ClosedWide(keccak, j, next)
  {
    forall p ensures |Under(j, p)| <= 1 {
      CardinalityMonotone(Under(j, p).Keys, j.Keys);
    }
  }

  lemma BranchAtPoint(j: Entries, c: Path, m: nat, last: Path)
    requires PrefixFree(j) && m < |c| && last in j && c <= last && Others(j, c, m) != {}
    ensures BranchPoint(j, c[..m])
  {
    BranchAt(j, c, m, last);
  }
}
