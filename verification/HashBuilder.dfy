/** The streaming trie builder: keys come once, in increasing order, and finished subtries are folded. */
module HashBuilder {
  import opened Basics
  import opened Bytes
  import opened Nibbles
  import opened Trie
  import opened TrieNode
  import opened StoredNodes
  import opened Spine
  import opened BuilderInvariant
  import HexPrefix
  import Rlp
  import Seqs

  datatype BuilderValue = LeafValue(bytes: Bytes) | HashValue(hash: H256)

  function Resize<T>(s: seq<T>, n: nat, fill: T): (r: seq<T>)
    ensures |r| == n
    ensures forall i :: 0 <= i < n ==> r[i] == if i < |s| then s[i] else fill
  {
    seq(n, i requires 0 <= i < n => if i < |s| then s[i] else fill)
  }

  class HashBuilder {
    const keccak: Hasher
    /** Whether a node collector has been installed. */
    const collecting: bool

    var key: Path
    var value: BuilderValue
    var isInDbTrie: bool
    var groups: seq<Mask>
    var treeMasks: seq<Mask>
    var hashMasks: seq<Mask>
    var stack: seq<Bytes>
    /** What the node collector has been given. */
    var collected: seq<(Path, Node)>

    /** Everything that has been added. */
    ghost var items: Entries

    ghost predicate Valid()
      reads this
    {
      PrefixFree(items) && if key == [] then Settled() else Pending()
    }

    ghost function Held(): Value
      reads this
    {
      match value
      case LeafValue(b) => Leaf(b)
      case HashValue(x) => Hash(x, isInDbTrie)
    }

    /** The last key is still held back; all subtries it does not belong to are on the stack. */
    ghost predicate Pending()
      reads this
    {
      && IsLast(items, key)
      && items[key] == Held()
      && ReadyFor(keccak, collecting, items, key, groups, stack, hashMasks, treeMasks, collected)
      && (collecting ==> PrefixFree(items) && ClosedWide(keccak, items, key))
    }

    /** Nothing is held back: the stack is empty or holds the root. */
    ghost predicate Settled()
      reads this
    {
      && PrefixFree(items)
      && groups == []
      && hashMasks == treeMasks == []
      && (if items == map[] then stack == [] else stack == [Ref(keccak, items, [])])
      && (collecting ==> ClosedWide(keccak, items, []))
      && collected == if collecting && items != map[] then Nodes(keccak, items) else []
    }

    constructor (keccak: Hasher, collecting: bool)
      ensures Valid() && items == map[]
      ensures this.keccak == keccak && this.collecting == collecting
    {
      this.keccak, this.collecting := keccak, collecting;
      key, value, isInDbTrie := [], LeafValue([]), false;
      groups, treeMasks, hashMasks, stack, collected := [], [], [], [], [];
      items := map[];
    }

    /** A key may be added: it comes after all others and is not below any of them. */
    ghost predicate Accepts(k: Path)
      reads this
    {
      items == map[] || (key != [] && Follows(key, k))
    }

    /** The branches that `next` completes can be handed to the collector, if there is one. */
    ghost predicate Collectable(next: Path)
      reads this`items
      requires PrefixFree(items)
    {
      collecting ==> ClosedWide(keccak, items, next)
    }

    /** Fails on an inlined branch below one that the key completes, when nodes are collected. */
    method AddLeaf(k: Path, leaf: Bytes) returns (ok: bool)
      requires Valid() && Accepts(k) && k != []
      modifies this
      ensures PrefixFree(old(items)) && (ok <==> old(Collectable(k)))
      ensures ok ==> Valid() && items == old(items)[k := Leaf(leaf)] && key == k
    {
      hide *;
      BeforeAdd(k);
      ok := true;
      if key != [] {
        ok := GenStructStep(key, k);
        if !ok {
          return;
        }
      }
      AddItem(keccak, collecting, items, key, k, Leaf(leaf), groups, stack, hashMasks, treeMasks, collected);
      StillCollectable(k, Leaf(leaf));
      items := items[k := Leaf(leaf)];
      key := k;
      value := LeafValue(leaf);
      AfterAdd();
    }

    method AddBranchNode(k: Path, hash: H256, inDbTrie: bool) returns (ok: bool)
      requires Valid() && Accepts(k)
      modifies this
      ensures PrefixFree(old(items)) && (ok <==> old(Collectable(k)))
      ensures ok ==> Valid() && items == old(items)[k := Hash(hash, inDbTrie)] && key == k
    {
      hide *;
      BeforeAdd(k);
      ok := true;
      if key != [] {
        ok := GenStructStep(key, k);
        if !ok {
          return;
        }
      } else if k == [] {
        stack := stack + [WrapHash(hash)];
      }
      if k == [] {
        SoleHash(keccak, hash, inDbTrie);
      } else {
        AddItem(keccak, collecting, items, key, k, Hash(hash, inDbTrie), groups, stack, hashMasks, treeMasks, collected);
      }
      SolePrefixFree(items, k, Hash(hash, inDbTrie));
      StillCollectable(k, Hash(hash, inDbTrie));
      items := items[k := Hash(hash, inDbTrie)];
      key := k;
      value := HashValue(hash);
      isInDbTrie := inDbTrie;
      if k == [] {
        AfterRoot();
      } else {
        AfterAdd();
      }
    }

    /** The root of the trie of everything that has been added. */
    method RootHash() returns (root: Option<H256>)
      requires Valid()
      modifies this
      ensures PrefixFree(old(items)) && (root.Some? <==> old(Collectable([])))
      ensures root.Some? ==> Valid() && items == old(items) && key == [] && root.value == Root(keccak, items)
      ensures root.Some? ==> collected == if collecting && items != map[] then Nodes(keccak, items) else []
    {
      hide *;
      var ok := Finalize();
      if !ok {
        return None;
      }
      RootOfTop();
      root := Some(TopHash());
    }

    method Finalize() returns (ok: bool)
      requires Valid()
      modifies this
      ensures PrefixFree(old(items)) && (ok <==> old(Collectable([])))
      ensures ok ==> Valid() && items == old(items) && key == []
    {
      hide *;
      BeforeFinish();
      ok := true;
      if key != [] {
        ok := GenStructStep(key, []);
        if !ok {
          return;
        }
        AllCollectable();
        key := [];
        value := LeafValue([]);
        AfterRoot();
      }
    }

    lemma BeforeAdd(k: Path)
      requires Valid() && Accepts(k)
      ensures PrefixFree(items)
      ensures key != [] ==>
        && k != [] && Follows(key, k) && IsLast(items, key)
        && items[key] == (match value { case LeafValue(b) => Leaf(b) case HashValue(x) => Hash(x, isInDbTrie) })
        && ReadyFor(keccak, collecting, items, key, groups, stack, hashMasks, treeMasks, collected)
        && Collectable(key)
      ensures key == [] ==> items == map[] && groups == [] && stack == [] && hashMasks == [] && treeMasks == [] && collected == []
      ensures key == [] ==> Collectable(k)
    {
      if key == [] {
        SoleClosed(keccak, items, k);
      }
    }

    lemma BeforeFinish()
      requires Valid()
      ensures PrefixFree(items)
      ensures key != [] ==>
        && IsLast(items, key)
        && items[key] == (match value { case LeafValue(b) => Leaf(b) case HashValue(x) => Hash(x, isInDbTrie) })
        && ReadyFor(keccak, collecting, items, key, groups, stack, hashMasks, treeMasks, collected)
        && Collectable(key)
      ensures key == [] ==> Collectable([])
    {
    }

    /** A key that could be collected for leaves all branches off its path fit for the collector. */
    lemma StillCollectable(k: Path, v: Value)
      requires PrefixFree(items) && PrefixFree(items[k := v]) && Collectable(k) && (k == [] ==> items == map[])
      ensures collecting ==> ClosedWide(keccak, items[k := v], k)
    {
      if collecting {
        if k == [] {
          SoleClosed(keccak, items[k := v], k);
        } else {
          ClosedAfterAdd(keccak, items, k, v);
        }
      }
    }

    lemma AllCollectable()
      requires PrefixFree(items) && Collectable([])
      ensures collecting ==> ClosedWide(keccak, items, [])
    {
    }

    lemma AfterAdd()
      requires PrefixFree(items) && key != [] && IsLast(items, key)
      requires items[key] == match value { case LeafValue(b) => Leaf(b) case HashValue(x) => Hash(x, isInDbTrie) }
      requires ReadyFor(keccak, collecting, items, key, groups, stack, hashMasks, treeMasks, collected)
      requires collecting ==> ClosedWide(keccak, items, key)
      ensures Valid()
    {
    }

    lemma AfterRoot()
      requires key == [] && groups == [] && hashMasks == [] && treeMasks == [] && IsRoot(keccak, collecting, items, stack, collected)
      requires PrefixFree(items) && (collecting ==> ClosedWide(keccak, items, []))
      ensures Valid()
    {
    }

    lemma RootOfTop()
      requires Valid() && key == []
      ensures PrefixFree(items) && TopHash() == Root(keccak, items)
      ensures collected == if collecting && items != map[] then Nodes(keccak, items) else []
    {
    }

    /** Pushes the entry held back. A leaf takes in the rest of its path at once, a branch hash does not. */
    method PushHeld(c: Path, lenFrom: nat, ghost g: seq<Mask>) returns (buildExtensions: bool)
      requires PrefixFree(items) && c in items && c != [] && lenFrom <= |c| <= |hashMasks|
      requires items[c] == match value { case LeafValue(b) => Leaf(b) case HashValue(x) => Hash(x, isInDbTrie) }
      requires Under(items, c[..lenFrom]) == Under(items, c)
      requires MasksFit(collecting, items, c, g, 0, hashMasks, treeMasks)
      modifies this`stack, this`hashMasks, this`treeMasks
      ensures var p := if buildExtensions then c else c[..lenFrom];
        && Under(items, p) != map[]
        && stack == old(stack) + [RefAt(keccak, items, p)]
        && (buildExtensions ==> IsBranch(Under(items, c), c))
        && MasksFit(collecting, items, c, g, |p|, hashMasks, treeMasks)
      ensures |hashMasks| == |old(hashMasks)|
      ensures Nodes(keccak, Under(items, c)) == []
    {
      hide *;
      ghost var hm, tm := hashMasks, treeMasks;
      match value {
        case LeafValue(leaf) =>
          HeldLeaf(keccak, collecting, items, c, lenFrom, g, hashMasks, treeMasks);
          var path := HexPrefix.EncodePath(c[lenFrom..], true);
          stack := stack + [NodeRef(keccak, LeafNodeRlp(path, leaf))];
          buildExtensions := false;
        case HashValue(hash) =>
          MasksWide(collecting, items, c, g, hashMasks, treeMasks);
          stack := stack + [WrapHash(hash)];
          if collecting {
            if isInDbTrie {
              treeMasks := treeMasks[|c| - 1 := treeMasks[|c| - 1] + {c[|c| - 1]}];
            }
            hashMasks := hashMasks[|c| - 1 := hashMasks[|c| - 1] + {c[|c| - 1]}];
          }
          HeldHash(keccak, collecting, items, c, g, hm, tm, hashMasks, treeMasks);
          buildExtensions := true;
      }
    }

    /** Masks once an extension stands above the branch at `c`. */
    method MaskExtension(c: Path, lenFrom: nat, ghost g: seq<Mask>)
      requires GroupsOk(items, c, g) && |g| <= lenFrom < |c| && MasksFit(collecting, items, c, g, |c|, hashMasks, treeMasks)
      requires Under(items, c[..lenFrom]) == Under(items, c) != map[] && !IsBranch(Under(items, c[..lenFrom]), c[..lenFrom])
      modifies this`hashMasks, this`treeMasks
      ensures MasksFit(collecting, items, c, g, lenFrom, hashMasks, treeMasks)
    {
      ghost var hm, tm := hashMasks, treeMasks;
      if collecting && lenFrom > 0 {
        var flag := c[lenFrom - 1];
        hashMasks := hashMasks[lenFrom - 1 := hashMasks[lenFrom - 1] - {flag}];
        if treeMasks[|c| - 1] != {} {
          treeMasks := treeMasks[lenFrom - 1 := treeMasks[lenFrom - 1] + {flag}];
        }
      }
      hashMasks, treeMasks := hashMasks[..lenFrom], treeMasks[..lenFrom];
      if collecting {
        MasksOfExtension(items, c, g, lenFrom, hm, tm, hashMasks, treeMasks);
      }
    }

    /** Puts an extension above the branch at `c`. */
    method PushAbove(c: Path, lenFrom: nat, ghost g: seq<Mask>)
      requires PrefixFree(items) && GroupsOk(items, c, g) && |g| <= lenFrom < |c|
      requires Under(items, c[..lenFrom]) == Under(items, c) != map[] && IsBranch(Under(items, c), c)
      requires stack != [] && stack[|stack| - 1] == RefAt(keccak, items, c)
      requires MasksFit(collecting, items, c, g, |c|, hashMasks, treeMasks)
      modifies this`stack, this`hashMasks, this`treeMasks
      ensures stack == old(stack)[..|old(stack)| - 1] + [RefAt(keccak, items, c[..lenFrom])]
      ensures MasksFit(collecting, items, c, g, lenFrom, hashMasks, treeMasks)
    {
      hide *;
      PushExtension(keccak, items, c, lenFrom);
      MaskExtension(c, lenFrom, g);
      var path := HexPrefix.EncodePath(c[lenFrom..], false);
      ExtensionIs(c[lenFrom..], stack[|stack| - 1]);
      stack := stack[..|stack| - 1] + [NodeRef(keccak, ExtensionNodeRlp(path, stack[|stack| - 1]))];
    }

    /** Hands the node of the branch at `c[..len]` to the collector if it is worth keeping. */
    method CollectBranch(c: Path, len: nat, childRefs: seq<Bytes>, ghost s: Entries) returns (ok: bool)
      requires collecting && len < |c| && s == Under(items, c[..len]) && PrefixFree(items) && BranchPoint(items, c[..len])
      requires len < |groups| && groups[len] == StateMask(s, c[..len])
      requires len < |hashMasks| == |treeMasks|
      requires hashMasks[len] == HashMask(s, c[..len]) && treeMasks[len] == TreeMask(s, c[..len])
      requires ChildRefs(keccak, s, c[..len], hashMasks[len], childRefs)
      requires len == 0 ==> stack == [Ref(keccak, s, [])]
      modifies this`collected
      ensures ok <==> PrefixFree(s) && Wide(keccak, s, c[..len])
      ensures ok ==> collected == old(collected) + if Kept(s) then [(c[..len], NodeAt(keccak, s, c[..len]))] else []
    {
      hide *;
      UnderPrefixFree(items, c[..len]);
      BranchPointFacts(items, c[..len]);
      KeptMasks(s, c[..len]);
      NodeAtIs(keccak, s, c[..len]);
      WideLengths(keccak, s, c[..len], childRefs);
      ok := true;
      if treeMasks[len] != {} || hashMasks[len] != {} {
        var unwrapped := Unwrap(childRefs);
        if unwrapped.None? {
          return false;
        }
        HashesOfChildren(keccak, s, c[..len], childRefs);
        var hashes := unwrapped.value;
        assert hashes == ChildHashes(keccak, s, c[..len]);
        var rootHash := None;
        if len == 0 {
          RootOfBranch(s);
          rootHash := Some(TopHash());
        }
        collected := collected + [(c[..len], Node(groups[len], treeMasks[len], hashMasks[len], hashes, rootHash))];
      } else {
        NoRefs(keccak, s, c[..len], hashMasks[len], childRefs);
      }
    }

    /** Replaces the children of the branch at `c[..len]` by the branch. */
    method FoldBranch(c: Path, len: nat, ghost above: seq<Path>, ghost s: Entries) returns (ok: bool)
      requires PrefixFree(items) && len < |c| && s == Under(items, c[..len]) && BranchPoint(items, c[..len])
      requires len < |groups| && len < |hashMasks| == |treeMasks| && (len == 0 ==> above == [])
      requires groups[len] == StateMask(s, c[..len])
      requires RefsOk(keccak, items, above + Row(c[..len], Bits(groups[len])), stack)
      requires collecting ==> CollectedOk(keccak, items, above + Row(c[..len], Bits(groups[len])), collected)
      requires !collecting ==> collected == []
      requires collecting ==> hashMasks[len] == HashMask(s, c[..len]) && treeMasks[len] == TreeMask(s, c[..len])
      requires !collecting ==> hashMasks[len] == {}
      modifies this`stack, this`collected
      ensures ok <==> PrefixFree(s) && (collecting ==> Wide(keccak, s, c[..len]))
      ensures ok ==> RefsOk(keccak, items, above + [c[..len]], stack)
      ensures ok && collecting ==> CollectedOk(keccak, items, above + [c[..len]], collected)
      ensures !collecting ==> collected == []
    {
      hide *;
      ghost var p := c[..len];
      UnderPrefixFree(items, p);
      BranchFacts(keccak, items, p);
      LastRow(keccak, items, above, p, groups[len], stack);
      var childRefs := BranchRef(groups[len], hashMasks[len], s, p);
      assert stack[..|above|] == old(stack)[..|above|];
      RefsAppend(keccak, items, above, p, stack);
      ok := true;
      if collecting {
        ok := CollectBranch(c, len, childRefs, s);
        if !ok {
          return;
        }
        CollectedBranch(keccak, items, above, p, groups[len], old(collected), collected);
      }
    }

    /** Closes the branch at `c[..len]`: only the levels above it remain. */
    method CloseBranch(c: Path, len: nat, ghost g: seq<Mask>, ghost last: Path) returns (ok: bool)
      requires PrefixFree(items) && last in items && c <= last && len < |c|
      requires GroupsOk(items, c, g) && |g| == len + 1
      requires groups == g[len := g[len] + {c[len]}]
      requires RefsOk(keccak, items, Rows(c, g, len) + Row(c[..len], Bits(groups[len])), stack)
      requires collecting ==> MasksOk(items, c, g, len + 1, hashMasks, treeMasks)
      requires !collecting ==> MasksUnused(hashMasks, treeMasks) && len < |hashMasks|
      requires collecting ==> CollectedOk(keccak, items, Rows(c, g, len) + Row(c[..len], Bits(groups[len])), collected)
      requires !collecting ==> collected == []
      modifies this`stack, this`groups, this`hashMasks, this`treeMasks, this`collected
      ensures BranchPoint(items, c[..len])
      ensures ok <==> (collecting ==> Wide(keccak, items, c[..len]))
      ensures ok ==> groups == g[..len]
      ensures ok ==> RefsOk(keccak, items, Rows(c, g, len) + [c[..len]], stack)
      ensures ok && collecting ==> CollectedOk(keccak, items, Rows(c, g, len) + [c[..len]], collected)
      ensures !collecting ==> collected == []
      ensures ok ==> MasksFit(collecting, items, c[..len], g[..len], len, hashMasks, treeMasks) && |hashMasks| == |treeMasks| == len
    {
      hide *;
      ghost var s := Under(items, c[..len]);
      ClosingFacts(items, c, len, g, last);
      UnderPrefixFree(items, c[..len]);
      WideUnder(keccak, items, c[..len]);
      if collecting {
        MasksOfBranch(items, c, g, len, hashMasks, treeMasks, last);
      } else {
        UnusedAt(hashMasks, treeMasks, len);
      }
      ok := FoldBranch(c, len, Rows(c, g, len), s);
      if !ok {
        return;
      }
      MaskBranch(c, len, g);
      groups := groups[..len];
    }

    /** Tells the level above that the node at `c[..len]` is a branch, and kept or not. */
    method MaskBranch(c: Path, len: nat, ghost g: seq<Mask>)
      requires PrefixFree(items) && len < |c| && |g| == len + 1
      requires collecting ==> MasksOk(items, c, g, len + 1, hashMasks, treeMasks)
      requires !collecting ==> MasksUnused(hashMasks, treeMasks) && len < |hashMasks|
      requires BranchPoint(items, c[..len])
      requires collecting ==> var s := Under(items, c[..len]); hashMasks[len] == HashMask(s, c[..len]) && treeMasks[len] == TreeMask(s, c[..len])
      modifies this`hashMasks, this`treeMasks
      ensures MasksFit(collecting, items, c[..len], g[..len], len, hashMasks, treeMasks) && |hashMasks| == |treeMasks| == len
    {
      ghost var hm, tm := hashMasks[..len], treeMasks[..len];
      if collecting {
        KeptMasks(Under(items, c[..len]), c[..len]);
        MasksAbove(items, c, g, len, hashMasks, treeMasks, g[..len]);
        if len > 0 {
          hashMasks := hashMasks[len - 1 := hashMasks[len - 1] + {c[len - 1]}];
          if treeMasks[len] != {} || hashMasks[len] != {} {
            treeMasks := treeMasks[len - 1 := treeMasks[len - 1] + {c[len - 1]}];
          }
        }
      }
      hashMasks, treeMasks := hashMasks[..len], treeMasks[..len];
      if collecting && len > 0 {
        assert c[..len][..len] == c[..len];
        MasksGrow(items, c[..len], g[..len], len, hm, tm, hashMasks, treeMasks);
      }
    }

    /** Pushes what is below `c` as seen from `c[..lenFrom]`. */
    method PushNode(c: Path, lenFrom: nat, buildExtensions: bool, ghost g: seq<Mask>, ghost last: Path)
      requires At(keccak, collecting, items, last, c, g, buildExtensions, stack, hashMasks, treeMasks, collected)
      requires |g| <= lenFrom <= |c| <= |hashMasks|
      requires items[last] == match value { case LeafValue(b) => Leaf(b) case HashValue(x) => Hash(x, isInDbTrie) }
      modifies this`stack, this`hashMasks, this`treeMasks
      ensures Pushed(keccak, collecting, items, c, g, lenFrom, stack, hashMasks, treeMasks, collected)
      ensures lenFrom <= |hashMasks| == |treeMasks|
    {
      hide *;
      AtFacts(keccak, collecting, items, last, c, g, buildExtensions, stack, hashMasks, treeMasks, collected, lenFrom);
      var extend := buildExtensions;
      if !buildExtensions {
        extend := PushHeld(c, lenFrom, g);
      }
      assert lenFrom == |c| ==> c[..lenFrom] == c;
      if extend && lenFrom < |c| {
        PushAbove(c, lenFrom, g);
      }
      if !buildExtensions {
        assert stack == old(stack) + [RefAt(keccak, items, c[..lenFrom])];
        PushedHeld(keccak, collecting, items, c, g, lenFrom, old(stack), stack, hashMasks, treeMasks, collected);
      } else {
        assert stack == old(stack)[..|old(stack)| - 1] + [RefAt(keccak, items, c[..lenFrom])];
        PushedBranch(keccak, collecting, items, c, g, lenFrom, old(stack), stack, hashMasks, treeMasks, collected);
      }
    }

    /** Drops empty levels at the end of the groups. */
    method TrimGroups()
      modifies this`groups
      ensures Trimmed(old(groups), groups)
    {
      while groups != [] && groups[|groups| - 1] == {}
        invariant groups <= old(groups)
        invariant forall d :: |groups| <= d < |old(groups)| ==> old(groups)[d] == {}
        decreases |groups|
      {
        groups := groups[..|groups| - 1];
      }
    }

    /** Enters the next digit of `c` into the groups and makes room in the masks. */
    method MarkDigit(c: Path, len: nat, top: bool, ghost last: Path)
      requires At(keccak, collecting, items, last, c, groups, top, stack, hashMasks, treeMasks, collected)
      requires len < |c| && |groups| <= len + 1
      modifies this`groups, this`hashMasks, this`treeMasks
      ensures groups == Extend(old(groups), len, Group(old(groups), len) + {c[len]})
      ensures At(keccak, collecting, items, last, c, old(groups), top, stack, hashMasks, treeMasks, collected)
      ensures |c| <= |hashMasks|
    {
      hide *;
      GroupsFit(keccak, collecting, items, last, c, groups, top, stack, hashMasks, treeMasks, collected);
      if |groups| <= len {
        groups := Resize(groups, len + 1, {});
      }
      groups := groups[len := groups[len] + {c[len]}];
      ResizeIsExtend(old(groups), len, c[len], groups);
      if |treeMasks| < |c| {
        treeMasks, hashMasks := Resize(treeMasks, |c|, {}), Resize(hashMasks, |c|, {});
        AtPad(keccak, collecting, items, last, c, old(groups), top, stack, old(hashMasks), old(treeMasks), hashMasks, treeMasks, collected);
      }
    }

    /** Closes the branch at `c[..len]` and goes back to it. */
    method Retreat(c: Path, len: nat, ghost g: seq<Mask>, ghost last: Path, ghost next: Path) returns (ok: bool)
      requires Pushed(keccak, collecting, items, c, g, len + 1, stack, hashMasks, treeMasks, collected)
      requires IsLast(items, last) && c <= last && len < |c| && |g| == len + 1
      requires groups == Extend(g, len, Group(g, len) + {c[len]})
      requires next == [] || PrefixLength(next, c) < len
      requires PrefixFree(items) && (collecting ==> WideBut(keccak, items, c, next))
      modifies this`groups, this`stack, this`hashMasks, this`treeMasks, this`collected
      ensures !ok ==> collecting && !ClosedWide(keccak, items, next)
      ensures ok && collecting ==> WideBut(keccak, items, c[..len], next)
      ensures ok && len > 0 ==> At(keccak, collecting, items, last, c[..len], groups, true, stack, hashMasks, treeMasks, collected)
      ensures ok && len == 0 ==> groups == [] && hashMasks == [] && treeMasks == [] && IsRoot(keccak, collecting, items, stack, collected)
    {
      hide *;
      ExtendLast(g, len, c[len]);
      PushedThenClose(keccak, collecting, items, last, c, next, g, len, stack, hashMasks, treeMasks, collected);
      ok := CloseBranch(c, len, g, last);
      if !ok {
        NotWide(keccak, items, c[..len], next);
        return;
      }
      if collecting {
        WideMore(keccak, items, c, len, last, next, g);
      }
      CollectedFits(keccak, collecting, items, Rows(c, g, len) + [c[..len]], collected);
      if len == 0 {
        ClosedThenRoot(keccak, collecting, items, c, g, stack, collected);
      } else {
        TrimGroups();
        ClosedThenAt(keccak, collecting, items, last, c, g, len, groups, stack, hashMasks, treeMasks, collected);
      }
    }

    /** Finishes every subtrie of `current` that `succeeding` does not belong to; all of them if there is none. */
    method GenStructStep(current: Path, succeeding: Path) returns (ok: bool)
      requires current != [] && IsLast(items, current)
      requires items[current] == match value { case LeafValue(b) => Leaf(b) case HashValue(x) => Hash(x, isInDbTrie) }
      requires ReadyFor(keccak, collecting, items, current, groups, stack, hashMasks, treeMasks, collected)
      requires succeeding == [] || Follows(current, succeeding)
      requires PrefixFree(items) && Collectable(current)
      modifies this`groups, this`stack, this`hashMasks, this`treeMasks, this`collected
      ensures ok <==> Collectable(succeeding)
      ensures ok && succeeding != [] ==> ReadyFor(keccak, collecting, items, succeeding, groups, stack, hashMasks, treeMasks, collected)
      ensures ok && succeeding == [] ==> groups == [] && hashMasks == [] && treeMasks == [] && IsRoot(keccak, collecting, items, stack, collected)
    {
      hide *;
      ReadyThenAt(keccak, collecting, items, current, groups, stack, hashMasks, treeMasks, collected);
      FollowsFacts(current, succeeding);
      StepStarts(current, succeeding);
      var buildExtensions := false;
      var c := current;
      while true
        invariant PrefixFree(items) && (collecting ==> WideBut(keccak, items, c, succeeding))
        invariant At(keccak, collecting, items, current, c, groups, buildExtensions, stack, hashMasks, treeMasks, collected)
        invariant succeeding == [] || !(c <= succeeding)
        decreases |c|
      {
        ghost var g := groups;
        GroupsFit(keccak, collecting, items, current, c, groups, buildExtensions, stack, hashMasks, treeMasks, collected);
        PrefixFacts(current, succeeding, c);
        var precedingExists := groups != [];
        var precedingLen := if groups == [] then 0 else |groups| - 1;
        var commonPrefixLen := PrefixLength(succeeding, c);
        var len := if precedingLen < commonPrefixLen then commonPrefixLen else precedingLen;
        assert len < |c|;
        MarkDigit(c, len, buildExtensions, current);
        var lenFrom := if succeeding != [] || precedingExists then len + 1 else len;
        PushNode(c, lenFrom, buildExtensions, g, current);

        if precedingLen <= commonPrefixLen && succeeding != [] {
          PushedThenReady(keccak, collecting, items, current, c, succeeding, g, len, stack, hashMasks, treeMasks, collected);
          StepEnds(c, current, succeeding, g);
          return true;
        }
        if !(succeeding != [] || precedingExists) {
          PushedThenRoot(keccak, collecting, items, c, stack, hashMasks, treeMasks, collected);
          groups, treeMasks, hashMasks := [], [], [];
          StepEnds(c, current, succeeding, g);
          return true;
        }
        ok := Retreat(c, len, g, current, succeeding);
        if !ok {
          StepFails(succeeding);
          return;
        }
        if precedingLen == 0 {
          assert c[..len] == [];
          StepReachesRoot();
          return;
        }
        if succeeding != [] {
          PrefixTooShort(succeeding, c, len);
        }
        c := c[..precedingLen];
        buildExtensions := true;
      }
    }

    /** The references on the stack are as many as digits have been marked in the groups. */
    lemma StackCounts()
      requires Valid() && key != []
      ensures |stack| == Spine.BitCount(groups, |groups|)
    {
      GroupsBelow(items, key, groups);
      RowsCount(key, groups, |groups|);
      assert Open(key, groups, []) == Rows(key, groups, |groups|);
    }

    lemma StepStarts(current: Path, succeeding: Path)
      requires PrefixFree(items) && Collectable(current) && IsLast(items, current) && current != []
      ensures collecting ==> WideBut(keccak, items, current, succeeding)
    {
      if collecting {
        WideAtFirst(keccak, items, current, succeeding);
      }
    }

    lemma StepEnds(c: Path, current: Path, succeeding: Path, g: seq<Mask>)
      requires PrefixFree(items) && c != [] && IsLast(items, current) && c <= current && GroupsOk(items, c, g) && |g| <= |c|
      requires (collecting ==> WideBut(keccak, items, c, succeeding)) && (succeeding == [] ==> g == [])
      requires succeeding != [] ==> |g| <= PrefixLength(succeeding, c) + 1 && PrefixLength(succeeding, c) < |c|
      ensures Collectable(succeeding)
    {
      if collecting {
        WideToNext(keccak, items, c, current, succeeding, g);
      }
    }

    lemma StepFails(succeeding: Path)
      requires PrefixFree(items) && collecting && !ClosedWide(keccak, items, succeeding)
      ensures !Collectable(succeeding)
    {
    }

    lemma StepReachesRoot()
      requires PrefixFree(items) && (collecting ==> WideBut(keccak, items, [], []))
      ensures Collectable([])
    {
      if collecting {
        WideToRoot(keccak, items);
      }
    }

    lemma RootOfBranch(s: Entries)
      requires Buildable(s, []) && |s| > 1 && IsLcp(s, []) && stack == [Ref(keccak, s, [])]
      ensures TopHash() == keccak(BranchRlp(keccak, s, []))
    {
      BuilderInvariant.BranchRef(keccak, s, []);
    }

    /** Reads the hash of the node on top of the stack. */
    function TopHash(): H256
      reads this
    {
      if stack == [] then EmptyRoot(keccak)
      else
        var nodeRef := stack[|stack| - 1];
        if |nodeRef| == KECCAK_LENGTH + 1 then nodeRef[1..] else keccak(nodeRef)
    }

    /** Folds the last children on the stack into the branch at `p`. */
    method BranchRef(stateMask: Mask, hashMask: Mask, ghost s: Entries, ghost p: Path) returns (childRefs: seq<Bytes>)
      requires Buildable(s, p) && IsLcp(s, p) && IsStateMask(s, p, stateMask) && hashMask <= stateMask
      requires |stateMask| <= |stack| && ChildRefs(keccak, s, p, stateMask, stack[|stack| - |stateMask|..])
      modifies this`stack
      ensures stack == old(stack)[..|old(stack)| - |stateMask|] + [NodeRef(keccak, BranchRlp(keccak, s, p))]
      ensures ChildRefs(keccak, s, p, hashMask, childRefs)
    {
      hide *;
      BranchIs(keccak, s, p);
      var firstChildIdx := |stack| - |stateMask|;
      var children := stack[firstChildIdx..];
      var payload;
      payload, childRefs := BranchItems(children, stateMask, hashMask);
      RankEnds(stateMask);
      ItemsArePayload(keccak, s, p, stateMask, children, 0);
      SelectedRefs(keccak, s, p, stateMask, hashMask, children, childRefs);
      stack := stack[..firstChildIdx] + [NodeRef(keccak, Rlp.EncodeList(payload))];
    }
  }

  /** The hashes within wrapped references, if that is what they all are. */
  method Unwrap(childRefs: seq<Bytes>) returns (unwrapped: Option<seq<H256>>)
    ensures unwrapped.Some? <==> forall i :: 0 <= i < |childRefs| ==> |childRefs[i]| == KECCAK_LENGTH + 1
    ensures unwrapped.Some? ==> |unwrapped.value| == |childRefs|
    ensures unwrapped.Some? ==> forall i :: 0 <= i < |childRefs| ==> unwrapped.value[i] == childRefs[i][1..]
  {
    var hashes: seq<H256> := [];
    for i := 0 to |childRefs|
      invariant |hashes| == i
      invariant forall j :: 0 <= j < i ==> |childRefs[j]| == KECCAK_LENGTH + 1 && hashes[j] == childRefs[j][1..]
    {
      if |childRefs[i]| != KECCAK_LENGTH + 1 {
        return None;
      }
      hashes := hashes + [childRefs[i][1..]];
    }
    return Some(hashes);
  }

  lemma NoRefs(keccak: Hasher, s: Entries, p: Path, mask: Mask, childRefs: seq<Bytes>)
    requires PrefixFree(s) && ChildRefs(keccak, s, p, mask, childRefs) && mask == {}
    ensures childRefs == []
  {
  }

  lemma GroupsBelow(j: Entries, c: Path, groups: seq<Mask>)
    requires GroupsOk(j, c, groups)
    ensures |groups| <= |c|
  {
  }

  lemma SolePrefixFree(j: Entries, k: Path, v: Value)
    ensures j == map[] ==> PrefixFree(j[k := v])
  {
  }

  lemma UnderPrefixFree(j: Entries, p: Path)
    requires PrefixFree(j)
    ensures PrefixFree(Under(j, p))
  {
  }

  lemma BranchFacts(keccak: Hasher, j: Entries, p: Path)
    requires PrefixFree(j) && BranchPoint(j, p)
    ensures var s := Under(j, p);
      && Buildable(s, p) && IsLcp(s, p) && |s| > 1
      && IsStateMask(s, p, StateMask(s, p)) && HashMask(s, p) <= StateMask(s, p)
      && s != map[] && RefAt(keccak, j, p) == NodeRef(keccak, BranchRlp(keccak, s, p)) == Ref(keccak, s, p)
  {
    UnderBuildable(j, p);
    BuilderInvariant.BranchRef(keccak, Under(j, p), p);
  }

  lemma ClosingFacts(j: Entries, c: Path, m: nat, g: seq<Mask>, last: Path)
    requires PrefixFree(j) && last in j && c <= last && m < |c| && GroupsOk(j, c, g) && |g| == m + 1
    ensures BranchPoint(j, c[..m]) && StateMask(Under(j, c[..m]), c[..m]) == g[m] + {c[m]}
    ensures Others(j, c, m) == Group(g, m)
    ensures m == 0 ==> Rows(c, g, m) == []
  {
    BranchAt(j, c, m, last);
    BranchMask(j, c, m, last);
  }

  lemma UnusedAt(hm: seq<Mask>, tm: seq<Mask>, d: nat)
    requires MasksUnused(hm, tm) && d < |hm|
    ensures |hm| == |tm| && hm[d] == {}
  {
  }

  /** Adding the key that the builder is ready for. */
  lemma AddItem(keccak: Hasher, collecting: bool, j: Entries, last: Path, next: Path, v: Value, groups: seq<Mask>,
                stack: seq<Bytes>, hm: seq<Mask>, tm: seq<Mask>, collected: seq<(Path, Node)>)
    requires PrefixFree(j) && next != []
    requires if last == [] then j == map[] && groups == [] && stack == [] && hm == [] && tm == [] && collected == []
             else IsLast(j, last) && Follows(last, next) && ReadyFor(keccak, collecting, j, next, groups, stack, hm, tm, collected)
    ensures PrefixFree(j[next := v]) && IsLast(j[next := v], next)
    ensures ReadyFor(keccak, collecting, j[next := v], next, groups, stack, hm, tm, collected)
  {
    hide ReadyFor;
    if last == [] {
      ReadyEmpty(keccak, collecting, next);
    } else {
      AddKeepsPrefixFree(j, last, next, v);
    }
    ReadyAfterAdd(keccak, collecting, j, next, v, groups, stack, hm, tm, collected);
  }

  lemma ReadyEmpty(keccak: Hasher, collecting: bool, next: Path)
    ensures ReadyFor(keccak, collecting, map[], next, [], [], [], [], [])
  {
    assert Rows(next, [], 0) == [];
  }

  lemma SoleHash(keccak: Hasher, hash: H256, inDb: bool)
    ensures var j: Entries := map[[] := Hash(hash, inDb)];
      && IsRoot(keccak, true, j, [WrapHash(hash)], [])
      && IsRoot(keccak, false, j, [WrapHash(hash)], [])
  {
    var j: Entries := map[[] := Hash(hash, inDb)];
    assert [] in j;
    assert |j| == 1;
  }

  lemma FollowsFacts(current: Path, succeeding: Path)
    requires succeeding == [] || Follows(current, succeeding)
    ensures succeeding == [] || !(current <= succeeding)
  {
  }

  lemma PrefixFacts(current: Path, succeeding: Path, c: Path)
    requires succeeding == [] || (Follows(current, succeeding) && !(c <= succeeding))
    requires c <= current && c != []
    ensures PrefixLength(succeeding, c) < |c|
    ensures if succeeding == [] then PrefixLength(succeeding, c) == 0 else PrefixLength(succeeding, c) < |succeeding|
    ensures succeeding != [] ==> Less(current, succeeding)
  {
    if succeeding != [] {
      FollowsLength(current, succeeding, c);
    }
  }

  lemma GroupsFit(keccak: Hasher, collecting: bool, j: Entries, last: Path, c: Path, g: seq<Mask>, top: bool,
                  stack: seq<Bytes>, hm: seq<Mask>, tm: seq<Mask>, collected: seq<(Path, Node)>)
    requires At(keccak, collecting, j, last, c, g, top, stack, hm, tm, collected)
    ensures |g| <= |c| && |hm| == |tm| && c != [] && c <= last && PrefixFree(j) && GroupsOk(j, c, g)
  {
  }

  lemma ResizeIsExtend(g: seq<Mask>, len: nat, n: Nibble, groups: seq<Mask>)
    requires |g| <= len + 1
    requires groups == (var r := if |g| <= len then Resize(g, len + 1, {}) else g; r[len := r[len] + {n}])
    ensures groups == Extend(g, len, Group(g, len) + {n})
    ensures |g| == len + 1 ==> groups == g[len := g[len] + {n}]
  {
  }

  lemma ExtendLast(g: seq<Mask>, len: nat, n: Nibble)
    requires |g| == len + 1
    ensures Extend(g, len, Group(g, len) + {n}) == g[len := g[len] + {n}]
  {
  }

  lemma AtPad(keccak: Hasher, collecting: bool, j: Entries, last: Path, c: Path, g: seq<Mask>, top: bool,
              stack: seq<Bytes>, hm: seq<Mask>, tm: seq<Mask>, hm': seq<Mask>, tm': seq<Mask>, collected: seq<(Path, Node)>)
    requires At(keccak, collecting, j, last, c, g, top, stack, hm, tm, collected) && |hm| < |c|
    requires hm' == Resize(hm, |c|, {}) && tm' == Resize(tm, |c|, {})
    ensures At(keccak, collecting, j, last, c, g, top, stack, hm', tm', collected)
  {
    hide RefsOk, CollectedOk, GroupsOk, MasksOk;
    MasksPad(collecting, j, c, g, if top then |c| else 0, hm, tm, hm', tm');
  }

  lemma CollectedFits(keccak: Hasher, collecting: bool, j: Entries, open: seq<Path>, collected: seq<(Path, Node)>)
    requires if collecting then CollectedOk(keccak, j, open, collected) else collected == []
    ensures CollectedFit(keccak, collecting, j, open, collected)
  {
  }

  lemma AtFacts(keccak: Hasher, collecting: bool, j: Entries, last: Path, c: Path, g: seq<Mask>, top: bool,
                stack: seq<Bytes>, hm: seq<Mask>, tm: seq<Mask>, collected: seq<(Path, Node)>, m: nat)
    requires At(keccak, collecting, j, last, c, g, top, stack, hm, tm, collected) && |g| <= m <= |c|
    ensures PrefixFree(j) && GroupsOk(j, c, g) && last in j && c != []
    ensures Under(j, c[..m]) == Under(j, c) != map[]
    ensures !top ==> c == last && RefsOk(keccak, j, Rows(c, g, |g|), stack) && CollectedFit(keccak, collecting, j, Rows(c, g, |g|), collected)
    ensures MasksFit(collecting, j, c, g, if top then |c| else 0, hm, tm)
    ensures top ==>
      && IsBranch(Under(j, c), c)
      && stack != [] && stack[|stack| - 1] == RefAt(keccak, j, c)
      && RefsOk(keccak, j, Rows(c, g, |g|), stack[..|stack| - 1])
      && CollectedFit(keccak, collecting, j, Rows(c, g, |g|) + [c], collected)
  {
    NothingBetween(j, c, m, last);
    assert last in Under(j, c);
    if top {
      var open := Open(c, g, [c]);
      assert open[|open| - 1] == c && open[..|open| - 1] == Rows(c, g, |g|);
      assert forall i :: 0 <= i < |open| - 1 ==> open[i] == Rows(c, g, |g|)[i];
    } else {
      assert Open(c, g, []) == Rows(c, g, |g|);
    }
  }

  lemma PushedHeld(keccak: Hasher, collecting: bool, j: Entries, c: Path, g: seq<Mask>, m: nat,
                   before: seq<Bytes>, stack: seq<Bytes>, hm: seq<Mask>, tm: seq<Mask>, collected: seq<(Path, Node)>)
    requires PrefixFree(j) && GroupsOk(j, c, g) && |g| <= m <= |c| && Under(j, c[..m]) == Under(j, c) != map[]
    requires RefsOk(keccak, j, Rows(c, g, |g|), before) && stack == before + [RefAt(keccak, j, c[..m])]
    requires CollectedFit(keccak, collecting, j, Rows(c, g, |g|), collected) && Nodes(keccak, Under(j, c)) == []
    requires MasksFit(collecting, j, c, g, m, hm, tm)
    ensures Pushed(keccak, collecting, j, c, g, m, stack, hm, tm, collected)
    ensures |hm| == |tm| && m <= |hm|
  {
    hide Rows, Nodes, Ref;
    assert stack[..|before|] == before;
    RefsAppend(keccak, j, Rows(c, g, |g|), c[..m], stack);
    if collecting {
      NodesAppend(keccak, j, Rows(c, g, |g|), c[..m]);
    }
  }

  lemma PushedBranch(keccak: Hasher, collecting: bool, j: Entries, c: Path, g: seq<Mask>, m: nat,
                     before: seq<Bytes>, stack: seq<Bytes>, hm: seq<Mask>, tm: seq<Mask>, collected: seq<(Path, Node)>)
    requires PrefixFree(j) && GroupsOk(j, c, g) && |g| <= m <= |c| && Under(j, c[..m]) == Under(j, c) != map[]
    requires before != [] && RefsOk(keccak, j, Rows(c, g, |g|), before[..|before| - 1])
    requires stack == before[..|before| - 1] + [RefAt(keccak, j, c[..m])]
    requires CollectedFit(keccak, collecting, j, Rows(c, g, |g|) + [c], collected)
    requires MasksFit(collecting, j, c, g, m, hm, tm)
    ensures Pushed(keccak, collecting, j, c, g, m, stack, hm, tm, collected)
    ensures |hm| == |tm| && m <= |hm|
  {
    hide Rows, Nodes, Ref;
    var rows := Rows(c, g, |g|);
    assert stack[..|before| - 1] == before[..|before| - 1];
    RefsAppend(keccak, j, rows, c[..m], stack);
    if collecting {
      forall i | 0 <= i < |rows| ensures Under(j, rows[i]) != map[] {
        assert (rows + [c])[i] == rows[i];
      }
      NodesAppend(keccak, j, rows, c);
      NodesAppend(keccak, j, rows, c[..m]);
    }
  }

  lemma RefsAppend(keccak: Hasher, j: Entries, open: seq<Path>, p: Path, stack: seq<Bytes>)
    requires PrefixFree(j) && Under(j, p) != map[] && |stack| == |open| + 1
    requires RefsOk(keccak, j, open, stack[..|open|]) && stack[|open|] == RefAt(keccak, j, p)
    ensures RefsOk(keccak, j, open + [p], stack)
  {
  }

  lemma CollectedBranch(keccak: Hasher, j: Entries, above: seq<Path>, p: Path, mask: Mask, before: seq<(Path, Node)>, after: seq<(Path, Node)>)
    requires PrefixFree(j) && BranchPoint(j, p) && mask == StateMask(Under(j, p), p)
    requires CollectedOk(keccak, j, above + Row(p, Bits(mask)), before)
    requires after == before + if Kept(Under(j, p)) then [(p, NodeAt(keccak, Under(j, p), p))] else []
    ensures CollectedOk(keccak, j, above + [p], after)
  {
    hide NodesBelow, NodeAt, Nodes, HashMask, TreeMask, Rank, Wide;
    forall i | 0 <= i < |above| ensures Under(j, above[i]) != map[] {
      assert (above + Row(p, Bits(mask)))[i] == above[i];
    }
    forall n: Nibble ensures Under(Under(j, p), Child(p, n)) == Under(j, Child(p, n)) {
      UnderUnder(j, p, Child(p, n));
    }
    BitsInRankOrder(mask);
    RankEnds(mask);
    NodesOfRow(keccak, j, above, p, mask, Bits(mask), 16);
    assert Bits(mask)[..|mask|] == Bits(mask);
    NodesOfBranch(keccak, j, p);
    NodesAppend(keccak, j, above, p);
    Seqs.Assoc(NodesOf(keccak, j, above), NodesBelow(keccak, Under(j, p), p, 16),
               if Kept(Under(j, p)) then [(p, NodeAt(keccak, Under(j, p), p))] else []);
  }

  lemma BranchPointFacts(j: Entries, p: Path)
    requires PrefixFree(j) && BranchPoint(j, p)
    ensures Buildable(Under(j, p), p) && IsLcp(Under(j, p), p) && |Under(j, p)| > 1
  {
  }

  lemma NodeAtIs(keccak: Hasher, s: Entries, p: Path)
    requires Buildable(s, p) && IsLcp(s, p) && PrefixFree(s)
    ensures NodeAt(keccak, s, p) == Node(StateMask(s, p), TreeMask(s, p), HashMask(s, p), ChildHashes(keccak, s, p),
                                         if p == [] then Some(keccak(BranchRlp(keccak, s, p))) else None)
    ensures |ChildHashes(keccak, s, p)| == |HashMask(s, p)|
  {
  }

  lemma PathNotMasked(j: Entries, c: Path, g: seq<Mask>, hm: seq<Mask>, tm: seq<Mask>, d: nat)
    requires GroupsOk(j, c, g) && MasksOk(j, c, g, 0, hm, tm) && d < |c| && d < |hm|
    ensures c[d] !in hm[d]
  {
    assert c[d] !in Others(j, c, d);
  }

  /** An extension is not a branch; it leads to a kept node if the branch below it does. */
  lemma MasksOfExtension(j: Entries, c: Path, g: seq<Mask>, m: nat, hm: seq<Mask>, tm: seq<Mask>, hm': seq<Mask>, tm': seq<Mask>)
    requires GroupsOk(j, c, g) && MasksOk(j, c, g, |c|, hm, tm) && |g| <= m < |c|
    requires Under(j, c[..m]) == Under(j, c) != map[] && !IsBranch(Under(j, c[..m]), c[..m])
    requires m == 0 ==> hm' == tm' == []
    requires m > 0 ==>
      && hm' == hm[..m][m - 1 := hm[m - 1] - {c[m - 1]}]
      && tm' == if tm[|c| - 1] != {} then tm[..m][m - 1 := tm[m - 1] + {c[m - 1]}] else tm[..m]
    ensures MasksOk(j, c, g, m, hm', tm')
  {
    MasksTruncate(j, c, g, m, hm, tm);
    if m > 0 {
      PathNotMasked(j, c, g, hm[..m], tm[..m], m - 1);
      MasksGrow(j, c, g, m, hm[..m], tm[..m], hm', tm');
    }
  }

  function LeafNodeRlp(encodedPath: Bytes, value: Bytes): Bytes {
    Rlp.EncodeList(Rlp.EncodeString(encodedPath) + Rlp.EncodeString(value))
  }

  function ExtensionNodeRlp(encodedPath: Bytes, childRef: Bytes): Bytes {
    Rlp.EncodeList(Rlp.EncodeString(encodedPath) + childRef)
  }

  lemma ExtensionIs(path: Path, childRef: Bytes)
    ensures ExtensionNodeRlp(HexPrefix.Encode(path, false), childRef) == ExtensionRlp(path, childRef)
  {
  }

  lemma HeldLeaf(keccak: Hasher, collecting: bool, j: Entries, c: Path, m: nat, g: seq<Mask>, hm: seq<Mask>, tm: seq<Mask>)
    requires PrefixFree(j) && c in j && j[c].Leaf? && m <= |c| <= |hm| && Under(j, c[..m]) == Under(j, c)
    requires MasksFit(collecting, j, c, g, 0, hm, tm)
    ensures Under(j, c[..m]) != map[]
    ensures RefAt(keccak, j, c[..m]) == NodeRef(keccak, LeafNodeRlp(HexPrefix.Encode(c[m..], true), j[c].bytes))
    ensures MasksFit(collecting, j, c, g, m, hm, tm)
    ensures Nodes(keccak, Under(j, c)) == []
  {
    UnderKey(j, c);
    PushLeaf(keccak, j, c, m);
    if collecting && m > 0 {
      LeafIsPlain(j, c, m);
      MasksGrow(j, c, g, m, hm, tm, hm, tm);
    }
  }

  lemma MasksWide(collecting: bool, j: Entries, c: Path, g: seq<Mask>, hm: seq<Mask>, tm: seq<Mask>)
    requires MasksFit(collecting, j, c, g, 0, hm, tm)
    ensures |hm| == |tm|
  {
  }

  lemma HeldHash(keccak: Hasher, collecting: bool, j: Entries, c: Path, g: seq<Mask>, hm: seq<Mask>, tm: seq<Mask>, hm': seq<Mask>, tm': seq<Mask>)
    requires PrefixFree(j) && c in j && j[c].Hash? && 0 < |c| <= |hm|
    requires MasksFit(collecting, j, c, g, 0, hm, tm)
    requires hm' == if collecting then hm[|c| - 1 := hm[|c| - 1] + {c[|c| - 1]}] else hm
    requires |tm| == |hm| && tm' == if collecting && j[c].inDb then tm[|c| - 1 := tm[|c| - 1] + {c[|c| - 1]}] else tm
    ensures Under(j, c) != map[] && IsBranch(Under(j, c), c)
    ensures RefAt(keccak, j, c) == WrapHash(j[c].hash)
    ensures MasksFit(collecting, j, c, g, |c|, hm', tm')
    ensures Nodes(keccak, Under(j, c)) == []
  {
    UnderKey(j, c);
    PushHash(keccak, j, c);
    if collecting {
      HashIsKept(j, c);
      assert c[..|c|] == c;
      MasksGrow(j, c, g, |c|, hm, tm, hm', tm');
    }
  }

  lemma LeafIsPlain(j: Entries, k: Path, m: nat)
    requires PrefixFree(j) && k in j && j[k].Leaf? && m <= |k| && Under(j, k[..m]) == Under(j, k)
    ensures Under(j, k) != map[] && !IsBranch(Under(j, k), k[..m]) && !Kept(Under(j, k))
  {
    UnderKey(j, k);
    assert Only(Under(j, k)) == k;
  }

  lemma HashIsKept(j: Entries, k: Path)
    requires PrefixFree(j) && k in j && j[k].Hash?
    ensures Under(j, k) != map[] && (Kept(Under(j, k)) <==> j[k].inDb)
  {
    UnderKey(j, k);
    assert Only(Under(j, k)) == k;
  }

  lemma BranchIs(keccak: Hasher, s: Entries, p: Path)
    requires Buildable(s, p) && IsLcp(s, p)
    ensures PrefixFree(s) && BranchRlp(keccak, s, p) == Rlp.EncodeList(BranchPayload(keccak, s, p, 0))
  {
  }

  lemma SelectedRefs(keccak: Hasher, s: Entries, p: Path, mask: Mask, hashMask: Mask, refs: seq<Bytes>, childRefs: seq<Bytes>)
    requires PrefixFree(s) && hashMask <= mask && |childRefs| == |hashMask|
    requires ChildRefs(keccak, s, p, mask, refs)
    requires forall n: Nibble :: n in hashMask ==> Selected(refs, mask, childRefs, hashMask, n)
    ensures ChildRefs(keccak, s, p, hashMask, childRefs)
  {
    forall n: Nibble | n in hashMask ensures ChildRef(keccak, s, p, n, childRefs, Rank(hashMask, n)) {
      assert ChildRef(keccak, s, p, n, refs, Rank(mask, n));
      assert Selected(refs, mask, childRefs, hashMask, n);
    }
  }

  /** Items of a branch node from nibble `n` on, the next child being `refs[i]`. */
  function Items(refs: seq<Bytes>, mask: Mask, n: nat, i: nat): Bytes
    requires n <= 16
    decreases refs, 16 - n
  {
    if n == 16 then [Rlp.EMPTY_STRING_CODE]
    else if n in mask then (if i < |refs| then refs[i] else []) + Items(refs, mask, n + 1, i + 1)
    else [Rlp.EMPTY_STRING_CODE] + Items(refs, mask, n + 1, i)
  }

  lemma {:induction false} ItemsArePayload(keccak: Hasher, s: Entries, p: Path, mask: Mask, refs: seq<Bytes>, n: nat)
    requires n <= 16 && Buildable(s, p) && IsLcp(s, p) && IsStateMask(s, p, mask) && ChildRefs(keccak, s, p, mask, refs)
    ensures Items(refs, mask, n, Rank(mask, n)) == BranchPayload(keccak, s, p, n)
    decreases 16 - n
  {
    if n < 16 {
      ItemsArePayload(keccak, s, p, mask, refs, n + 1);
      RankStep(mask, n);
      if n in mask {
        assert ChildRef(keccak, s, p, n, refs, Rank(mask, n));
      }
    }
  }

  /** The selected child `n` is that child among all. */
  ghost predicate Selected(refs: seq<Bytes>, mask: Mask, childRefs: seq<Bytes>, hashMask: Mask, n: Nibble) {
    var from, to := Rank(mask, n), Rank(hashMask, n);
    from < |refs| && to < |childRefs| && childRefs[to] == refs[from]
  }

  /** Walks the sixteen nibbles of a branch over the references of its children. */
  method BranchItems(refs: seq<Bytes>, stateMask: Mask, hashMask: Mask) returns (payload: Bytes, childRefs: seq<Bytes>)
    requires |refs| == |stateMask| && hashMask <= stateMask
    ensures payload == Items(refs, stateMask, 0, 0)
    ensures |childRefs| == |hashMask|
    ensures forall n: Nibble :: n in hashMask ==> Selected(refs, stateMask, childRefs, hashMask, n)
  {
    childRefs, payload := [], [];
    var i := 0;
    RankEnds(stateMask);
    RankEnds(hashMask);
    for digit := 0 to 16
      invariant i == Rank(stateMask, digit) && |childRefs| == Rank(hashMask, digit)
      invariant forall n: Nibble :: n in hashMask && n < digit ==> Selected(refs, stateMask, childRefs, hashMask, n)
      invariant payload + Items(refs, stateMask, digit, i) == Items(refs, stateMask, 0, 0)
    {
      RankStep(stateMask, digit);
      RankStep(hashMask, digit);
      RankBound(stateMask, digit + 1);
      if digit in stateMask {
        if digit in hashMask {
          childRefs := childRefs + [refs[i]];
        }
        payload := payload + refs[i];
        i := i + 1;
      } else {
        payload := payload + [Rlp.EMPTY_STRING_CODE];
      }
    }
    payload := payload + [Rlp.EMPTY_STRING_CODE];
  }
}
