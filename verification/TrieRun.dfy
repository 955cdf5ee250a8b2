/** Whole runs of the streaming builder. */
module TrieRun {
  import opened Basics
  import opened Bytes
  import opened Nibbles
  import opened Trie
  import opened TrieNode
  import opened StoredNodes
  import opened BuilderInvariant
  import H = HashBuilder
  import Spine

  datatype Entry = Entry(key: Path, value: Value)

  /** Strictly increasing and prefix-free; only a lone branch hash may stand at the empty path. */
  ghost predicate Sorted(entries: seq<Entry>) {
    && (forall i :: 0 < i < |entries| ==> Follows(entries[i - 1].key, entries[i].key))
    && (forall i :: 0 <= i < |entries| ==> entries[i].key != [] || entries[i].value.Hash?)
  }

  ghost function ToMap(entries: seq<Entry>): Entries {
    if entries == [] then map[] else ToMap(entries[..|entries| - 1])[entries[|entries| - 1].key := entries[|entries| - 1].value]
  }

  /** No branch node is small enough to be inlined into a branch above it. */
  ghost predicate AllWide(keccak: Hasher, j: Entries)
    requires PrefixFree(j)
  {
    forall p :: BranchPoint(j, p) ==> Wide(keccak, j, p)
  }

  lemma {:induction false} SortedFacts(entries: seq<Entry>)
    requires Sorted(entries)
    ensures PrefixFree(ToMap(entries))
    ensures entries == [] <==> ToMap(entries) == map[]
    ensures entries != [] ==> IsLast(ToMap(entries), entries[|entries| - 1].key)
  {
    if entries != [] {
      var front, e := entries[..|entries| - 1], entries[|entries| - 1];
      SortedFacts(front);
      assert e.key in ToMap(entries);
      if front != [] {
        assert Follows(entries[|entries| - 2].key, e.key);
        AddKeepsPrefixFree(ToMap(front), front[|front| - 1].key, e.key, e.value);
      }
    }
  }

  /** What two paths around `b` share, `b` shares too. */
  lemma Between(p: Path, a: Path, b: Path, c: Path)
    requires p <= a && p <= c && Less(a, b) && Less(b, c)
    ensures p <= b
  {
    if p != a {
      PrefixLess(p, a);
      LessTransitive(p, a, b);
    }
    PrefixBetween(p, b, c);
  }

  /** Once a key is not below `p`, no later one is. */
  lemma LaterNotBelow(entries: seq<Entry>, a: Path, i: nat, m: nat, p: Path)
    requires Sorted(entries) && 0 < i < m < |entries| && p <= a && (a == entries[i - 1].key || Less(a, entries[i - 1].key))
    requires !(p <= entries[i].key)
    ensures !(p <= entries[m].key)
  {
    Increasing(entries, i - 1, i);
    Increasing(entries, i, m);
    if a != entries[i - 1].key {
      LessTransitive(a, entries[i - 1].key, entries[i].key);
    }
    if p <= entries[m].key {
      Between(p, a, entries[i].key, entries[m].key);
    }
  }

  lemma NoneBelow(entries: seq<Entry>, i: nat, m: nat, p: Path)
    requires Sorted(entries) && 0 < i < m < |entries| && Under(ToMap(entries[..i]), p) != map[]
    requires !(p <= entries[i].key)
    ensures !(p <= entries[m].key)
  {
    SortedFacts(entries[..i]);
    var a :| a in Under(ToMap(entries[..i]), p);
    LaterNotBelow(entries, a, i, m, p);
  }

  /** Entries that come later do not change a branch that the next key is not below. */
  lemma {:induction false} ClosedStays(entries: seq<Entry>, i: nat, m: nat, p: Path)
    requires Sorted(entries) && 0 < i <= m <= |entries| && Under(ToMap(entries[..i]), p) != map[]
    requires i < |entries| ==> !(p <= entries[i].key)
    ensures Under(ToMap(entries[..m]), p) == Under(ToMap(entries[..i]), p)
    decreases m
  {
    hide Under, Sorted;
    if i < m {
      var e := entries[m - 1];
      ClosedStays(entries, i, m - 1, p);
      assert entries[..m][..m - 1] == entries[..m - 1];
      if i < m - 1 {
        NoneBelow(entries, i, m - 1, p);
      }
      AddKeepsUnder(ToMap(entries[..m - 1]), e.key, e.value, p);
    }
  }

  lemma {:induction false} Increasing(entries: seq<Entry>, i: nat, k: nat)
    requires Sorted(entries) && i < k < |entries|
    ensures Less(entries[i].key, entries[k].key)
    decreases k
  {
    assert Follows(entries[k - 1].key, entries[k].key);
    if i < k - 1 {
      Increasing(entries, i, k - 1);
      LessTransitive(entries[i].key, entries[k - 1].key, entries[k].key);
    }
  }

  /** If the finished trie has no inlined branch below a branch, neither has what is complete on the way. */
  lemma WideOnTheWay(keccak: Hasher, entries: seq<Entry>, i: nat)
    requires Sorted(entries) && 0 < i <= |entries|
    requires PrefixFree(ToMap(entries)) && AllWide(keccak, ToMap(entries))
    ensures PrefixFree(ToMap(entries[..i]))
    ensures ClosedWide(keccak, ToMap(entries[..i]), if i < |entries| then entries[i].key else [])
  {
    var j, full := ToMap(entries[..i]), ToMap(entries);
    assert entries[..|entries|] == entries;
    SortedFacts(entries[..i]);
    var next := if i < |entries| then entries[i].key else [];
    if i < |entries| {
      assert Follows(entries[i - 1].key, next);
    }
    forall p | BranchPoint(j, p) && (next == [] || !(p <= next)) ensures Wide(keccak, j, p) {
      ClosedStays(entries, i, |entries|, p);
      WideSame(keccak, j, full, p);
    }
  }

  lemma WideSame(keccak: Hasher, j: Entries, full: Entries, p: Path)
    requires PrefixFree(j) && PrefixFree(full) && Under(j, p) == Under(full, p)
    requires BranchPoint(full, p) ==> Wide(keccak, full, p)
    ensures BranchPoint(j, p) ==> Wide(keccak, j, p)
  {
    forall n: Nibble ensures Under(j, Child(p, n)) == Under(full, Child(p, n)) {
      Spine.UnderUnder(j, p, Child(p, n));
      Spine.UnderUnder(full, p, Child(p, n));
    }
  }

  /**
   Feeds a sorted sequence of leaves and branch hashes to a new builder. The root is that of Appendix D
   of the Yellow Paper, and the collector receives exactly the nodes worth keeping. With a collector the run
   fails, on an assertion about the length of a reference, if and only if a branch of the trie holds another one inline.
   */
  method BuildTrie(keccak: Hasher, collecting: bool, entries: seq<Entry>) returns (result: Option<(H256, seq<(Path, Node)>)>)
    requires Sorted(entries)
    ensures PrefixFree(ToMap(entries))
    ensures result.Some? <==> (collecting ==> AllWide(keccak, ToMap(entries)))
    ensures result.Some? ==> result.value.0 == Root(keccak, ToMap(entries))
    ensures result.Some? ==> result.value.1 == if collecting && ToMap(entries) != map[] then Nodes(keccak, ToMap(entries)) else []
  {
    var hb := new H.HashBuilder(keccak, collecting);
    assert entries[..|entries|] == entries;
    SortedFacts(entries);
    for i := 0 to |entries|
      invariant hb.Valid() && hb.keccak == keccak && hb.collecting == collecting
      invariant hb.items == ToMap(entries[..i]) && fresh(hb)
      invariant i > 0 ==> hb.key == entries[i - 1].key
    {
      hide *;
      NextAccepted(entries, i);
      Accepted(hb, entries, i);
      NotWideOnTheWay(keccak, entries, i);
      Asked(hb, entries[i].key);
      var ok;
      match entries[i].value {
        case Leaf(b) => ok := hb.AddLeaf(entries[i].key, b);
        case Hash(x, inDb) => ok := hb.AddBranchNode(entries[i].key, x, inDb);
      }
      if !ok {
        return None;
      }
    }
    Asked(hb, []);
    ClosedIsAll(keccak, ToMap(entries));
    hide *;
    var root := hb.RootHash();
    if root.None? {
      return None;
    }
    return Some((root.value, hb.collected));
  }

  lemma Asked(hb: H.HashBuilder, next: Path)
    requires PrefixFree(hb.items)
    ensures hb.Collectable(next) <==> (hb.collecting ==> ClosedWide(hb.keccak, hb.items, next))
  {
  }

  lemma ClosedIsAll(keccak: Hasher, j: Entries)
    requires PrefixFree(j)
    ensures ClosedWide(keccak, j, []) <==> AllWide(keccak, j)
  {
  }

  /** A branch that cannot be collected on the way is still there at the end. */
  lemma NotWideOnTheWay(keccak: Hasher, entries: seq<Entry>, i: nat)
    requires Sorted(entries) && i < |entries| && PrefixFree(ToMap(entries))
    ensures PrefixFree(ToMap(entries[..i]))
    ensures !ClosedWide(keccak, ToMap(entries[..i]), entries[i].key) ==> !AllWide(keccak, ToMap(entries))
  {
    SortedFacts(entries[..i]);
    if i == 0 {
      SoleClosed(keccak, ToMap(entries[..i]), entries[i].key);
    } else if AllWide(keccak, ToMap(entries)) {
      WideOnTheWay(keccak, entries, i);
    }
  }

  lemma NextAccepted(entries: seq<Entry>, i: nat)
    requires Sorted(entries) && i < |entries|
    ensures ToMap(entries[..i + 1]) == ToMap(entries[..i])[entries[i].key := entries[i].value]
    ensures i == 0 ==> ToMap(entries[..i]) == map[]
    ensures i > 0 ==> entries[i - 1].key != [] && entries[i].key != [] && Follows(entries[i - 1].key, entries[i].key)
    ensures entries[i].value.Leaf? ==> entries[i].key != []
  {
    assert entries[..i + 1][..i] == entries[..i];
    if i > 0 {
      assert Follows(entries[i - 1].key, entries[i].key);
    }
  }

  lemma Accepted(hb: H.HashBuilder, entries: seq<Entry>, i: nat)
    requires i < |entries| && hb.items == ToMap(entries[..i])
    requires i == 0 ==> hb.items == map[]
    requires i > 0 ==> hb.key == entries[i - 1].key && hb.key != [] && Follows(entries[i - 1].key, entries[i].key)
    ensures hb.Accepts(entries[i].key)
  {
  }
}
