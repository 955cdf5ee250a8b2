/**
 What the streaming builder holds between two keys, stated on the entries it has seen: for a path `c`,
 the finished subtries that leave `c`, level by level.
 */
module Spine {
  import opened Bytes
  import opened Nibbles
  import opened Trie
  import opened TrieNode
  import opened StoredNodes

  /** Nibbles other than `c[d]` under which there are entries next to `c` at depth `d`. */
  ghost function Others(j: Entries, c: Path, d: nat): Mask
    requires d < |c|
  {
    set n: Nibble | n != c[d] && Under(j, Child(c[..d], n)) != map[]
  }

  ghost function Group(groups: seq<Mask>, d: nat): Mask {
    if d < |groups| then groups[d] else {}
  }

  /** `groups` lists the subtries that leave `c`, down to the last level that has one. */
  ghost predicate GroupsOk(j: Entries, c: Path, groups: seq<Mask>) {
    && |groups| <= |c|
    && (groups != [] ==> groups[|groups| - 1] != {})
    && forall d :: 0 <= d < |c| ==> Others(j, c, d) == Group(groups, d)
  }

  /** Paths of the children of `p` in a mask. */
  function Row(p: Path, bits: seq<Nibble>): (row: seq<Path>)
    ensures |row| == |bits|
    ensures forall i :: 0 <= i < |row| ==> row[i] == Child(p, bits[i])
  {
    seq(|bits|, i requires 0 <= i < |bits| => Child(p, bits[i]))
  }

  /** Paths of all subtries in the first `m` levels of `groups`, from the top level down. */
  ghost function Rows(c: Path, groups: seq<Mask>, m: nat): seq<Path>
    requires m <= |c|
  {
    if m == 0 then [] else Rows(c, groups, m - 1) + Row(c[..m - 1], Bits(Group(groups, m - 1)))
  }

  /** Reference of the subtrie at `p`. */
  ghost function RefAt(keccak: Hasher, j: Entries, p: Path): Bytes
    requires PrefixFree(j) && Under(j, p) != map[]
  {
    Ref(keccak, Under(j, p), p)
  }

  ghost predicate RefsOk(keccak: Hasher, j: Entries, open: seq<Path>, stack: seq<Bytes>)
    requires PrefixFree(j)
  {
    && |stack| == |open|
    && forall i :: 0 <= i < |open| ==> Under(j, open[i]) != map[] && stack[i] == RefAt(keccak, j, open[i])
  }

  // Paths that no other subtrie leaves

  /** Without other subtries between depths `m` and `|c|`, everything below `c[..m]` is below `c`. */
  lemma NothingBetween(j: Entries, c: Path, m: nat, k: Path)
    requires PrefixFree(j) && m <= |c| && k in j && c <= k
    requires forall d :: m <= d < |c| ==> Others(j, c, d) == {}
    ensures Under(j, c[..m]) == Under(j, c)
  {
    forall x | x in j && c[..m] <= x ensures c <= x {
      if !(c <= x) {
        PrefixLengthAtLeast(x, c, m);
        Leaves(j, c, x, k);
      }
    }
    assert Under(j, c[..m]).Keys == Under(j, c).Keys;
  }

  /** An entry not below `c` is among the others of the depth where it leaves `c`. */
  lemma Leaves(j: Entries, c: Path, x: Path, k: Path)
    requires PrefixFree(j) && x in j && k in j && c <= k && !(c <= x)
    ensures var i := PrefixLength(x, c); i < |c| && i < |x| && x[i] in Others(j, c, i)
  {
    var i := PrefixLength(x, c);
    assert x[..i] == c[..i];
    assert i == |x| ==> x <= c;
    assert Child(c[..i], x[i]) <= x;
    assert x in Under(j, Child(c[..i], x[i]));
  }

  /** With another subtrie at depth `m` there is a branch. */
  lemma BranchAt(j: Entries, c: Path, m: nat, k: Path)
    requires PrefixFree(j) && m < |c| && k in j && c <= k
    requires Others(j, c, m) != {}
    ensures var s := Under(j, c[..m]); |s| > 1 && IsLcp(s, c[..m])
  {
    var p := c[..m];
    var s := Under(j, p);
    var n :| n in Others(j, c, m);
    var x :| x in Under(j, Child(p, n));
    assert p <= Child(p, n) <= x;
    assert x[m] == Child(p, n)[m] == n;
    assert p <= c <= k;
    SplitIsLcp(s, p, k, x);
  }

  lemma BranchMask(j: Entries, c: Path, m: nat, k: Path)
    requires m < |c| && k in j && c <= k
    ensures StateMask(Under(j, c[..m]), c[..m]) == Others(j, c, m) + {c[m]}
  {
    var p := c[..m];
    forall n: Nibble ensures n in StateMask(Under(j, p), p) <==> n in Others(j, c, m) + {c[m]} {
      UnderUnder(j, p, Child(p, n));
      assert Child(p, c[m]) == c[..m + 1] <= c <= k;
      assert k in Under(j, Child(p, c[m]));
    }
  }

  lemma UnderUnder(j: Entries, p: Path, q: Path)
    requires p <= q
    ensures Under(Under(j, p), q) == Under(j, q)
  {
    assert forall x :: x in j && q <= x ==> p <= q <= x;
  }

  lemma SplitIsLcp(j: Entries, p: Path, k: Path, x: Path)
    requires Shared(j, p) && k in j && x in j && |p| < |k| && |p| < |x| && k[|p|] != x[|p|]
    ensures IsLcp(j, p) && |j| > 1
  {
    CardinalityMonotone({k, x}, j.Keys);
    forall n: Nibble ensures !Shared(j, Child(p, n)) {
      assert Child(p, n)[|p|] == n;
    }
  }

  /** Entries that all come before `c` and share nothing with it beyond depth `m`. */
  lemma NothingAhead(j: Entries, last: Path, next: Path, m: nat)
    requires last in j && forall k :: k in j ==> k == last || Less(k, last)
    requires Less(last, next) && m == PrefixLength(last, next) && m < |last|
    ensures Under(j, next[..m + 1]) == map[]
  {
    forall k | k in j ensures !(next[..m + 1] <= k) {
      if next[..m + 1] <= k {
        assert next[..m] == next[..m + 1][..m] == k[..m] && k[m] == next[..m + 1][m] == next[m];
        LessAt(last, k, m);
        LessAsymmetric(last, k);
      }
    }
  }

  /** The levels above the point where the next key leaves are unchanged; there, `c[m]` joins the group. */
  lemma GroupsNext(j: Entries, last: Path, c: Path, next: Path, groups: seq<Mask>, m: nat)
    requires last in j && forall k :: k in j ==> k == last || Less(k, last)
    requires Less(last, next) && c <= last && m == PrefixLength(next, c) && m < |c| && m < |next|
    requires GroupsOk(j, c, groups) && |groups| <= m + 1
    ensures |groups| == m + 1 ==> Group(groups, m) == groups[m]
    ensures GroupsOk(j, next, Extend(groups, m, Group(groups, m) + {c[m]}))
  {
    assert last[..m] == c[..m] == next[..m] && last[m] == c[m];
    PrefixLengthUnique(last, next, m);
    NothingAhead(j, last, next, m);
    var groups' := Extend(groups, m, Group(groups, m) + {c[m]});
    forall d | 0 <= d < |next| ensures Others(j, next, d) == Group(groups', d) {
      if d < m {
        assert c[..d] == c[..m][..d] == next[..m][..d] == next[..d];
        assert c[d] == c[..m][d] == next[..m][d] == next[d];
        assert Others(j, next, d) == Others(j, c, d);
      } else if d == m {
        assert Child(next[..m], next[m]) == next[..m + 1];
        assert last in Under(j, Child(c[..m], c[m]));
        assert Others(j, next, m) == Others(j, c, m) + {c[m]};
      } else {
        forall n: Nibble ensures Under(j, Child(next[..d], n)) == map[] {
          assert next[..m + 1] == next[..d][..m + 1];
          UnderUnder(j, next[..m + 1], Child(next[..d], n));
        }
      }
    }
  }

  /** `groups` grown to `m + 1` levels with `mask` at the last. */
  function Extend(groups: seq<Mask>, m: nat, mask: Mask): (r: seq<Mask>)
    requires |groups| <= m + 1
    ensures |r| == m + 1 && r[m] == mask
    ensures forall d :: 0 <= d < m ==> r[d] == if d < |groups| then groups[d] else {}
  {
    seq(m + 1, d requires 0 <= d < m + 1 => if d == m then mask else if d < |groups| then groups[d] else {})
  }

  // Rows

  lemma {:induction false} BitsAppend(mask: Mask, x: Nibble, n: nat)
    requires n <= x && forall m :: m in mask ==> m < x
    ensures BitsFrom(mask + {x}, n) == BitsFrom(mask, n) + [x]
    decreases 16 - n
  {
    if n < x {
      BitsAppend(mask, x, n + 1);
    } else {
      BitsEmpty(mask, x);
      BitsEmpty(mask, x + 1);
      BitsEmpty(mask + {x}, x + 1);
    }
  }

  lemma BitsAppendLast(mask: Mask, x: Nibble)
    requires forall m :: m in mask ==> m < x
    ensures Bits(mask + {x}) == Bits(mask) + [x]
  {
    BitsAppend(mask, x, 0);
  }

  lemma {:induction false} BitsEmpty(mask: Mask, n: nat)
    requires n <= 16 && forall m :: m in mask ==> m < n
    ensures BitsFrom(mask, n) == []
    decreases 16 - n
  {
    if n < 16 {
      BitsEmpty(mask, n + 1);
    }
  }

  lemma {:induction false} RowsBeyond(c: Path, groups: seq<Mask>, m: nat)
    requires |groups| <= m <= |c|
    ensures Rows(c, groups, m) == Rows(c, groups, |groups|)
  {
    if |groups| < m {
      RowsBeyond(c, groups, m - 1);
    }
  }

  lemma {:induction false} RowsAgree(a: Path, b: Path, groups: seq<Mask>, groups': seq<Mask>, m: nat)
    requires m <= |a| && m <= |b| && (m > 0 ==> a[..m - 1] == b[..m - 1])
    requires forall d :: 0 <= d < m ==> Group(groups, d) == Group(groups', d)
    ensures Rows(a, groups, m) == Rows(b, groups', m)
  {
    if m > 0 {
      assert m > 1 ==> a[..m - 2] == a[..m - 1][..m - 2] && b[..m - 2] == b[..m - 1][..m - 2];
      RowsAgree(a, b, groups, groups', m - 1);
    }
  }

  /** Adding the largest nibble at the last level appends one path. */
  lemma RowsExtend(c: Path, groups: seq<Mask>, m: nat)
    requires |groups| <= m + 1 && m < |c|
    requires forall n :: n in Group(groups, m) ==> n < c[m]
    ensures Rows(c, Extend(groups, m, Group(groups, m) + {c[m]}), m + 1) == Rows(c, groups, |groups|) + [c[..m + 1]]
  {
    hide Bits, Row;
    var mask := Group(groups, m);
    var groups' := Extend(groups, m, mask + {c[m]});
    BitsAppendLast(mask, c[m]);
    RowsBeyond(c, groups, m + 1);
    RowsAgree(c, c, groups, groups', m);
    RowAppend(c[..m], Bits(mask), c[m]);
    assert Child(c[..m], c[m]) == c[..m + 1];
  }

  lemma RowAppend(p: Path, bits: seq<Nibble>, n: Nibble)
    ensures Row(p, bits + [n]) == Row(p, bits) + [Child(p, n)]
  {
  }

  /** The number of finished subtries is the sum of the bit counts of all levels. */
  ghost function BitCount(groups: seq<Mask>, m: nat): nat {
    if m == 0 then 0 else BitCount(groups, m - 1) + |Group(groups, m - 1)|
  }

  lemma {:induction false} RowsCount(c: Path, groups: seq<Mask>, m: nat)
    requires m <= |c|
    ensures |Rows(c, groups, m)| == BitCount(groups, m)
  {
    if m > 0 {
      RowsCount(c, groups, m - 1);
    }
  }

  /** Every path in the rows leaves `c` at its last nibble. */
  lemma {:induction false} RowsLeave(c: Path, groups: seq<Mask>, j: Entries, m: nat, i: nat)
    requires GroupsOk(j, c, groups) && m <= |c| && i < |Rows(c, groups, m)|
    ensures var p := Rows(c, groups, m)[i]; p != [] && |p| <= m && p[..|p| - 1] == c[..|p| - 1] && p[|p| - 1] in Others(j, c, |p| - 1)
  {
    var above := Rows(c, groups, m - 1);
    if i < |above| {
      RowsLeave(c, groups, j, m - 1, i);
    } else {
      var n := Bits(Group(groups, m - 1))[i - |above|];
      assert Rows(c, groups, m)[i] == Child(c[..m - 1], n);
      assert n in Others(j, c, m - 1);
    }
  }
}
