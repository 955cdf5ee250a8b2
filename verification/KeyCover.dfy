/** Which keys a stored branch hash covers, and where the walk over the uncovered ones resumes. */
module KeyCover {
  import opened Basics
  import opened Bytes
  import opened Nibbles
  import opened TrieNode
  import HexPrefix

  /**
   Among the keys at least as long as `k`, those below it are exactly those from `k` on that come before
   `r`; without `r`, all from `k` on.
   */
  ghost predicate CoverEndsAt(k: Path, r: Option<Path>) {
    forall x: Path :: |k| <= |x| ==> (k <= x <==> (x == k || Less(k, x)) && (r.Some? ==> Less(x, r.value)))
  }

  predicate AllMax(k: Path) {
    forall i :: 0 <= i < |k| ==> k[i] == 15
  }

  function Zeros(n: nat): (z: Path)
    ensures |z| == n && forall i :: 0 <= i < n ==> z[i] == 0
  {
    seq(n, _ => 0)
  }

  /** Adds one to the last nibble below the maximum and clears those after it. */
  method IncrementKey(unpacked: Path) returns (next: Option<Path>)
    ensures next.None? <==> AllMax(unpacked)
    ensures next.Some? ==> |next.value| == |unpacked|
    ensures CoverEndsAt(unpacked, next)
  {
    var out := unpacked;
    var i := |out|;
    while i > 0
      invariant 0 <= i <= |unpacked|
      invariant out == unpacked[..i] + Zeros(|unpacked| - i)
      invariant AllMax(unpacked[i..])
    {
      i := i - 1;
      var nibble := out[i];
      assert nibble == unpacked[i];
      if nibble < 0xf {
        out := out[i := nibble + 1];
        assert out == unpacked[..i] + [unpacked[i] + 1] + Zeros(|unpacked| - i - 1);
        CoverWithCarry(unpacked, i, out);
        return Some(out);
      }
      out := out[i := 0];
      assert unpacked[i..] == [unpacked[i]] + unpacked[i + 1..];
    }
    assert unpacked[0..] == unpacked;
    CoverToTheEnd(unpacked);
    next := None;
  }

  lemma AboveMax(k: Path, x: Path, i: nat)
    requires i <= |k| && AllMax(k[i..]) && (x == k || Less(k, x)) && i <= |x| && x[..i] == k[..i]
    ensures k <= x
  {
    assert forall d :: i <= d < |k| ==> k[d] == k[i..][d - i];
    if x != k {
      var d := PrefixLength(k, x);
      PrefixLengthAtLeast(k, x, i);
      assert k[..d] == x[..d];
    }
  }

  lemma CoverToTheEnd(k: Path)
    requires AllMax(k)
    ensures CoverEndsAt(k, None)
  {
    forall x: Path ensures k <= x <==> x == k || Less(k, x) {
      if k <= x && x != k {
        PrefixLess(k, x);
      }
      if x == k || Less(k, x) {
        assert k[0..] == k;
        AboveMax(k, x, 0);
      }
    }
  }

  lemma CoverWithCarry(k: Path, i: nat, r: Path)
    requires i < |k| && k[i] < 15 && AllMax(k[i + 1..])
    requires r == k[..i] + [k[i] + 1] + Zeros(|k| - i - 1)
    ensures CoverEndsAt(k, Some(r))
  {
    assert r[..i] == k[..i] && r[i] == k[i] + 1;
    forall x: Path | |k| <= |x| ensures k <= x <==> (x == k || Less(k, x)) && Less(x, r) {
      if k <= x {
        assert x[..i] == k[..i] && x[i] == k[i];
        LessAt(x, r, i);
        if x != k {
          PrefixLess(k, x);
        }
      }
      if (x == k || Less(k, x)) && Less(x, r) {
        BelowCarry(k, i, r, x);
        AboveMax(k, x, i + 1);
      }
    }
  }

  lemma BelowCarry(k: Path, i: nat, r: Path, x: Path)
    requires i < |k| <= |x| && k[i] < 15 && r == k[..i] + [k[i] + 1] + Zeros(|k| - i - 1)
    requires (x == k || Less(k, x)) && Less(x, r)
    ensures x[..i + 1] == k[..i + 1]
  {
    assert r[..i] == k[..i] && r[i] == k[i] + 1;
    var e := PrefixLength(x, r);
    assert x[..e] == r[..e];
    if e < i || (e == i && x[i] < k[i]) {
      assert x[..e] == k[..e];
      LessAt(x, k, e);
      LessAsymmetric(x, k);
    }
    assert k[..i + 1] == k[..i] + [k[i]];
  }

  // Packing

  /** Two nibbles a byte; a last odd one is the high half. */
  function Packed(x: Path): (b: Bytes)
    ensures |b| == (|x| + 1) / 2
  {
    HexPrefix.Pairs(if |x| % 2 == 0 then x else x + [0])
  }

  method PackNibbles(nibbles: Path) returns (out: Bytes)
    ensures out == Packed(nibbles)
  {
    hide Packed, HexPrefix.Pairs;
    out := [];
    var j := 0;
    ghost var all: Path := if |nibbles| % 2 == 0 then nibbles else nibbles + [0];
    PackedIs(nibbles, all);
    while j < |nibbles|
      invariant 0 <= j <= |all| && 2 * |out| == j
      invariant out + HexPrefix.Pairs(all[2 * |out|..]) == Packed(nibbles)
      decreases |nibbles| - j
    {
      HexPrefix.PairsStep(all, j, |all| / 2 - |out|);
      var high := nibbles[j];
      j := j + 1;
      if j < |nibbles| {
        out := out + [Pack(high, nibbles[j])];
        j := j + 1;
      } else {
        out := out + [Pack(high, 0)];
        j := j + 1;
      }
    }
    HexPrefix.PairsEnd();
    assert all[2 * |out|..] == [];
  }

  lemma PackedIs(x: Path, all: Path)
    requires all == if |x| % 2 == 0 then x else x + [0]
    ensures Packed(x) == HexPrefix.Pairs(all[0..]) && |all| % 2 == 0 && |x| <= |all| <= |x| + 1
  {
    assert all[0..] == all;
  }

  method UnpackNibbles(packed: Bytes) returns (out: Path)
    ensures out == HexPrefix.Unpairs(packed)
  {
    out := [];
    for i := 0 to |packed|
      invariant out + HexPrefix.Unpairs(packed[i..]) == HexPrefix.Unpairs(packed)
    {
      HexPrefix.UnpairsStep(packed[i], packed[i + 1..]);
      assert packed[i..] == [packed[i]] + packed[i + 1..];
      out := out + [packed[i] / 16, packed[i] % 16];
    }
  }

  lemma UnpackPacked(x: Path)
    ensures HexPrefix.Unpairs(Packed(x)) == if |x| % 2 == 0 then x else x + [0]
  {
    HexPrefix.UnpairsPairs(if |x| % 2 == 0 then x else x + [0]);
  }

  /** `a` comes strictly before `b` in the order of byte strings. */
  predicate ByteLess(a: Bytes, b: Bytes) {
    b != [] && (a == [] || a[0] < b[0] || (a[0] == b[0] && ByteLess(a[1..], b[1..])))
  }

  lemma LessStep(x: Path, r: Path)
    ensures r == [] ==> !Less(x, r)
    ensures x != [] && r != [] ==> (Less(x, r) <==> x[0] < r[0] || (x[0] == r[0] && Less(x[1..], r[1..])))
    ensures x == [] && r != [] ==> Less(x, r)
  {
  }

  /** Packed keys are ordered as the paths that they are made of, an odd path as its first whole byte allows. */
  lemma {:induction false} PackedOrder(b: Bytes, r: Path)
    requires |r| <= 2 * |b|
    ensures ByteLess(b, Packed(r)) <==> Less(HexPrefix.Unpairs(b), r)
    decreases |b|
  {
    var x := HexPrefix.Unpairs(b);
    LessStep(x, r);
    if r != [] {
      assert x[1..] == [b[0] % 16] + HexPrefix.Unpairs(b[1..]);
      assert x[1..][1..] == HexPrefix.Unpairs(b[1..]);
      LessStep(x[1..], r[1..]);
      if |r| == 1 {
        LessStep(HexPrefix.Unpairs(b[1..]), []);
        PackedOne(r[0]);
      } else {
        PackedTwo(r);
        PackedOrder(b[1..], r[2..]);
        assert r[1..][1..] == r[2..];
        PackOrder(b[0], r[0], r[1]);
      }
    }
  }

  lemma PackedOne(n: Nibble)
    ensures Packed([n]) == [16 * n]
  {
    assert [n] + [0] == [n, 0];
    assert [n, 0][2..] == [];
  }

  lemma PackedTwo(r: Path)
    requires |r| >= 2
    ensures Packed(r) == [Pack(r[0], r[1])] + Packed(r[2..])
  {
    var even := |r| % 2 == 0;
    var all := if even then r else r + [0];
    assert all[2..] == if even then r[2..] else r[2..] + [0];
  }

  lemma PackOrder(b: Byte, high: Nibble, low: Nibble)
    ensures b < Pack(high, low) <==> b / 16 < high || (b / 16 == high && b % 16 < low)
    ensures b == Pack(high, low) <==> b / 16 == high && b % 16 == low
  {
  }

  /** Padded with zeros to the length of a key, the bound skips the same keys. */
  lemma {:induction false} ResizedBound(b: Bytes, p: Bytes)
    requires |p| <= |b|
    ensures ByteLess(b, p + seq(|b| - |p|, _ => 0)) <==> ByteLess(b, p)
    decreases |b|
  {
    var zeros: Bytes := seq(|b| - |p|, _ => 0);
    if p != [] {
      assert (p + zeros)[1..] == p[1..] + zeros;
      ResizedBound(b[1..], p[1..]);
    } else if b != [] {
      var fewer: Bytes := seq(|b| - 1, _ => 0);
      assert (p + zeros)[1..] == [] + fewer;
      ResizedBound(b[1..], []);
    }
  }

  /** Where the walk over keys resumes behind what the cursor stands at: `key` is covered when `canSkipState`. */
  method FirstUncoveredPrefix(key: Option<Path>, canSkipState: bool) returns (prefix: Option<Bytes>)
    ensures prefix.None? <==> key.None? || (canSkipState && AllMax(key.value))
    ensures key.Some? && canSkipState ==> forall b: Bytes :: |key.value| <= 2 * |b| ==>
      var x := HexPrefix.Unpairs(b);
      (x == key.value || Less(key.value, x)) ==> (prefix.None? || ByteLess(b, prefix.value) <==> key.value <= x)
    ensures key.Some? && !canSkipState ==> forall b: Bytes :: |key.value| <= 2 * |b| ==>
      (ByteLess(b, prefix.value) <==> Less(HexPrefix.Unpairs(b), key.value))
  {
    var k := key;
    if canSkipState && k.Some? {
      k := IncrementKey(k.value);
    }
    if k.None? {
      if key.Some? {
        assert CoverEndsAt(key.value, None);
      }
      return None;
    }
    var packed := PackNibbles(k.value);
    forall b: Bytes | |key.value| <= 2 * |b| ensures ByteLess(b, packed) <==> Less(HexPrefix.Unpairs(b), k.value) {
      PackedOrder(b, k.value);
    }
    return Some(packed);
  }

  // Changed keys

  /** An ordered set of keys. */
  class PrefixSet {
    var keys: seq<Path>

    ghost predicate Valid()
      reads this
    {
      forall i, j :: 0 <= i < j < |keys| ==> Less(keys[i], keys[j])
    }

    constructor ()
      ensures Valid() && keys == []
    {
      keys := [];
    }

    /** Position of the first key not before `p`. */
    method LowerBound(p: Path) returns (at: nat)
      requires Valid()
      ensures at <= |keys|
      ensures forall i :: 0 <= i < at ==> Less(keys[i], p)
      ensures forall i :: at <= i < |keys| ==> keys[i] == p || Less(p, keys[i])
      ensures forall i :: at < i < |keys| ==> keys[i] != p
    {
      at := 0;
      while at < |keys| && Less(keys[at], p)
        invariant at <= |keys| && forall i :: 0 <= i < at ==> Less(keys[i], p)
      {
        at := at + 1;
      }
      if at < |keys| {
        LessTotal(keys[at], p);
        forall i | at < i < |keys| ensures Less(p, keys[i]) && keys[i] != p {
          if keys[at] != p {
            LessTransitive(p, keys[at], keys[i]);
          }
          LessAsymmetric(p, keys[i]);
        }
      }
    }

    /** Looks at the first key not before `prefix` only. */
    method Contains(prefix: Path) returns (found: bool)
      requires Valid()
      ensures found <==> exists k :: k in keys && prefix <= k
    {
      var at := LowerBound(prefix);
      found := at < |keys| && prefix <= keys[at];
      assert found ==> keys[at] in keys && prefix <= keys[at];
      if k :| k in keys && prefix <= k {
        var i :| 0 <= i < |keys| && keys[i] == k;
        ExtendsNotBefore(prefix, k);
        assert at <= i;
        if at < i && keys[at] != prefix {
          PrefixBetweenKeys(prefix, keys[at], k);
        }
      }
    }

    method Insert(k: Path)
      requires Valid()
      modifies this
      ensures Valid() && forall x :: x in keys <==> x in old(keys) || x == k
    {
      var at := LowerBound(k);
      if at == |keys| || keys[at] != k {
        keys := keys[..at] + [k] + keys[at..];
      }
    }
  }

  lemma LessTotal(a: Path, b: Path)
    ensures a == b || Less(a, b) || Less(b, a)
  {
    var i := PrefixLength(a, b);
    PrefixLengthUnique(b, a, i);
    assert i == |a| == |b| ==> a == a[..i] && b == b[..i];
  }

  lemma ExtendsNotBefore(p: Path, k: Path)
    requires p <= k
    ensures !Less(k, p)
  {
    if p == k {
      PrefixLengthUnique(k, p, |k|);
    } else {
      PrefixLess(p, k);
      LessAsymmetric(p, k);
    }
  }

  lemma PrefixBetweenKeys(p: Path, a: Path, k: Path)
    requires Less(p, a) && Less(a, k) && p <= k
    ensures p <= a
  {
    var i := PrefixLength(p, a);
    assert p[..i] == a[..i];
    if i < |p| {
      assert k[..i] == p[..i] && k[i] == p[i];
      LessAt(k, a, i);
      LessAsymmetric(a, k);
    } else {
      assert p == p[..i];
    }
  }
}
