/** Nibble paths: byte-wise order, common prefixes, the hex-prefix code and packing. */
module Nibbles {
  import opened Bytes

  type Nibble = n: int | 0 <= n < 16
  type Path = seq<Nibble>

  function Child(p: Path, n: Nibble): Path {
    p + [n]
  }

  function Pack(high: Nibble, low: Nibble): Byte {
    16 * high + low
  }

  /** Length of the longest common prefix. */
  function PrefixLength(a: Path, b: Path): (i: nat)
    ensures i <= |a| && i <= |b| && a[..i] == b[..i]
    ensures i < |a| && i < |b| ==> a[i] != b[i]
  {
    if a == [] || b == [] || a[0] != b[0] then 0
    else
      var i := PrefixLength(a[1..], b[1..]);
      assert a[..i + 1] == [a[0]] + a[1..][..i];
      assert b[..i + 1] == [b[0]] + b[1..][..i];
      i + 1
  }

  /** `a` comes strictly before `b` in the lexicographic order of byte vectors. */
  predicate Less(a: Path, b: Path) {
    var i := PrefixLength(a, b);
    i < |b| && (i == |a| || a[i] < b[i])
  }

  /** Any position that witnesses the order does so. */
  lemma LessAt(a: Path, b: Path, i: nat)
    requires i <= |a| && i < |b| && a[..i] == b[..i]
    requires i == |a| || a[i] < b[i]
    ensures Less(a, b) && PrefixLength(a, b) == i
  {
    PrefixLengthUnique(a, b, i);
  }

  lemma PrefixLengthUnique(a: Path, b: Path, i: nat)
    requires i <= |a| && i <= |b| && a[..i] == b[..i]
    requires i < |a| && i < |b| ==> a[i] != b[i]
    ensures PrefixLength(a, b) == i
  {
    var j := PrefixLength(a, b);
    assert forall x :: 0 <= x < i ==> a[..i][x] == b[..i][x];
    assert forall x :: 0 <= x < j ==> a[..j][x] == b[..j][x];
  }

  lemma PrefixLengthAtLeast(a: Path, b: Path, m: nat)
    requires m <= |a| && m <= |b| && a[..m] == b[..m]
    ensures m <= PrefixLength(a, b)
  {
    assert forall x :: 0 <= x < m ==> a[..m][x] == b[..m][x];
  }

  lemma LessTransitive(a: Path, b: Path, c: Path)
    requires Less(a, b) && Less(b, c)
    ensures Less(a, c)
  {
    var i, j := PrefixLength(a, b), PrefixLength(b, c);
    var m := if i < j then i else j;
    assert a[..m] == a[..i][..m] == b[..i][..m] == b[..m];
    assert b[..m] == b[..j][..m] == c[..j][..m] == c[..m];
    if i < j { assert b[i] == b[..j][i] == c[i]; }
    if j < i { assert b[j] == b[..i][j] == a[j]; }
    LessAt(a, c, m);
  }

  /** A proper extension comes later. */
  lemma PrefixLess(a: Path, b: Path)
    requires a <= b && a != b
    ensures Less(a, b)
  {
    LessAt(a, b, |a|);
  }

  lemma LessAsymmetric(a: Path, b: Path)
    requires Less(a, b)
    ensures !Less(b, a) && a != b
  {
    PrefixLengthUnique(b, a, PrefixLength(a, b));
  }
}
