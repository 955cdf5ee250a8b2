/** The order of entries, and sorted sequences of them. */
module Sorting {
  import opened Bytes
  import opened DataProvider

  predicate BytesLe(a: Bytes, b: Bytes) {
    a == [] || (b != [] && (a[0] < b[0] || (a[0] == b[0] && BytesLe(a[1..], b[1..]))))
  }

  lemma {:induction false} BytesTotal(a: Bytes, b: Bytes)
    ensures BytesLe(a, b) || BytesLe(b, a)
    ensures BytesLe(a, b) && BytesLe(b, a) ==> a == b
  {
    if a != [] && b != [] {
      BytesTotal(a[1..], b[1..]);
      assert a == [a[0]] + a[1..] && b == [b[0]] + b[1..];
    }
  }

  lemma {:induction false} BytesTransitive(a: Bytes, b: Bytes, c: Bytes)
    requires BytesLe(a, b) && BytesLe(b, c)
    ensures BytesLe(a, c)
  {
    if a != [] && a[0] == b[0] == c[0] {
      BytesTransitive(a[1..], b[1..], c[1..]);
    }
  }

  /** By key, then by value. */
  predicate Le(x: Entry, y: Entry) {
    if x.key == y.key then BytesLe(x.value, y.value) else BytesLe(x.key, y.key)
  }

  lemma Total(x: Entry, y: Entry)
    ensures Le(x, y) || Le(y, x)
    ensures Le(x, y) && Le(y, x) ==> x == y
  {
    BytesTotal(x.key, y.key);
    BytesTotal(x.value, y.value);
  }

  lemma Transitive(x: Entry, y: Entry, z: Entry)
    requires Le(x, y) && Le(y, z)
    ensures Le(x, z)
  {
    if x.key == y.key == z.key {
      BytesTransitive(x.value, y.value, z.value);
    } else if x.key != y.key && y.key != z.key {
      BytesTransitive(x.key, y.key, z.key);
      if x.key == z.key {
        BytesTotal(x.key, y.key);
      }
    }
  }

  ghost predicate Sorted(s: seq<Entry>) {
    forall i, j :: 0 <= i < j < |s| ==> Le(s[i], s[j])
  }

  /** `x` is not above anything in `s`. */
  ghost predicate LeAll(x: Entry, s: multiset<Entry>) {
    forall y :: y in s ==> Le(x, y)
  }

  lemma SortedHead(s: seq<Entry>)
    requires Sorted(s) && s != []
    ensures LeAll(s[0], multiset(s)) && Sorted(s[1..])
  {
    Total(s[0], s[0]);
  }

  function Insert(s: seq<Entry>, x: Entry): (r: seq<Entry>)
    ensures multiset(r) == multiset(s) + multiset{x}
  {
    if s == [] then [x]
    else if Le(x, s[0]) then [x] + s
    else
      assert s == [s[0]] + s[1..];
      [s[0]] + Insert(s[1..], x)
  }

  lemma {:induction false} InsertSorted(s: seq<Entry>, x: Entry)
    requires Sorted(s)
    ensures Sorted(Insert(s, x))
  {
    if s != [] {
      SortedHead(s);
      Total(x, s[0]);
      if Le(x, s[0]) {
        forall i | 0 <= i < |s| ensures Le(x, s[i]) {
          assert s[i] in multiset(s);
          Transitive(x, s[0], s[i]);
        }
      } else {
        InsertSorted(s[1..], x);
        var r := Insert(s[1..], x);
        forall i | 0 <= i < |r| ensures Le(s[0], r[i]) {
          assert r[i] in multiset(r);
          assert r[i] == x || r[i] in multiset(s[1..]);
          assert s == [s[0]] + s[1..];
        }
      }
    }
  }

  /** Stands for the library's sort. */
  function Sort(s: seq<Entry>): (r: seq<Entry>)
    ensures multiset(r) == multiset(s)
  {
    if s == [] then []
    else
      assert s == s[..|s| - 1] + [s[|s| - 1]];
      Insert(Sort(s[..|s| - 1]), s[|s| - 1])
  }

  lemma {:induction false} SortSorts(s: seq<Entry>)
    ensures Sorted(Sort(s))
  {
    if s != [] {
      SortSorts(s[..|s| - 1]);
      InsertSorted(Sort(s[..|s| - 1]), s[|s| - 1]);
    }
  }

  /** There is only one sorted sequence of given entries. */
  lemma {:induction false} OneSorted(s: seq<Entry>, t: seq<Entry>)
    requires Sorted(s) && Sorted(t) && multiset(s) == multiset(t)
    ensures s == t
  {
    assert |s| == |multiset(s)| == |multiset(t)| == |t|;
    if s != [] {
      SortedHead(s);
      SortedHead(t);
      assert s[0] in multiset(t) && t[0] in multiset(s) by {
        assert s[0] in multiset(s) && t[0] in multiset(t);
      }
      Total(s[0], t[0]);
      assert s == [s[0]] + s[1..] && t == [t[0]] + t[1..];
      assert multiset(s[1..]) == multiset(s) - multiset{s[0]} && multiset(t[1..]) == multiset(t) - multiset{t[0]};
      OneSorted(s[1..], t[1..]);
    }
  }
}
