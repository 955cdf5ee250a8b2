/** Block numbers kept as chunks of bitmaps of bounded size, and lookups in them. */
module Bitmaps {
  import opened Basics
  import opened StateTypes

  const U64_MAX: nat := 0xffff_ffff_ffff_ffff

  type Bitmap = set<nat>

  /** Chunks of one index key, by the number they are stored under. */
  type Chunked = map<nat, Bitmap>

  function All(t: Chunked): Bitmap {
    set k, x | k in t && x in t[k] :: x
  }

  lemma Widest(s: Bitmap, rest: Bitmap, a: nat)
    requires a in s && rest == s - {a}
    ensures forall x :: x in s <==> x in rest || x == a
    ensures |rest| < |s|
  {
    assert s == rest + {a};
  }

  lemma {:induction false} LeastExists(s: Bitmap, n: nat, bound: nat)
    requires bound in s && n <= bound && forall x :: x in s ==> n <= x
    ensures exists m :: m in s && forall x :: x in s ==> m <= x
    decreases bound - n
  {
    if n !in s {
      LeastExists(s, n + 1, bound);
    }
  }

  function Least(s: Bitmap): (m: nat)
    requires s != {}
    ensures m in s && forall x :: x in s ==> m <= x
  {
    var bound :| bound in s;
    LeastExists(s, 0, bound);
    var m :| m in s && forall x :: x in s ==> m <= x;
    m
  }

  lemma {:induction false} GreatestExists(s: Bitmap)
    requires s != {}
    ensures exists m :: m in s && forall x :: x in s ==> x <= m
    decreases |s|
  {
    var a :| a in s;
    var rest := s - {a};
    Widest(s, rest, a);
    if rest != {} {
      GreatestExists(rest);
      var b :| b in rest && forall x :: x in rest ==> x <= b;
      var m := if a > b then a else b;
      assert m in s;
      assert forall x :: x in s ==> x <= m;
    } else {
      assert forall x :: x in s ==> x <= a;
    }
  }

  function Greatest(s: Bitmap): (m: nat)
    requires s != {}
    ensures m in s && forall x :: x in s ==> x <= m
  {
    GreatestExists(s);
    var m :| m in s && forall x :: x in s ==> x <= m;
    m
  }

  // Cutting into chunks

  /** Every element of `s` is below every element of `t`. */
  predicate Before(s: Bitmap, t: Bitmap) {
    forall x, y :: x in s && y in t ==> x < y
  }

  /** The size of a serialized bitmap, and the limit on it. */
  datatype Sizes = Sizes(size: Bitmap -> nat, limit: nat)

  ghost predicate OneFits(sizes: Sizes, bm: Bitmap) {
    forall x :: x in bm ==> sizes.size({x}) <= sizes.limit
  }

  class Chunks {
    var bm: Bitmap
    const sizes: Sizes

    constructor (bm: Bitmap, sizes: Sizes)
      ensures this.bm == bm && this.sizes == sizes
    {
      this.bm, this.sizes := bm, sizes;
    }

    /** Takes the longest run of smallest elements that fits. */
    method Next() returns (chunk: Option<Bitmap>)
      requires OneFits(sizes, bm)
      modifies this
      ensures chunk.None? <==> old(bm) == {}
      ensures chunk.None? ==> bm == {}
      ensures chunk.Some? ==>
        && chunk.value != {} && chunk.value + bm == old(bm) && chunk.value !! bm && Before(chunk.value, bm)
        && sizes.size(chunk.value) <= sizes.limit
        && (bm != {} ==> sizes.size(chunk.value + {Least(bm)}) > sizes.limit)
    {
      if bm == {} {
        return None;
      }
      if sizes.size(bm) <= sizes.limit {
        chunk, bm := Some(bm), {};
        return;
      }
      var v, rest := TakeFitting(bm, sizes);
      bm := rest;
      return Some(v);
    }
  }

  method TakeFitting(bm: Bitmap, sizes: Sizes) returns (v: Bitmap, rest: Bitmap)
    requires OneFits(sizes, bm) && sizes.size(bm) > sizes.limit && bm != {}
    ensures v != {} && v + rest == bm && v !! rest && Before(v, rest) && sizes.size(v) <= sizes.limit
    ensures rest != {} && sizes.size(v + {Least(rest)}) > sizes.limit
  {
    hide Before;
    NothingBefore(bm);
    v, rest := {}, bm;
    assert v + rest == bm;
    while true
      invariant v + rest == bm && v !! rest && Before(v, rest) && rest != {}
      invariant v == {} || sizes.size(v) <= sizes.limit
      decreases |rest|
    {
      var n := Least(rest);
      if sizes.size(v + {n}) > sizes.limit {
        FirstFits(sizes, bm, v, n);
        return;
      }
      MoveLeast(v, rest);
      NotAll(sizes, bm, v + {n}, rest - {n});
      v, rest := v + {n}, rest - {n};
    }
  }

  lemma NothingBefore(s: Bitmap)
    ensures Before({}, s)
  {
  }

  lemma FirstFits(sizes: Sizes, bm: Bitmap, v: Bitmap, n: nat)
    requires OneFits(sizes, bm) && n in bm && sizes.size(v + {n}) > sizes.limit
    ensures v != {}
  {
    var none: Bitmap := {};
    assert none + {n} == {n};
  }

  lemma MoveLeast(v: Bitmap, rest: Bitmap)
    requires rest != {} && v !! rest && Before(v, rest)
    ensures var n := Least(rest); v + {n} + (rest - {n}) == v + rest && v + {n} !! rest - {n} && Before(v + {n}, rest - {n})
  {
  }

  lemma NotAll(sizes: Sizes, bm: Bitmap, v: Bitmap, rest: Bitmap)
    requires v + rest == bm && sizes.size(v) <= sizes.limit < sizes.size(bm)
    ensures rest != {}
  {
    var none: Bitmap := {};
    assert v + none == v;
  }

  // Chunks with keys

  function Cover(out: seq<(nat, Bitmap)>): Bitmap {
    set i, x | 0 <= i < |out| && x in out[i].1 :: x
  }

  /** Non-empty chunks, each under its greatest element, every one before the next. */
  ghost predicate Pieces(out: seq<(nat, Bitmap)>) {
    && (forall i :: 0 <= i < |out| ==> out[i].1 != {} && out[i].0 == Greatest(out[i].1))
    && (forall i, j :: 0 <= i < j < |out| ==> Before(out[i].1, out[j].1))
  }

  /** A set cut into chunks, the last one under the greatest key there is. */
  ghost predicate Chunking(bm: Bitmap, out: seq<(nat, Bitmap)>) {
    if out == [] then bm == {}
    else
      var front, last := out[..|out| - 1], out[|out| - 1];
      Pieces(front) && last.0 == U64_MAX && last.1 != {} && Cover(front) + last.1 == bm && Before(Cover(front), last.1)
  }

  lemma CoverMore(out: seq<(nat, Bitmap)>, p: (nat, Bitmap))
    ensures Cover(out + [p]) == Cover(out) + p.1
  {
    var all := out + [p];
    forall x ensures x in Cover(all) <==> x in Cover(out) || x in p.1 {
      if x in Cover(out) {
        var i :| 0 <= i < |out| && x in out[i].1;
        assert all[i] == out[i];
      }
      if x in p.1 {
        assert all[|out|] == p;
      }
    }
  }

  lemma PiecesMore(out: seq<(nat, Bitmap)>, c: Bitmap)
    requires Pieces(out) && c != {} && Before(Cover(out), c)
    ensures Pieces(out + [(Greatest(c), c)])
  {
    var all := out + [(Greatest(c), c)];
    forall i, j | 0 <= i < j < |all| ensures Before(all[i].1, all[j].1) {
      if j == |out| {
        forall x, y | x in all[i].1 && y in c ensures x < y {
          assert x in out[i].1 && x in Cover(out);
        }
      }
    }
  }

  lemma BeforeParts(s: Bitmap, a: Bitmap, b: Bitmap)
    requires Before(s, a + b) && Before(a, b)
    ensures Before(s, a) && Before(s + a, b)
  {
  }

  /** The keys of the chunks increase. */
  lemma KeysIncrease(bm: Bitmap, out: seq<(nat, Bitmap)>)
    requires Chunking(bm, out) && forall x :: x in bm ==> x < U64_MAX
    ensures forall i, j :: 0 <= i < j < |out| ==> out[i].0 < out[j].0
    ensures forall i :: 0 <= i < |out| ==> out[i].1 != {} && forall x :: x in out[i].1 ==> x <= out[i].0
    ensures forall i, j :: 0 <= i < j < |out| ==> Before(out[i].1, out[j].1)
    ensures Cover(out) == bm
  {
    if out != [] {
      var front, last := out[..|out| - 1], out[|out| - 1];
      assert out == front + [last];
      CoverMore(front, last);
      forall i | 0 <= i < |front| ensures front[i] == out[i] && out[i].0 in Cover(front) && out[i].0 in bm && Before(out[i].1, last.1) {
        assert front[i] == out[i] && front[i].0 in front[i].1;
        forall x, y | x in out[i].1 && y in last.1 ensures x < y {
          assert x in front[i].1 && x in Cover(front);
        }
      }
      forall i, j | 0 <= i < j < |out| ensures Before(out[i].1, out[j].1) && out[i].0 < out[j].0 {
        if j < |front| {
          assert Before(front[i].1, front[j].1);
        }
      }
    }
  }

  method ChunksWithKeys(bm: Bitmap, sizes: Sizes) returns (out: seq<(nat, Bitmap)>)
    requires OneFits(sizes, bm)
    ensures Chunking(bm, out)
    ensures forall i :: 0 <= i < |out| ==> sizes.size(out[i].1) <= sizes.limit
  {
    hide *;
    NoPieces();
    var inner := new Chunks(bm, sizes);
    out := [];
    var chunk := inner.Next();
    if chunk.None? {
      return;
    }
    var cur := chunk.value;
    CutFirst(bm, cur, inner.bm);
    while true
      invariant fresh(inner) && inner.sizes == sizes && Cut(bm, out, cur, inner.bm)
      invariant sizes.size(cur) <= sizes.limit && forall i :: 0 <= i < |out| ==> sizes.size(out[i].1) <= sizes.limit
      decreases |inner.bm|
    {
      ghost var rest := inner.bm;
      OneFitsRest(sizes, bm, out, cur, rest);
      var following := inner.Next();
      if following.None? {
        CutLast(bm, out, cur);
        out := out + [(U64_MAX, cur)];
        return;
      }
      CutNext(bm, out, cur, rest, following.value, inner.bm);
      out := out + [(Greatest(cur), cur)];
      cur := following.value;
    }
  }

  /** `out` has been cut off, `cur` comes next, `rest` is left. */
  ghost predicate Cut(bm: Bitmap, out: seq<(nat, Bitmap)>, cur: Bitmap, rest: Bitmap) {
    cur != {} && Pieces(out) && Cover(out) + cur + rest == bm && Before(Cover(out), cur + rest) && Before(cur, rest)
  }

  lemma CutFirst(bm: Bitmap, cur: Bitmap, rest: Bitmap)
    requires cur != {} && cur + rest == bm && Before(cur, rest)
    ensures Cut(bm, [], cur, rest)
  {
  }

  lemma CutNext(bm: Bitmap, out: seq<(nat, Bitmap)>, cur: Bitmap, rest: Bitmap, cur': Bitmap, rest': Bitmap)
    requires Cut(bm, out, cur, rest) && cur' != {} && cur' + rest' == rest && cur' !! rest' && Before(cur', rest')
    ensures |rest'| < |rest| && Cut(bm, out + [(Greatest(cur), cur)], cur', rest')
  {
    hide Pieces, Cover, Before;
    FewerLeft(rest, cur', rest');
    BeforeParts(Cover(out), cur, rest);
    CoverMore(out, (Greatest(cur), cur));
    PiecesMore(out, cur);
    UnionAssoc(Cover(out) + cur, cur', rest');
  }

  lemma FewerLeft(rest: Bitmap, cur: Bitmap, left: Bitmap)
    requires cur != {} && cur + left == rest && cur !! left
    ensures |left| < |rest|
  {
    assert |rest| == |cur| + |left|;
  }

  lemma UnionAssoc(a: Bitmap, b: Bitmap, c: Bitmap)
    ensures a + (b + c) == a + b + c
  {
  }

  lemma CutLast(bm: Bitmap, out: seq<(nat, Bitmap)>, cur: Bitmap)
    requires Cut(bm, out, cur, {})
    ensures Chunking(bm, out + [(U64_MAX, cur)])
  {
    hide Pieces, Cover, Before;
    BeforeParts(Cover(out), cur, {});
    assert (out + [(U64_MAX, cur)])[..|out|] == out;
    assert Cover(out) + cur + {} == Cover(out) + cur;
  }

  lemma NoPieces()
    ensures Pieces([]) && Cover([]) == {} && Chunking({}, [])
  {
  }

  lemma OneFitsRest(sizes: Sizes, bm: Bitmap, out: seq<(nat, Bitmap)>, cur: Bitmap, rest: Bitmap)
    requires OneFits(sizes, bm) && Cut(bm, out, cur, rest)
    ensures OneFits(sizes, rest)
  {
    hide Pieces, Cover, Before;
  }

  // The table

  ghost predicate Closed(t: Chunked) {
    && (forall k :: k in t ==> k in t[k] && forall x :: x in t[k] ==> x <= k)
    && (forall j, k, x :: j in t && k in t && j < k && x in t[k] ==> j < x)
  }

  /** The chunks of a key: closed ones under their greatest elements, then an open one under the greatest key there is. */
  ghost predicate TableOk(t: Chunked) {
    t == map[] ||
    (&& U64_MAX in t && t[U64_MAX] != {}
     && Closed(t - {U64_MAX})
     && forall x :: x in t[U64_MAX] ==> x < U64_MAX && forall k :: k in t && k != U64_MAX ==> k < x)
  }

  lemma ClosedPut(t: Chunked, k: nat, c: Bitmap)
    requires Closed(t) && c != {} && k == Greatest(c) && Before(All(t), c)
    ensures Closed(t[k := c]) && All(t[k := c]) == All(t) + c
  {
    forall j | j in t ensures j < k {
      KeyBefore(t, j, c, k);
    }
    forall x, j | j in t && x in c ensures j < x {
      KeyBefore(t, j, c, x);
    }
    PutAll(t, k, c);
    hide All, Before;
  }

  lemma KeyBefore(t: Chunked, j: nat, c: Bitmap, x: nat)
    requires Closed(t) && j in t && x in c && Before(All(t), c)
    ensures j < x
  {
    assert j in t[j] && j in All(t);
  }

  lemma PutAll(t: Chunked, k: nat, c: Bitmap)
    requires k !in t
    ensures All(t[k := c]) == All(t) + c
  {
    forall x ensures x in All(t[k := c]) <==> x in All(t) || x in c {
      if x in All(t) {
        var j: nat :| j in t && x in t[j];
        assert j in t[k := c] && x in t[k := c][j];
      }
      if x in c {
        assert k in t[k := c] && x in t[k := c][k];
      }
    }
  }

  lemma OpenPut(t: Chunked, c: Bitmap)
    requires Closed(t - {U64_MAX}) && c != {} && Before(All(t - {U64_MAX}), c) && forall x :: x in c ==> x < U64_MAX
    ensures TableOk(t[U64_MAX := c]) && All(t[U64_MAX := c]) == All(t - {U64_MAX}) + c
  {
    var closed := t - {U64_MAX};
    assert t[U64_MAX := c] - {U64_MAX} == closed && closed[U64_MAX := c] == t[U64_MAX := c];
    PutAll(closed, U64_MAX, c);
    forall x, k | x in c && k in closed ensures k < x {
      assert k in closed[k] && k in All(closed);
    }
  }

  lemma OkParts(t: Chunked)
    requires TableOk(t)
    ensures Closed(t - {U64_MAX})
    ensures U64_MAX in t ==> Before(All(t - {U64_MAX}), t[U64_MAX]) && All(t) == All(t - {U64_MAX}) + t[U64_MAX]
    ensures U64_MAX !in t ==> t == map[] && All(t) == {} && All(t - {U64_MAX}) == {}
  {
    var closed := t - {U64_MAX};
    if U64_MAX in t {
      assert closed[U64_MAX := t[U64_MAX]] == t;
      PutAll(closed, U64_MAX, t[U64_MAX]);
      forall x, y | x in All(closed) && y in t[U64_MAX] ensures x < y {
        var k :| k in closed && x in closed[k];
        assert x <= k && k in t && k != U64_MAX;
      }
    }
  }

  /** Adds blocks, all of them later than those there are. */
  method AddBlocks(t: Chunked, blocks: Bitmap, sizes: Sizes) returns (t': Chunked)
    requires TableOk(t) && Before(All(t), blocks) && (forall x :: x in blocks ==> x < U64_MAX) && OneFits(sizes, All(t) + blocks)
    ensures TableOk(t') && All(t') == All(t) + blocks
    ensures AllFit(sizes, t) ==> AllFit(sizes, t')
  {
    t' := t;
    if blocks != {} {
      var total := blocks;
      if U64_MAX in t {
        total := total + t[U64_MAX];
      }
      TotalReady(t, blocks, total, sizes);
      var chunks := ChunksWithKeys(total, sizes);
      t' := PutChunks(t, total, chunks);
    }
  }

  predicate AllFit(sizes: Sizes, t: Chunked) {
    forall k :: k in t ==> sizes.size(t[k]) <= sizes.limit
  }

  lemma TotalReady(t: Chunked, blocks: Bitmap, total: Bitmap, sizes: Sizes)
    requires TableOk(t) && Before(All(t), blocks) && (forall x :: x in blocks ==> x < U64_MAX) && OneFits(sizes, All(t) + blocks) && blocks != {}
    requires total == if U64_MAX in t then blocks + t[U64_MAX] else blocks
    ensures Closed(t - {U64_MAX}) && Before(All(t - {U64_MAX}), total) && (forall x :: x in total ==> x < U64_MAX)
    ensures OneFits(sizes, total) && total != {} && All(t - {U64_MAX}) + total == All(t) + blocks
  {
    OkParts(t);
  }

  method PutChunks(t: Chunked, total: Bitmap, chunks: seq<(nat, Bitmap)>) returns (t': Chunked)
    requires Closed(t - {U64_MAX}) && Before(All(t - {U64_MAX}), total) && total != {} && (forall x :: x in total ==> x < U64_MAX)
    requires Chunking(total, chunks)
    ensures TableOk(t') && All(t') == All(t - {U64_MAX}) + total
    ensures forall k :: k in t' ==> (k in t && t'[k] == t[k]) || exists i :: 0 <= i < |chunks| && t'[k] == chunks[i].1
  {
    ghost var closed, front := t - {U64_MAX}, chunks[..|chunks| - 1];
    hide All, Closed, TableOk, Cover, Pieces, Before;
    t' := t;
    NoPieces();
    assert front[..0] == [];
    for i := 0 to |chunks|
      invariant i < |chunks| ==> Closed(t' - {U64_MAX}) && All(t' - {U64_MAX}) == All(closed) + Cover(front[..i])
      invariant i == |chunks| ==> TableOk(t') && All(t') == All(closed) + total
      invariant forall k :: k in t' ==> (k in t && t'[k] == t[k]) || exists j :: 0 <= j < i && t'[k] == chunks[j].1
    {
      var k, c := chunks[i].0, chunks[i].1;
      if i < |chunks| - 1 {
        assert front[..i + 1] == front[..i] + [front[i]];
        CoverMore(front[..i], front[i]);
        NextPiece(closed, total, chunks, i);
        ClosedPut(t' - {U64_MAX}, k, c);
        assert (t' - {U64_MAX})[k := c] == t'[k := c] - {U64_MAX};
      } else {
        assert front[..i] == front;
        LastPiece(closed, total, chunks);
        OpenPut(t', c);
      }
      t' := t'[k := c];
    }
  }

  lemma NextPiece(closed: Chunked, total: Bitmap, chunks: seq<(nat, Bitmap)>, i: nat)
    requires Chunking(total, chunks) && i < |chunks| - 1 && Before(All(closed), total) && (forall x :: x in total ==> x < U64_MAX)
    ensures var c := chunks[i].1;
      c != {} && chunks[i].0 == Greatest(c) && chunks[i].0 < U64_MAX && Before(All(closed) + Cover(chunks[..|chunks| - 1][..i]), c)
  {
    var front := chunks[..|chunks| - 1];
    assert front[i] == chunks[i];
    forall x | x in front[i].1 ensures x in total {
      assert x in Cover(front);
    }
    forall x, y | x in Cover(front[..i]) && y in front[i].1 ensures x < y {
      var j :| 0 <= j < i && x in front[..i][j].1;
      assert Before(front[j].1, front[i].1);
    }
  }

  lemma LastPiece(closed: Chunked, total: Bitmap, chunks: seq<(nat, Bitmap)>)
    requires Chunking(total, chunks) && total != {} && Before(All(closed), total)
    ensures chunks != []
    ensures var front, last := chunks[..|chunks| - 1], chunks[|chunks| - 1];
      last.0 == U64_MAX && last.1 != {} && last.1 <= total && Cover(front) + last.1 == total && Before(All(closed) + Cover(front), last.1)
  {
  }

  // Lookups

  /** The first key from `b` on. */
  method Seek(t: Chunked, b: nat) returns (k: Option<nat>)
    ensures k.Some? ==> k.value in t && b <= k.value && forall j :: j in t && b <= j ==> k.value <= j
    ensures k.None? ==> forall j :: j in t ==> j < b
  {
    var later := set j | j in t && b <= j;
    assert forall j :: j in t && b <= j ==> j in later;
    if later == {} {
      return None;
    }
    return Some(Least(later));
  }

  lemma InChunk(t: Chunked, x: nat)
    requires TableOk(t) && x in All(t)
    ensures exists j: nat :: j in t && x in t[j] && x <= j <= U64_MAX && forall k :: k in t && k < j ==> k < x
  {
    var j: nat :| j in t && x in t[j];
    var closed := t - {U64_MAX};
    if j != U64_MAX {
      assert j in closed && x in closed[j] && x <= j;
      KeysBelowMax(t, j);
      forall k | k in t && k < j ensures k < x {
        assert k in closed;
      }
    }
  }

  lemma KeysBelowMax(t: Chunked, j: nat)
    requires TableOk(t) && j in t
    ensures j <= U64_MAX
  {
    if j != U64_MAX {
      var x :| x in t[U64_MAX];
      assert j < x;
    }
  }

  /** The blocks of all chunks that may hold one between `from` and `to`: exact on that range. */
  method Get(t: Chunked, from: nat, to: nat) returns (out: Bitmap)
    requires TableOk(t)
    ensures out <= All(t) && forall x :: from <= x <= to ==> (x in out <==> x in All(t))
  {
    out := {};
    var k := Seek(t, from);
    while k.Some?
      invariant out <= All(t)
      invariant k.Some? ==> k.value in t && from <= k.value && forall j, x :: j in t && from <= j < k.value && x in t[j] ==> x in out
      invariant k.None? ==> forall j, x :: j in t && from <= j && x in t[j] ==> x in out
      decreases if k.Some? then (set j: nat | j in t && k.value <= j) else {}
    {
      ghost var before := k.value;
      ghost var taken := out;
      out := out + t[k.value];
      if k.value >= to {
        break;
      }
      k := Seek(t, k.value + 1);
      assert before in (set j | j in t && before <= j);
    }
    forall x | from <= x <= to && x in All(t) ensures x in out {
      InChunk(t, x);
      var j: nat :| j in t && x in t[j] && x <= j && forall k :: k in t && k < j ==> k < x;
    }
  }

  /** The least element above `b`. */
  function NextAbove(s: Bitmap, b: nat): Option<nat> {
    var later := set x | x in s && x > b;
    if later == {} then None else Some(Least(later))
  }

  /** Looks in one chunk only, and so misses what follows exactly when `b` is the key of a chunk that is not the last. */
  method FindNextBlock(t: Chunked, b: nat) returns (block: Option<nat>)
    requires TableOk(t) && b <= U64_MAX
    ensures block == NextAbove(All(t), b) <==> !(b in t && b < U64_MAX)
    ensures b in t && b < U64_MAX ==> block.None?
  {
    var k := Seek(t, b);
    if k.None? {
      NothingThere(t, b);
      return None;
    }
    block := NextAbove(t[k.value], b);
    if k.value == b && b < U64_MAX {
      ClosedEnd(t, b);
    } else {
      OneChunkEnough(t, b, k.value);
    }
  }

  /** A table with a closed chunk, on which the lookup misses the next block. */
  lemma MissedTable()
    ensures var t: Chunked := map[1 := {1}, U64_MAX := {2}];
      TableOk(t) && 1 in t && 1 < U64_MAX && NextAbove(t[1], 1) == None && NextAbove(All(t), 1) == Some(2)
  {
    var t: Chunked := map[1 := {1}, U64_MAX := {2}];
    assert t - {U64_MAX} == map[1 := {1}];
    forall x ensures x in All(t) <==> x == 1 || x == 2 {
      assert 1 in t && 1 in t[1] && U64_MAX in t && 2 in t[U64_MAX];
    }
    assert (set x | x in t[1] && x > 1) == {};
    var later := set x | x in All(t) && x > 1;
    assert later == {2};
    assert Least({2}) == 2;
  }

  /** Such a table comes about when two blocks are added of which only one fits in a chunk. */
  method MissedBlock() returns (t: Chunked, block: Option<nat>)
    ensures TableOk(t) && All(t) == {1, 2} && block == None && NextAbove(All(t), 1) == Some(2)
  {
    var sizes := Sizes((s: Bitmap) => |s|, 1);
    t := AddBlocks(map[], {1, 2}, sizes);
    OneEach(t, sizes);
    block := FindNextBlock(t, 1);
    var later := set x | x in All(t) && x > 1;
    assert later == {2};
    assert Least({2}) == 2;
  }

  lemma OneEach(t: Chunked, sizes: Sizes)
    requires TableOk(t) && All(t) == {1, 2} && (forall k :: k in t ==> |t[k]| <= 1)
    ensures 1 in t && 1 < U64_MAX
  {
    InChunk(t, 1);
    var j: nat :| j in t && 1 in t[j] && 1 <= j <= U64_MAX && forall k :: k in t && k < j ==> k < 1;
    if j == U64_MAX {
      InChunk(t, 2);
      var i: nat :| i in t && 2 in t[i] && 2 <= i <= U64_MAX && forall k :: k in t && k < i ==> k < 2;
      if i == j {
        BothInOne(t[j]);
      }
    } else {
      assert j in (t - {U64_MAX}) && j in t[j] && j in All(t);
      if j == 2 {
        BothInOne(t[j]);
      }
    }
  }

  lemma BothInOne(s: Bitmap)
    requires 1 in s && 2 in s
    ensures |s| >= 2
  {
    var rest := s - {1};
    assert 2 in rest && |rest| == |s| - 1;
  }

  lemma NothingThere(t: Chunked, b: nat)
    requires TableOk(t) && b <= U64_MAX && forall j :: j in t ==> j < b
    ensures t == map[] && NextAbove(All(t), b) == None
  {
  }

  lemma ClosedEnd(t: Chunked, b: nat)
    requires TableOk(t) && b in t && b < U64_MAX
    ensures NextAbove(t[b], b) == None && NextAbove(All(t), b).Some?
  {
    var closed := t - {U64_MAX};
    assert b in closed && forall x :: x in closed[b] ==> x <= b;
    var y :| y in t[U64_MAX];
    assert y in All(t) && y > b;
    assert y in (set x | x in All(t) && x > b);
  }

  lemma OneChunkEnough(t: Chunked, b: nat, k: nat)
    requires TableOk(t) && k in t && b <= k && (forall j :: j in t && b <= j ==> k <= j) && (k == b ==> b >= U64_MAX)
    ensures NextAbove(t[k], b) == NextAbove(All(t), b)
  {
    var here, there := set x | x in t[k] && x > b, set x | x in All(t) && x > b;
    assert here <= there;
    forall x | x in there ensures exists y :: y in here && y <= x {
      var y := NoLater(t, b, k, x);
      assert y in here;
    }
    SameLeast(here, there);
  }

  lemma NoLater(t: Chunked, b: nat, k: nat, x: nat) returns (y: nat)
    requires TableOk(t) && k in t && b <= k && (forall j :: j in t && b <= j ==> k <= j) && (k == b ==> b >= U64_MAX)
    requires x in All(t) && x > b
    ensures y in t[k] && b < y <= x
  {
    hide Closed;
    InChunk(t, x);
    var j: nat :| j in t && x in t[j] && x <= j <= U64_MAX && forall i :: i in t && i < j ==> i < x;
    if j == k {
      y := x;
    } else {
      KeyInChunk(t, k, j);
      y := k;
    }
  }

  lemma SameLeast(here: Bitmap, there: Bitmap)
    requires here <= there && forall x :: x in there ==> exists y :: y in here && y <= x
    ensures here == {} <==> there == {}
    ensures here != {} && there != {} ==> Least(here) == Least(there)
  {
    if there != {} {
      var y :| y in here && y <= Least(there);
      assert Least(here) <= y;
    }
  }

  lemma KeyInChunk(t: Chunked, k: nat, j: nat)
    requires TableOk(t) && k in t && j in t && k < j <= U64_MAX
    ensures k in t[k]
  {
    var closed := t - {U64_MAX};
    assert k in closed;
  }
}
