/** The whole stage: traces are collected, sorted through files as bytes, and added to the index. */
module CallTraceStage {
  import opened Basics
  import opened Bytes
  import opened FixedWidth
  import opened StateTypes
  import opened Bitmaps
  import opened CallTraces
  import DataProvider
  import Sorting
  import Collector

  const ADDRESS_LENGTH: nat := 20

  /** The serialized form of bitmaps. */
  datatype Codec = Codec(encode: Bitmap -> Bytes, decode: Bytes -> Bitmap)

  /** Bitmaps of blocks up to `maxBlock` survive the round trip, and their length fits eight bytes. */
  ghost predicate GoodCodec(codec: Codec, maxBlock: nat) {
    forall s: Bitmap :: (forall x :: x in s ==> x <= maxBlock) ==> codec.decode(codec.encode(s)) == s && |codec.encode(s)| < U64_RANGE
  }

  predicate IsAddress(a: Address) {
    a < Pow256(ADDRESS_LENGTH)
  }

  function EncodeOne(codec: Codec, p: (Address, Bitmap)): DataProvider.Entry {
    DataProvider.Entry(FixedBytes(p.0, ADDRESS_LENGTH), codec.encode(p.1))
  }

  function DecodeOne(codec: Codec, e: DataProvider.Entry): (Address, Bitmap) {
    (BigEndian(e.key), codec.decode(e.value))
  }

  /** What is collected can be encoded. */
  ghost predicate Encodable(collected: Collected, maxBlock: nat) {
    forall i :: 0 <= i < |collected| ==> IsAddress(collected[i].0) && forall x :: x in collected[i].1 ==> x <= maxBlock
  }

  lemma OneRoundTrip(codec: Codec, maxBlock: nat, p: (Address, Bitmap))
    requires GoodCodec(codec, maxBlock) && IsAddress(p.0) && forall x :: x in p.1 ==> x <= maxBlock
    ensures DecodeOne(codec, EncodeOne(codec, p)) == p
    ensures DataProvider.Fits(EncodeOne(codec, p)) && Collector.Size(EncodeOne(codec, p)) > 0
  {
    FixedValue(p.0, ADDRESS_LENGTH);
  }

  // The order of addresses

  lemma {:induction false} LeValue(a: Bytes, b: Bytes)
    requires |a| == |b| && Sorting.BytesLe(a, b)
    ensures BigEndian(a) <= BigEndian(b)
    decreases |a|
  {
    if a != [] {
      HighByte(a);
      HighByte(b);
      ValueBelow(a[1..]);
      if a[0] == b[0] {
        LeValue(a[1..], b[1..]);
      } else {
        Higher(a[0], b[0], Pow256(|a| - 1));
      }
    }
  }

  lemma {:induction false} Higher(x: nat, y: nat, p: nat)
    requires x < y
    ensures x * p + p <= y * p
  {
    if p > 0 {
      Higher(x, y, p - 1);
      assert x * p == x * (p - 1) + x && y * p == y * (p - 1) + y;
    }
  }

  lemma {:induction false} ValueBelow(b: Bytes)
    ensures BigEndian(b) < Pow256(|b|)
    decreases |b|
  {
    if b != [] {
      ValueBelow(b[..|b| - 1]);
    }
  }

  lemma {:induction false} HighByte(b: Bytes)
    requires b != []
    ensures BigEndian(b) == b[0] * Pow256(|b| - 1) + BigEndian(b[1..])
    decreases |b|
  {
    if |b| == 1 {
      assert b[..0] == [] && b[1..] == [];
    } else {
      var front := b[..|b| - 1];
      HighByte(front);
      assert b[1..][..|b| - 2] == front[1..];
      assert 256 * (b[0] * Pow256(|b| - 2)) == b[0] * Pow256(|b| - 1);
    }
  }

  // Through the files

  function EncodeAll(codec: Codec, collected: Collected): seq<DataProvider.Entry> {
    seq(|collected|, i requires 0 <= i < |collected| => EncodeOne(codec, collected[i]))
  }

  function DecodeAll(codec: Codec, entries: seq<DataProvider.Entry>): Collected {
    seq(|entries|, i requires 0 <= i < |entries| => DecodeOne(codec, entries[i]))
  }

  /** Sorting loses no part and makes none up. */
  lemma SameBlocks(codec: Codec, maxBlock: nat, collected: Collected, sorted: seq<DataProvider.Entry>)
    requires GoodCodec(codec, maxBlock) && Encodable(collected, maxBlock)
    requires multiset(sorted) == multiset(EncodeAll(codec, collected))
    ensures forall i :: 0 <= i < |sorted| ==> DecodeAll(codec, sorted)[i] in collected && |sorted[i].key| == ADDRESS_LENGTH
    ensures forall a: Address :: BlocksFor(DecodeAll(codec, sorted), a) == BlocksFor(collected, a)
  {
    var encoded, decoded := EncodeAll(codec, collected), DecodeAll(codec, sorted);
    hide GoodCodec, EncodeOne, DecodeOne, BlocksFor;
    forall i | 0 <= i < |sorted| ensures decoded[i] in collected && |sorted[i].key| == ADDRESS_LENGTH {
      assert sorted[i] in multiset(encoded);
      var j :| 0 <= j < |encoded| && encoded[j] == sorted[i];
      OneRoundTrip(codec, maxBlock, collected[j]);
      KeyLength(codec, collected[j]);
    }
    forall j | 0 <= j < |collected| ensures collected[j] in decoded {
      assert encoded[j] in multiset(sorted);
      var i :| 0 <= i < |sorted| && sorted[i] == encoded[j];
      OneRoundTrip(codec, maxBlock, collected[j]);
      assert decoded[i] == collected[j];
    }
    forall a: Address ensures BlocksFor(decoded, a) == BlocksFor(collected, a) {
      SamePartsSameBlocks(decoded, collected, a);
    }
  }

  lemma KeyLength(codec: Codec, p: (Address, Bitmap))
    ensures |EncodeOne(codec, p).key| == ADDRESS_LENGTH
  {
  }

  lemma SamePartsSameBlocks(x: Collected, y: Collected, a: Address)
    requires (forall i :: 0 <= i < |x| ==> x[i] in y) && (forall j :: 0 <= j < |y| ==> y[j] in x)
    ensures BlocksFor(x, a) == BlocksFor(y, a)
  {
    PartsIncluded(x, y, a);
    PartsIncluded(y, x, a);
  }

  lemma PartsIncluded(x: Collected, y: Collected, a: Address)
    requires forall i :: 0 <= i < |x| ==> x[i] in y
    ensures BlocksFor(x, a) <= BlocksFor(y, a)
  {
    forall b | b in BlocksFor(x, a) ensures b in BlocksFor(y, a) {
      var i :| 0 <= i < |x| && x[i].0 == a && b in x[i].1;
      assert x[i] in y;
      var j :| 0 <= j < |y| && y[j] == x[i];
    }
  }

  lemma SortedAddresses(codec: Codec, sorted: seq<DataProvider.Entry>)
    requires Sorting.Sorted(sorted) && forall i :: 0 <= i < |sorted| ==> |sorted[i].key| == ADDRESS_LENGTH
    ensures forall i, j :: 0 <= i < j < |sorted| ==> DecodeAll(codec, sorted)[i].0 <= DecodeAll(codec, sorted)[j].0
  {
    forall i, j | 0 <= i < j < |sorted| ensures DecodeAll(codec, sorted)[i].0 <= DecodeAll(codec, sorted)[j].0 {
      assert Sorting.Le(sorted[i], sorted[j]);
      Sorting.BytesTotal(sorted[i].key, sorted[i].key);
      LeValue(sorted[i].key, sorted[j].key);
    }
  }

  /** The addresses and blocks that are collected are those of the entries. */
  lemma CollectedEncodable(entries: seq<Entry>, maxBlock: nat, collected: Collected)
    requires forall i :: 0 <= i < |entries| ==> IsAddress(entries[i].address)
    requires NoneEmpty(collected) && forall a: Address :: BlocksFor(collected, a) == TracedUpTo(entries, maxBlock, a)
    ensures Encodable(collected, maxBlock)
  {
    hide IsAddress;
    forall i | 0 <= i < |collected| ensures IsAddress(collected[i].0) && forall x :: x in collected[i].1 ==> x <= maxBlock {
      var a := collected[i].0;
      forall x | x in collected[i].1 ensures x <= maxBlock && IsAddress(a) {
        assert x in BlocksFor(collected, a);
        assert x in TracedUpTo(entries, maxBlock, a);
      }
      var x :| x in collected[i].1;
    }
  }

  lemma LaterBlocks(index: Index, startingBlock: nat, entries: seq<Entry>, maxBlock: nat, collected: Collected, decoded: Collected)
    requires forall a: Address, x :: x in All(ChunksOf(index, a)) ==> x <= startingBlock
    requires forall i :: 0 <= i < |entries| ==> startingBlock < entries[i].block
    requires forall a: Address :: BlocksFor(collected, a) == TracedUpTo(entries, maxBlock, a)
    requires maxBlock < U64_MAX && forall i :: 0 <= i < |decoded| ==> decoded[i] in collected
    ensures forall i :: 0 <= i < |decoded| ==> Before(All(ChunksOf(index, decoded[i].0)), decoded[i].1)
    ensures forall i, x :: 0 <= i < |decoded| && x in decoded[i].1 ==> x < U64_MAX
  {
    hide All;
    forall i, x | 0 <= i < |decoded| && x in decoded[i].1 ensures startingBlock < x <= maxBlock {
      var j :| 0 <= j < |collected| && collected[j] == decoded[i];
      assert x in BlocksFor(collected, decoded[i].0);
      assert x in TracedUpTo(entries, maxBlock, decoded[i].0);
    }
  }

  /** Every address gets exactly the blocks that it was traced in, whatever the flush interval and the buffer capacity. */
  method Execute(index: Index, entries: seq<Entry>, startingBlock: nat, maxBlock: nat, flushInterval: nat, bufferCapacity: nat,
      codec: Codec, sizes: Sizes) returns (index': Index)
    requires forall i, j :: 0 <= i < j < |entries| ==> entries[i].block <= entries[j].block
    requires forall i :: 0 <= i < |entries| ==> startingBlock < entries[i].block && IsAddress(entries[i].address)
    requires IndexOk(index) && forall a: Address, x :: x in All(ChunksOf(index, a)) ==> x <= startingBlock
    requires maxBlock < U64_MAX && GoodCodec(codec, maxBlock) && forall x: nat :: sizes.size({x}) <= sizes.limit
    ensures IndexOk(index')
    ensures forall a: Address :: All(ChunksOf(index', a)) == All(ChunksOf(index, a)) + TracedUpTo(entries, maxBlock, a)
  {
    hide *;
    var collected := Collect(entries, startingBlock, maxBlock, flushInterval);
    CollectedEncodable(entries, maxBlock, collected);
    EncodedFit(codec, maxBlock, collected);
    var sorted := Collector.SortAll(EncodeAll(codec, collected), bufferCapacity);
    Sorting.SortSorts(EncodeAll(codec, collected));
    SameBlocks(codec, maxBlock, collected, sorted);
    SortedAddresses(codec, sorted);
    DecodedLength(codec, sorted);
    LaterBlocks(index, startingBlock, entries, maxBlock, collected, DecodeAll(codec, sorted));
    index' := LoadCallTraces(index, DecodeAll(codec, sorted), sizes);
  }

  lemma DecodedLength(codec: Codec, sorted: seq<DataProvider.Entry>)
    ensures |DecodeAll(codec, sorted)| == |sorted|
  {
  }

  lemma EncodedFit(codec: Codec, maxBlock: nat, collected: Collected)
    requires GoodCodec(codec, maxBlock) && Encodable(collected, maxBlock)
    ensures DataProvider.AllFit(EncodeAll(codec, collected))
    ensures forall i :: 0 <= i < |EncodeAll(codec, collected)| ==> Collector.Size(EncodeAll(codec, collected)[i]) > 0
  {
    hide GoodCodec, EncodeOne, Collector.Size, DataProvider.Fits;
    forall i | 0 <= i < |collected|
      ensures DataProvider.Fits(EncodeOne(codec, collected[i])) && Collector.Size(EncodeOne(codec, collected[i])) > 0
    {
      OneRoundTrip(codec, maxBlock, collected[i]);
    }
  }
}
