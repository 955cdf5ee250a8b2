/** The call trace index: blocks collected by address, flushed now and then, and added to the chunked index. */
module CallTraces {
  import opened StateTypes
  import opened Bitmaps

  datatype Entry = Entry(block: nat, address: Address)

  type Index = map<Address, Chunked>

  type Collected = seq<(Address, Bitmap)>

  function ChunksOf(index: Index, a: Address): Chunked {
    if a in index then index[a] else map[]
  }

  /** All the blocks collected for an address. */
  function BlocksFor(collected: Collected, a: Address): Bitmap {
    set i, x | 0 <= i < |collected| && collected[i].0 == a && x in collected[i].1 :: x
  }

  lemma BlocksForMore(collected: Collected, p: (Address, Bitmap), a: Address)
    ensures BlocksFor(collected + [p], a) == BlocksFor(collected, a) + if p.0 == a then p.1 else {}
  {
    var all := collected + [p];
    forall x ensures x in BlocksFor(all, a) <==> x in BlocksFor(collected, a) || (p.0 == a && x in p.1) {
      if x in BlocksFor(collected, a) {
        var i :| 0 <= i < |collected| && collected[i].0 == a && x in collected[i].1;
        assert all[i] == collected[i];
      }
      if p.0 == a && x in p.1 {
        assert all[|collected|] == p;
      }
    }
  }

  // Collecting

  type Pending = map<Address, Bitmap>

  function PendingFor(pending: Pending, a: Address): Bitmap {
    if a in pending then pending[a] else {}
  }

  /** The blocks with an entry for an address. */
  function Traced(entries: seq<Entry>, a: Address): Bitmap {
    set i | 0 <= i < |entries| && entries[i].address == a :: entries[i].block
  }

  function TracedUpTo(entries: seq<Entry>, maxBlock: nat, a: Address): Bitmap {
    set i | 0 <= i < |entries| && entries[i].address == a && entries[i].block <= maxBlock :: entries[i].block
  }

  lemma TracedMore(entries: seq<Entry>, e: Entry, a: Address)
    ensures Traced(entries + [e], a) == Traced(entries, a) + if e.address == a then {e.block} else {}
  {
    var all := entries + [e];
    forall x ensures x in Traced(all, a) <==> x in Traced(entries, a) || (e.address == a && x == e.block) {
      if x in Traced(entries, a) {
        var i :| 0 <= i < |entries| && entries[i].address == a && entries[i].block == x;
        assert all[i] == entries[i];
      }
      if e.address == a && x == e.block {
        assert all[|entries|] == e;
      }
    }
  }

  predicate FullPending(pending: Pending) {
    forall a :: a in pending ==> pending[a] != {}
  }

  predicate NoneEmpty(collected: Collected) {
    forall i :: 0 <= i < |collected| ==> collected[i].1 != {}
  }

  /** Pushes what is pending, in whatever order the hash map is drained. */
  method Flush(collected: Collected, pending: Pending) returns (collected': Collected)
    ensures forall a: Address :: BlocksFor(collected', a) == BlocksFor(collected, a) + PendingFor(pending, a)
    ensures NoneEmpty(collected) && FullPending(pending) ==> NoneEmpty(collected')
  {
    hide *;
    collected' := collected;
    var rest := pending.Keys;
    NothingFlushed(collected, pending);
    while rest != {}
      invariant rest <= pending.Keys && Flushed(collected', collected, pending, rest)
      invariant NoneEmpty(collected) && FullPending(pending) ==> NoneEmpty(collected')
      decreases |rest|
    {
      var a :| a in rest;
      FlushOne(collected', collected, pending, rest, a);
      StillFull(collected', pending, a);
      collected' := collected' + [(a, pending[a])];
      rest := rest - {a};
    }
    AllFlushed(collected', collected, pending);
  }

  lemma StillFull(collected: Collected, pending: Pending, a: Address)
    requires a in pending
    ensures NoneEmpty(collected) && FullPending(pending) ==> NoneEmpty(collected + [(a, pending[a])])
  {
  }

  lemma AllFlushed(collected': Collected, collected: Collected, pending: Pending)
    requires Flushed(collected', collected, pending, {})
    ensures forall a: Address :: BlocksFor(collected', a) == BlocksFor(collected, a) + PendingFor(pending, a)
  {
    hide BlocksFor, PendingFor;
  }

  /** All but the pending blocks of `rest` have been pushed. */
  ghost predicate Flushed(collected': Collected, collected: Collected, pending: Pending, rest: set<Address>) {
    forall a: Address :: BlocksFor(collected', a) == BlocksFor(collected, a) + if a in rest then {} else PendingFor(pending, a)
  }

  lemma NothingFlushed(collected: Collected, pending: Pending)
    ensures Flushed(collected, collected, pending, pending.Keys)
  {
    hide BlocksFor;
  }

  lemma FlushOne(collected': Collected, collected: Collected, pending: Pending, rest: set<Address>, a: Address)
    requires Flushed(collected', collected, pending, rest) && a in rest && a in pending
    ensures Flushed(collected' + [(a, pending[a])], collected, pending, rest - {a})
  {
    hide BlocksFor;
    forall b: Address ensures BlocksFor(collected' + [(a, pending[a])], b) ==
      BlocksFor(collected, b) + if b in rest - {a} then {} else PendingFor(pending, b)
    {
      BlocksForMore(collected', (a, pending[a]), b);
      assert BlocksFor(collected', b) == BlocksFor(collected, b) + if b in rest then {} else PendingFor(pending, b);
    }
  }

  /** What has been collected and what is pending make up what has been walked over. */
  ghost predicate Sum(collected: Collected, pending: Pending, entries: seq<Entry>) {
    forall a: Address :: BlocksFor(collected, a) + PendingFor(pending, a) == Traced(entries, a)
  }

  lemma SumMore(collected: Collected, pending: Pending, entries: seq<Entry>, e: Entry)
    requires Sum(collected, pending, entries)
    ensures Sum(collected, pending[e.address := PendingFor(pending, e.address) + {e.block}], entries + [e])
  {
    hide BlocksFor, Traced;
    var pending' := pending[e.address := PendingFor(pending, e.address) + {e.block}];
    forall a: Address ensures BlocksFor(collected, a) + PendingFor(pending', a) == Traced(entries + [e], a) {
      TracedMore(entries, e, a);
      assert BlocksFor(collected, a) + PendingFor(pending, a) == Traced(entries, a);
    }
  }

  lemma SumFlushed(collected: Collected, pending: Pending, collected': Collected, entries: seq<Entry>)
    requires Sum(collected, pending, entries)
    requires forall a: Address :: BlocksFor(collected', a) == BlocksFor(collected, a) + PendingFor(pending, a)
    ensures Sum(collected', map[], entries)
  {
    hide BlocksFor, Traced;
    forall a: Address ensures BlocksFor(collected', a) + PendingFor(map[], a) == Traced(entries, a) {
      assert BlocksFor(collected, a) + PendingFor(pending, a) == Traced(entries, a);
    }
  }

  /** Walks over the entries up to `maxBlock`; how often it flushes does not matter to what is collected. */
  method Collect(entries: seq<Entry>, startingBlock: nat, maxBlock: nat, flushInterval: nat) returns (collected: Collected)
    requires forall i, j :: 0 <= i < j < |entries| ==> entries[i].block <= entries[j].block
    requires forall i :: 0 <= i < |entries| ==> startingBlock < entries[i].block
    ensures forall a: Address :: BlocksFor(collected, a) == TracedUpTo(entries, maxBlock, a)
    ensures NoneEmpty(collected)
  {
    hide BlocksFor, Traced, TracedUpTo;
    collected := [];
    var pending: Pending := map[];
    var highest, lastFlush := startingBlock, startingBlock;
    var i := 0;
    NothingYet(entries);
    while i < |entries|
      invariant 0 <= i <= |entries| && Sum(collected, pending, entries[..i])
      invariant NoneEmpty(collected) && FullPending(pending)
      invariant forall j :: 0 <= j < i ==> entries[j].block <= maxBlock
      invariant lastFlush <= highest && forall j :: i <= j < |entries| ==> highest <= entries[j].block
    {
      var e := entries[i];
      if e.block > maxBlock {
        break;
      }
      SumMore(collected, pending, entries[..i], e);
      assert entries[..i + 1] == entries[..i] + [e];
      pending := pending[e.address := PendingFor(pending, e.address) + {e.block}];
      if highest != e.block {
        highest := e.block;
        if highest - lastFlush >= flushInterval {
          var collected' := Flush(collected, pending);
          SumFlushed(collected, pending, collected', entries[..i + 1]);
          collected, pending := collected', map[];
          lastFlush := highest;
        }
      }
      i := i + 1;
    }
    collected := Flush(collected, pending);
    forall a: Address ensures BlocksFor(collected, a) == TracedUpTo(entries, maxBlock, a) {
      CutAt(entries, i, maxBlock, a);
    }
  }

  lemma CutAt(entries: seq<Entry>, n: nat, maxBlock: nat, a: Address)
    requires n <= |entries| && forall i :: 0 <= i < |entries| ==> (entries[i].block <= maxBlock <==> i < n)
    ensures Traced(entries[..n], a) == TracedUpTo(entries, maxBlock, a)
  {
    forall x ensures x in Traced(entries[..n], a) <==> x in TracedUpTo(entries, maxBlock, a) {
      if x in Traced(entries[..n], a) {
        var i :| 0 <= i < n && entries[..n][i].address == a && entries[..n][i].block == x;
        assert entries[i].address == a && entries[i].block == x;
      }
      if x in TracedUpTo(entries, maxBlock, a) {
        var i :| 0 <= i < |entries| && entries[i].address == a && entries[i].block <= maxBlock && entries[i].block == x;
        assert entries[..n][i] == entries[i];
      }
    }
  }

  lemma NothingYet(entries: seq<Entry>)
    ensures Sum([], map[], entries[..0])
  {
  }

  // Loading

  ghost predicate IndexOk(index: Index) {
    forall a :: a in index ==> TableOk(index[a])
  }

  /** Adds what was collected, which comes sorted by address; parts for the same address are joined first. */
  method LoadCallTraces(index: Index, collected: Collected, sizes: Sizes) returns (index': Index)
    requires IndexOk(index) && forall i, j :: 0 <= i < j < |collected| ==> collected[i].0 <= collected[j].0
    requires forall i :: 0 <= i < |collected| ==> Before(All(ChunksOf(index, collected[i].0)), collected[i].1)
    requires forall i, x :: 0 <= i < |collected| && x in collected[i].1 ==> x < U64_MAX
    requires forall x: nat :: sizes.size({x}) <= sizes.limit
    ensures IndexOk(index') && forall a: Address :: All(ChunksOf(index', a)) == All(ChunksOf(index, a)) + BlocksFor(collected, a)
  {
    hide All, TableOk, BlocksFor;
    index' := index;
    var i := 0;
    NothingFor(collected);
    while i < |collected|
      invariant 0 <= i <= |collected| && IndexOk(index')
      invariant forall j :: 0 <= j < i && i < |collected| ==> collected[j].0 < collected[i].0
      invariant forall a: Address :: All(ChunksOf(index', a)) == All(ChunksOf(index, a)) + BlocksFor(collected[..i], a)
      invariant forall j :: i <= j < |collected| ==> ChunksOf(index', collected[j].0) == ChunksOf(index, collected[j].0)
    {
      var a, start := collected[i].0, i;
      var total: Bitmap := {};
      NotYet(collected, i, a);
      assert total == BlocksFor(collected[..i], a);
      while i < |collected| && collected[i].0 == a
        invariant start <= i <= |collected| && total == BlocksFor(collected[..i], a)
        invariant forall j :: start <= j < i ==> collected[j].0 == a
        invariant Before(All(ChunksOf(index, a)), total) && forall x :: x in total ==> x < U64_MAX
        invariant forall b: Address :: b != a ==> BlocksFor(collected[..i], b) == BlocksFor(collected[..start], b)
      {
        forall b: Address ensures BlocksFor(collected[..i + 1], b) == BlocksFor(collected[..i], b) + if b == a then collected[i].1 else {} {
          assert collected[..i + 1] == collected[..i] + [collected[i]];
          BlocksForMore(collected[..i], collected[i], b);
        }
        total := total + collected[i].1;
        i := i + 1;
      }
      var chunks := ChunksOf(index', a);
      EmptyOk(index', a);
      chunks := AddBlocks(chunks, total, sizes);
      index' := index'[a := chunks];
    }
    assert collected[..i] == collected;
  }

  lemma EmptyOk(index: Index, a: Address)
    requires IndexOk(index)
    ensures TableOk(ChunksOf(index, a))
  {
  }

  lemma NothingFor(collected: Collected)
    ensures forall a: Address :: BlocksFor(collected[..0], a) == {}
  {
  }

  lemma NotYet(collected: Collected, i: nat, a: Address)
    requires i <= |collected| && forall j :: 0 <= j < i ==> collected[j].0 < a
    ensures BlocksFor(collected[..i], a) == {}
  {
  }
}
