/** External merge sort: entries are buffered, flushed to files as sorted runs, and merged through a heap. */
module Collector {
  import opened Basics
  import opened Bytes
  import opened StateTypes
  import opened FixedWidth
  import opened DataProvider
  import opened Sorting

  function Size(e: Entry): nat {
    |e.key| + |e.value|
  }

  function TotalSize(s: seq<Entry>): nat {
    if s == [] then 0 else TotalSize(s[..|s| - 1]) + Size(s[|s| - 1])
  }

  lemma TotalSizeMore(s: seq<Entry>, e: Entry)
    ensures TotalSize(s + [e]) == TotalSize(s) + Size(e)
  {
    assert (s + [e])[..|s|] == s;
  }

  type Runs = seq<seq<Entry>>

  function Union(runs: Runs): multiset<Entry> {
    if runs == [] then multiset{} else Union(runs[..|runs| - 1]) + multiset(runs[|runs| - 1])
  }

  lemma UnionMore(runs: Runs, run: seq<Entry>)
    ensures Union(runs + [run]) == Union(runs) + multiset(run)
  {
    assert (runs + [run])[..|runs|] == runs;
  }

  lemma AddBoth<T>(a: multiset<T>, b: multiset<T>, c: multiset<T>, d: multiset<T>, x: multiset<T>)
    requires a + b == c + d
    ensures a + x + b == c + x + d
  {
    assert a + x + b == a + b + x && c + x + d == c + d + x;
  }

  lemma {:induction false} UnionOne(runs: Runs, i: nat, run: seq<Entry>)
    requires i < |runs|
    ensures Union(runs[i := run]) + multiset(runs[i]) == Union(runs) + multiset(run)
  {
    var n, runs' := |runs| - 1, runs[i := run];
    assert Union(runs') == Union(runs'[..n]) + multiset(runs'[n]) && Union(runs) == Union(runs[..n]) + multiset(runs[n]);
    if i < n {
      UnionOne(runs[..n], i, run);
      assert runs'[..n] == runs[..n][i := run] && runs[..n][i] == runs[i] && runs'[n] == runs[n];
      AddBoth(Union(runs'[..n]), multiset(runs[i]), Union(runs[..n]), multiset(run), multiset(runs[n]));
    } else {
      assert runs'[..n] == runs[..n];
    }
  }

  lemma {:induction false} InUnion(runs: Runs, x: Entry)
    requires x in Union(runs)
    ensures exists i :: 0 <= i < |runs| && x in runs[i]
  {
    if runs != [] {
      var n := |runs| - 1;
      if x in multiset(runs[n]) {
        assert x in runs[n];
      } else {
        InUnion(runs[..n], x);
        var i :| 0 <= i < n && x in runs[..n][i];
        assert x in runs[i];
      }
    }
  }

  // Merging

  function Tail(s: seq<Entry>): seq<Entry> {
    if s == [] then [] else s[1..]
  }

  type Heap = map<nat, Entry>

  /** The heap holds the first entry of every run that has one. */
  ghost predicate Heads(heap: Heap, runs: Runs) {
    && (forall i :: i in heap ==> i < |runs|)
    && (forall i :: 0 <= i < |runs| ==> (i in heap <==> runs[i] != []) && (i in heap ==> heap[i] == runs[i][0]))
  }

  ghost predicate AllSorted(runs: Runs) {
    forall i :: 0 <= i < |runs| ==> Sorted(runs[i])
  }

  /** Takes an entry that no other one is below. */
  method Pop(heap: Heap) returns (id: nat)
    requires heap != map[]
    ensures id in heap && forall j :: j in heap ==> Le(heap[id], heap[j])
  {
    hide Le;
    var rest := heap.Keys;
    id :| id in rest;
    rest := rest - {id};
    Total(heap[id], heap[id]);
    while rest != {}
      invariant rest <= heap.Keys && id in heap
      invariant forall j :: j in heap && j !in rest ==> Le(heap[id], heap[j])
      decreases |rest|
    {
      var i :| i in rest;
      Total(heap[i], heap[id]);
      Total(heap[i], heap[i]);
      if Le(heap[i], heap[id]) {
        forall j | j in heap && j !in rest ensures Le(heap[i], heap[j]) {
          Transitive(heap[i], heap[id], heap[j]);
        }
        id := i;
      }
      rest := rest - {i};
    }
  }

  lemma HeadLeast(heap: Heap, runs: Runs, id: nat)
    requires Heads(heap, runs) && AllSorted(runs) && id in heap && forall j :: j in heap ==> Le(heap[id], heap[j])
    ensures LeAll(heap[id], Union(runs))
  {
    hide Le;
    forall x | x in Union(runs) ensures Le(heap[id], x) {
      InUnion(runs, x);
      var i :| 0 <= i < |runs| && x in runs[i];
      SortedHead(runs[i]);
      assert x in multiset(runs[i]) && Le(heap[i], x);
      Transitive(heap[id], heap[i], x);
    }
  }

  /** What has been taken is sorted and below what is left, and nothing is lost. */
  ghost predicate Merging(out: seq<Entry>, left: Runs, runs: Runs) {
    && Sorted(out) && AllSorted(left) && |left| == |runs|
    && multiset(out) + Union(left) == Union(runs)
    && forall x :: x in out ==> LeAll(x, Union(left))
  }

  lemma TakeHead(out: seq<Entry>, left: Runs, runs: Runs, heap: Heap, id: nat)
    requires Merging(out, left, runs) && Heads(heap, left) && id in heap && forall j :: j in heap ==> Le(heap[id], heap[j])
    ensures Merging(out + [heap[id]], left[id := left[id][1..]], runs)
    ensures |Union(left[id := left[id][1..]])| < |Union(left)|
  {
    hide *;
    MergingParts(out, left, runs);
    IdInRange(heap, left, id);
    var e, left' := heap[id], left[id := left[id][1..]];
    HeadLeast(heap, left, id);
    OneLess(left, id);
    SortedMore(out, e, Union(left));
    assert multiset(out + [e]) == multiset(out) + multiset{e};
    StillSorted(left, id);
    StillBelow(out, e, Union(left), Union(left'));
    MergingIs(out + [e], left', runs);
  }

  lemma MergingParts(out: seq<Entry>, left: Runs, runs: Runs)
    requires Merging(out, left, runs)
    ensures Sorted(out) && AllSorted(left) && |left| == |runs| && multiset(out) + Union(left) == Union(runs)
    ensures forall x :: x in out ==> LeAll(x, Union(left))
  {
  }

  lemma MergingIs(out: seq<Entry>, left: Runs, runs: Runs)
    requires Sorted(out) && AllSorted(left) && |left| == |runs| && multiset(out) + Union(left) == Union(runs)
    requires forall x :: x in out ==> LeAll(x, Union(left))
    ensures Merging(out, left, runs)
  {
  }

  lemma OneLess(left: Runs, id: nat)
    requires id < |left| && left[id] != []
    ensures Union(left) == Union(left[id := left[id][1..]]) + multiset{left[id][0]}
  {
    hide Union;
    var rest := left[id][1..];
    UnionOne(left, id, rest);
    assert left[id] == [left[id][0]] + rest;
    Cancel(Union(left), Union(left[id := rest]), multiset{left[id][0]}, multiset(rest));
  }

  lemma Cancel<T>(a: multiset<T>, b: multiset<T>, x: multiset<T>, r: multiset<T>)
    requires b + (x + r) == a + r
    ensures a == b + x
  {
    forall e ensures a[e] == (b + x)[e] {
      assert (b + (x + r))[e] == (a + r)[e];
    }
  }

  lemma StillSorted(left: Runs, id: nat)
    requires AllSorted(left) && id < |left| && left[id] != []
    ensures AllSorted(left[id := left[id][1..]])
  {
    assert Sorted(left[id]);
    SortedHead(left[id]);
    hide Sorted;
    var left' := left[id := left[id][1..]];
    forall i | 0 <= i < |left'| ensures Sorted(left'[i]) {
      assert i != id ==> left'[i] == left[i] && Sorted(left[i]);
    }
  }

  lemma StillBelow(out: seq<Entry>, e: Entry, left: multiset<Entry>, left': multiset<Entry>)
    requires left == left' + multiset{e} && LeAll(e, left) && forall x :: x in out ==> LeAll(x, left)
    ensures forall x :: x in out + [e] ==> LeAll(x, left')
  {
    hide Le;
  }

  lemma SortedMore(out: seq<Entry>, e: Entry, left: multiset<Entry>)
    requires Sorted(out) && e in left && forall x :: x in out ==> LeAll(x, left)
    ensures Sorted(out + [e])
  {
    hide Le;
    var all := out + [e];
    forall i, j | 0 <= i < j < |all| ensures Le(all[i], all[j]) {
      assert i < |out| && out[i] in out;
    }
  }

  lemma NothingLeft(left: Runs)
    requires forall i :: 0 <= i < |left| ==> left[i] == []
    ensures Union(left) == multiset{}
  {
    if Union(left) != multiset{} {
      var x :| x in Union(left);
      InUnion(left, x);
    }
  }

  ghost predicate Distinct(providers: seq<DataProvider>) {
    forall i, j :: 0 <= i < j < |providers| ==> providers[i] != providers[j]
  }

  method Merge(providers: seq<DataProvider>, ghost runs: Runs) returns (out: seq<Entry>)
    requires |runs| == |providers| && Distinct(providers) && AllSorted(runs)
    requires forall i :: 0 <= i < |runs| ==> providers[i].Holds(runs[i])
    modifies providers
    ensures Sorted(out) && multiset(out) == Union(runs)
  {
    hide Le, Sorted, Union, Heads, Merging;
    var heap := Anchor(providers, runs);
    out := [];
    ghost var left := runs;
    NothingTaken(runs);
    while heap != map[]
      invariant Merging(out, left, runs) && Heads(heap, left) && Reading(providers, left)
      decreases |Union(left)|
    {
      var id := Pop(heap);
      IdInRange(heap, left, id);
      TakeHead(out, left, runs, heap, id);
      out := out + [heap[id]];
      heap, left := Advance(providers, heap, left, id);
    }
    Emptied(out, left, runs);
  }

  /** Every file is read behind the first entry of its run. */
  ghost predicate Reading(providers: seq<DataProvider>, left: Runs)
    reads providers
  {
    |left| == |providers| && forall j :: 0 <= j < |left| ==> providers[j].Holds(Tail(left[j]))
  }

  lemma IdInRange(heap: Heap, left: Runs, id: nat)
    requires Heads(heap, left) && id in heap
    ensures id < |left| && left[id] != [] && heap[id] == left[id][0]
  {
  }

  lemma Emptied(out: seq<Entry>, left: Runs, runs: Runs)
    requires Merging(out, left, runs) && Heads(map[], left)
    ensures Sorted(out) && multiset(out) == Union(runs)
  {
    NothingLeft(left);
  }

  /** Reads the first entry of every run. */
  method Anchor(providers: seq<DataProvider>, ghost runs: Runs) returns (heap: Heap)
    requires |runs| == |providers| && Distinct(providers)
    requires forall i :: 0 <= i < |runs| ==> providers[i].Holds(runs[i])
    modifies providers
    ensures Heads(heap, runs) && Reading(providers, runs)
  {
    hide DataProvider.Holds;
    heap := map[];
    for i := 0 to |providers|
      invariant forall j :: j in heap ==> j < i
      invariant forall j :: 0 <= j < i ==> (j in heap <==> runs[j] != []) && (j in heap ==> heap[j] == runs[j][0])
      invariant forall j :: 0 <= j < i ==> providers[j].Holds(Tail(runs[j]))
      invariant forall j :: i <= j < |runs| ==> providers[j].Holds(runs[j])
    {
      var next := providers[i].ToNext(runs[i]);
      if next.Some? {
        heap := heap[i := next.value];
      }
    }
  }

  /** Puts the next entry of the run in the place of the one taken. */
  method Advance(providers: seq<DataProvider>, heap: Heap, ghost left: Runs, id: nat) returns (heap': Heap, ghost left': Runs)
    requires Distinct(providers) && Heads(heap, left) && Reading(providers, left) && id in heap
    modifies providers
    ensures left' == left[id := left[id][1..]] && Heads(heap', left') && Reading(providers, left')
  {
    left' := left[id := left[id][1..]];
    var next := providers[id].ToNext(left'[id]);
    heap' := if next.Some? then heap[id := next.value] else heap - {id};
  }

  lemma NothingTaken(runs: Runs)
    requires AllSorted(runs)
    ensures Merging([], runs, runs)
  {
  }

  class Collector {
    var bufferSize: nat
    var dataProviders: seq<DataProvider>
    const bufferCapacity: nat
    var buffer: seq<Entry>
    /** What the files hold. */
    ghost var runs: Runs

    ghost predicate Valid()
      reads this, dataProviders
    {
      && |runs| == |dataProviders| && Distinct(dataProviders) && AllSorted(runs)
      && (forall i :: 0 <= i < |runs| ==> dataProviders[i].Holds(runs[i]))
      && bufferSize == TotalSize(buffer) && AllFit(buffer)
    }

    /** Everything pushed so far. */
    ghost function Contents(): multiset<Entry>
      reads this
    {
      Union(runs) + multiset(buffer)
    }

    constructor (bufferCapacity: nat)
      ensures Valid() && Contents() == multiset{} && this.bufferCapacity == bufferCapacity && dataProviders == [] && buffer == [] && bufferSize == 0
    {
      bufferSize, dataProviders, buffer, runs := 0, [], [], [];
      this.bufferCapacity := bufferCapacity;
    }

    method Flush()
      requires Valid()
      modifies this
      ensures Valid() && Contents() == old(Contents()) && buffer == [] && bufferSize == 0 && dataProviders != []
      ensures runs == old(runs) + [Sort(old(buffer))]
      ensures forall p :: p in dataProviders ==> p in old(dataProviders) || fresh(p)
    {
      hide Le, Union, Sort, Sorted;
      SortSorts(buffer);
      FitSorted(buffer);
      UnionMore(runs, Sort(buffer));
      bufferSize := 0;
      var buf := Sort(buffer);
      buffer := [];
      var provider := new DataProvider(buf);
      dataProviders := dataProviders + [provider];
      runs := runs + [buf];
    }

    method Push(e: Entry)
      requires Valid() && Fits(e)
      modifies this
      ensures Valid() && Contents() == old(Contents()) + multiset{e}
      ensures buffer == [] || buffer == old(buffer) + [e]
      ensures var full := old(bufferSize) + Size(e) > bufferCapacity;
        && bufferSize == (if full then 0 else old(bufferSize) + Size(e))
        && buffer == (if full then [] else old(buffer) + [e])
        && (dataProviders != [] <==> full || old(dataProviders) != [])
      ensures forall p :: p in dataProviders ==> p in old(dataProviders) || fresh(p)
    {
      hide Le, Union, Sort, Sorted, Size, TotalSize, AllSorted, Fits;
      TotalSizeMore(buffer, e);
      bufferSize := bufferSize + Size(e);
      buffer := buffer + [e];
      assert multiset(buffer) == multiset(old(buffer)) + multiset{e};
      if bufferSize > bufferCapacity {
        Flush();
      }
    }

    /**
     All that was pushed, in order; unless a run was flushed and what is left in the buffer is made of
     entries without any byte, which is then not looked at.
     */
    method Iter() returns (out: seq<Entry>)
      requires Valid()
      modifies this, dataProviders
      ensures Sorted(out)
      ensures multiset(out) == old(Contents()) <==> old(dataProviders == [] || bufferSize > 0 || buffer == [])
      ensures old(dataProviders != [] && bufferSize == 0) ==> multiset(out) == old(Union(runs))
    {
      hide Le, Union, Sort, Sorted;
      if dataProviders == [] {
        NoRuns(runs);
        SortSorts(buffer);
        out := Sort(buffer);
        buffer := [];
        return;
      }
      Lost(runs, buffer);
      if bufferSize != 0 {
        Flush();
      }
      forall i | 0 <= i < |dataProviders| ensures dataProviders[i] in old(dataProviders) || fresh(dataProviders[i]) {
        assert dataProviders[i] in dataProviders;
      }
      out := Merge(dataProviders, runs);
    }
  }

  lemma FitSorted(buffer: seq<Entry>)
    requires AllFit(buffer)
    ensures AllFit(Sort(buffer))
  {
    forall i | 0 <= i < |Sort(buffer)| ensures Fits(Sort(buffer)[i]) {
      assert Sort(buffer)[i] in multiset(buffer);
    }
  }

  lemma NoRuns(runs: Runs)
    ensures runs == [] ==> Union(runs) == multiset{}
  {
  }

  lemma Lost(runs: Runs, buffer: seq<Entry>)
    ensures Union(runs) + multiset(buffer) == Union(runs) <==> buffer == []
    ensures TotalSize(buffer) > 0 ==> buffer != []
  {
    if buffer != [] {
      assert buffer[0] in multiset(buffer);
      assert (Union(runs) + multiset(buffer))[buffer[0]] > Union(runs)[buffer[0]];
    }
  }

  /** Pushes all entries, then reads them back. */
  method SortAll(entries: seq<Entry>, bufferCapacity: nat) returns (out: seq<Entry>)
    requires AllFit(entries) && forall i :: 0 <= i < |entries| ==> Size(entries[i]) > 0
    ensures out == Sort(entries)
  {
    hide Le, Union, Sort, Sorted, Size, TotalSize;
    var collector := new Collector(bufferCapacity);
    PushAll(collector, entries);
    Counted(collector.buffer);
    forall i | 0 <= i < |collector.dataProviders| ensures fresh(collector.dataProviders[i]) {
      assert collector.dataProviders[i] in collector.dataProviders;
    }
    out := collector.Iter();
    SortSorts(entries);
    OneSorted(out, Sort(entries));
  }

  method PushAll(collector: Collector, entries: seq<Entry>)
    requires collector.Valid() && collector.Contents() == multiset{} && collector.buffer == []
    requires AllFit(entries) && forall i :: 0 <= i < |entries| ==> Size(entries[i]) > 0
    modifies collector
    ensures collector.Valid() && collector.Contents() == multiset(entries)
    ensures forall p :: p in collector.dataProviders ==> p in old(collector.dataProviders) || fresh(p)
    ensures forall j :: 0 <= j < |collector.buffer| ==> Size(collector.buffer[j]) > 0
  {
    hide Le, Union, Sort, Sorted, Size, TotalSize;
    assert entries[..0] == [];
    for i := 0 to |entries|
      invariant collector.Valid() && forall p :: p in collector.dataProviders ==> p in old(collector.dataProviders) || fresh(p)
      invariant collector.Contents() == multiset(entries[..i])
      invariant forall j :: 0 <= j < |collector.buffer| ==> Size(collector.buffer[j]) > 0
    {
      assert entries[..i + 1] == entries[..i] + [entries[i]];
      collector.Push(entries[i]);
    }
    assert entries[..|entries|] == entries;
  }

  /** Without room in the buffer the first entry is flushed at once; the second has no byte, waits, and is never looked at. */
  method LostEntry() returns (out: seq<Entry>)
    ensures out == [Entry([1], [])]
  {
    var first, second := Entry([1], []), Entry([], []);
    hide Le, Union, Sort, Sorted;
    var collector := new Collector(0);
    collector.Push(first);
    forall i | 0 <= i < |collector.dataProviders| ensures fresh(collector.dataProviders[i]) {
      assert collector.dataProviders[i] in collector.dataProviders;
    }
    collector.Push(second);
    forall i | 0 <= i < |collector.dataProviders| ensures fresh(collector.dataProviders[i]) {
      assert collector.dataProviders[i] in collector.dataProviders;
    }
    Cancel(Union(collector.runs), multiset{first}, multiset{}, multiset{second});
    out := collector.Iter();
    OnlyOne(out, first);
  }

  lemma OnlyOne(s: seq<Entry>, e: Entry)
    requires multiset(s) == multiset{e}
    ensures s == [e]
  {
    assert |s| == |multiset(s)| == 1;
    assert s[0] in multiset(s);
  }

  lemma Counted(buffer: seq<Entry>)
    requires forall j :: 0 <= j < |buffer| ==> Size(buffer[j]) > 0
    ensures buffer != [] ==> TotalSize(buffer) > 0
  {
  }
}
