/** A file of sorted entries, each framed by the lengths of its key and value, read from front to back. */
module DataProvider {
  import opened Basics
  import opened Bytes
  import opened FixedWidth
  import opened StateTypes

  datatype Entry = Entry(key: Bytes, value: Bytes)

  /** Lengths fit their eight bytes. */
  predicate Fits(e: Entry) {
    |e.key| < U64_RANGE && |e.value| < U64_RANGE
  }

  predicate AllFit(entries: seq<Entry>) {
    forall i :: 0 <= i < |entries| ==> Fits(entries[i])
  }

  function Frame(e: Entry): Bytes {
    FixedBytes(|e.key|, 8) + FixedBytes(|e.value|, 8) + e.key + e.value
  }

  function Frames(entries: seq<Entry>): Bytes {
    if entries == [] then [] else Frame(entries[0]) + Frames(entries[1..])
  }

  lemma {:induction false} FramesMore(entries: seq<Entry>, e: Entry)
    ensures Frames(entries + [e]) == Frames(entries) + Frame(e)
    decreases |entries|
  {
    hide Frame;
    if entries == [] {
      assert [e][1..] == [];
    } else {
      FramesMore(entries[1..], e);
      assert (entries + [e])[1..] == entries[1..] + [e];
      assert Frame(entries[0]) + (Frames(entries[1..]) + Frame(e)) == Frame(entries[0]) + Frames(entries[1..]) + Frame(e);
    }
  }

  /** Where the parts of the first entry lie. */
  lemma FrameParts(file: Bytes, pos: nat, entries: seq<Entry>)
    requires pos <= |file| && file[pos..] == Frames(entries) && entries != [] && AllFit(entries)
    ensures var k, v := |entries[0].key|, |entries[0].value|;
      && pos + 16 + k + v <= |file|
      && BigEndian(file[pos..pos + 8]) == k && BigEndian(file[pos + 8..pos + 16]) == v
      && file[pos + 16..pos + 16 + k] == entries[0].key && file[pos + 16 + k..pos + 16 + k + v] == entries[0].value
      && file[pos + 16 + k + v..] == Frames(entries[1..])
  {
    var e := entries[0];
    assert Fits(e);
    Powers();
    FixedValue(|e.key|, 8);
    FixedValue(|e.value|, 8);
    hide BigEndian, FixedBytes, Pow256;
    var a, b, rest := FixedBytes(|e.key|, 8), FixedBytes(|e.value|, 8), Frames(entries[1..]);
    var all := file[pos..];
    assert all == a + b + e.key + e.value + rest;
    Split(file, pos, a, b, e.key, e.value, rest);
  }

  lemma Split(file: Bytes, pos: nat, a: Bytes, b: Bytes, key: Bytes, value: Bytes, rest: Bytes)
    requires pos <= |file| && |a| == |b| == 8 && file[pos..] == a + b + key + value + rest
    ensures pos + 16 + |key| + |value| <= |file|
    ensures file[pos..pos + 8] == a && file[pos + 8..pos + 16] == b
    ensures file[pos + 16..pos + 16 + |key|] == key && file[pos + 16 + |key|..pos + 16 + |key| + |value|] == value
    ensures file[pos + 16 + |key| + |value|..] == rest
  {
    var all := a + b + key + value + rest;
    assert |file| == pos + |all|;
    assert forall i :: 0 <= i < |all| ==> file[pos + i] == all[i];
  }

  class DataProvider {
    const file: Bytes
    var pos: nat
    var len: nat

    /** What is left to be read. */
    ghost predicate Holds(rest: seq<Entry>)
      reads this
    {
      AllFit(rest) && pos <= |file| && file[pos..] == Frames(rest) && len == |rest|
    }

    constructor (buffer: seq<Entry>)
      requires AllFit(buffer)
      ensures Holds(buffer)
    {
      var w := [];
      for i := 0 to |buffer|
        invariant w == Frames(buffer[..i])
      {
        var k, v := buffer[i].key, buffer[i].value;
        FramesMore(buffer[..i], buffer[i]);
        assert buffer[..i + 1] == buffer[..i] + [buffer[i]];
        w := w + (FixedBytes(|k|, 8) + FixedBytes(|v|, 8) + k + v);
      }
      assert buffer[..|buffer|] == buffer;
      file, pos, len := w, 0, |buffer|;
    }

    method ToNext(ghost rest: seq<Entry>) returns (next: Option<Entry>)
      requires Holds(rest)
      modifies this
      ensures rest == [] ==> next == None && Holds([])
      ensures rest != [] ==> next == Some(rest[0]) && Holds(rest[1..])
    {
      if len == 0 {
        return None;
      }
      FrameParts(file, pos, rest);
      hide Frames, BigEndian;
      var keyLength, valueLength := BigEndian(file[pos..pos + 8]), BigEndian(file[pos + 8..pos + 16]);
      pos := pos + 16;
      var key := file[pos..pos + keyLength];
      pos := pos + keyLength;
      var value := file[pos..pos + valueLength];
      pos := pos + valueLength;
      len := len - 1;
      return Some(Entry(key, value));
    }
  }
}
