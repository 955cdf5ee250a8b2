/**
 Recursive Length Prefix encoding (Appendix B of the Ethereum Yellow Paper) of byte strings and of
 lists whose items are already encoded.
 */
module Rlp {
  import opened Basics
  import opened Bytes
  import opened FixedWidth

  /** Code of the empty string, also the prefix of a short string of length 0. */
  const EMPTY_STRING_CODE: Byte := 0x80

  /** Length prefix. A payload of 2^64 bytes or more has no encoding; the reduction only keeps this total. */
  function Header(offset: Byte, length: nat): Bytes
    requires offset + 55 < 256
  {
    if length < 56 then
      [offset + length]
    else
      var size := Compact(length);
      [(offset + 55 + |size|) % 256] + size
  }

  function EncodeString(s: Bytes): Bytes {
    if |s| == 1 && s[0] < EMPTY_STRING_CODE then s else Header(EMPTY_STRING_CODE, |s|) + s
  }

  function EncodeList(payload: Bytes): Bytes {
    Header(0xc0, |payload|) + payload
  }

  // Reading

  datatype Item = Item(isList: bool, payload: Bytes, rest: Bytes)

  /** The first item of some bytes, and what comes after it; `None` when the bytes end too soon or a length is not the shortest. */
  function Read(b: Bytes): Option<Item> {
    if b == [] then None
    else if b[0] < 128 then Some(Item(false, b[..1], b[1..]))
    else if b[0] < 184 then Cut(false, b[1..], b[0] - 128)
    else if b[0] < 192 then ReadLong(false, b[1..], b[0] - 183)
    else if b[0] < 248 then Cut(true, b[1..], b[0] - 192)
    else ReadLong(true, b[1..], b[0] - 247)
  }

  function Cut(isList: bool, b: Bytes, length: nat): Option<Item> {
    if |b| < length then None else Some(Item(isList, b[..length], b[length..]))
  }

  function ReadLong(isList: bool, b: Bytes, size: nat): Option<Item> {
    if |b| < size then None
    else if size == 0 || b[0] == 0 || BigEndian(b[..size]) < 56 then None
    else Cut(isList, b[size..], BigEndian(b[..size]))
  }

  lemma {:induction false} CompactValue(n: nat, length: nat)
    requires n < Pow256(length)
    ensures |Compact(n)| <= length && BigEndian(Compact(n)) == n
    decreases length
  {
    if n > 0 {
      CompactValue(n / 256, length - 1);
      assert Compact(n)[..|Compact(n)| - 1] == Compact(n / 256);
    }
  }

  lemma CutWhole(isList: bool, payload: Bytes, rest: Bytes)
    ensures Cut(isList, payload + rest, |payload|) == Some(Item(isList, payload, rest))
  {
    assert (payload + rest)[..|payload|] == payload && (payload + rest)[|payload|..] == rest;
  }

  lemma LongHeader(offset: Byte, payload: Bytes, rest: Bytes)
    requires (offset == 128 || offset == 192) && 56 <= |payload| < Pow256(8)
    ensures var b := Header(offset, |payload|) + payload + rest;
      && b[0] == offset + 55 + |Compact(|payload|)| && 1 <= |Compact(|payload|)| <= 8
      && ReadLong(offset == 192, b[1..], |Compact(|payload|)|) == Some(Item(offset == 192, payload, rest))
  {
    CompactValue(|payload|, 8);
    var size, b := Compact(|payload|), Header(offset, |payload|) + payload + rest;
    assert b[1..] == size + (payload + rest);
    assert b[1..][..|size|] == size && b[1..][|size|..] == payload + rest;
    CutWhole(offset == 192, payload, rest);
  }

  lemma ShortHeader(offset: Byte, payload: Bytes, rest: Bytes)
    requires (offset == 128 || offset == 192) && |payload| < 56
    ensures var b := Header(offset, |payload|) + payload + rest;
      b[0] == offset + |payload| && Cut(offset == 192, b[1..], |payload|) == Some(Item(offset == 192, payload, rest))
  {
    var b := Header(offset, |payload|) + payload + rest;
    assert b[1..] == payload + rest;
    CutWhole(offset == 192, payload, rest);
  }

  /** A string is read back from the front of whatever it was put before. */
  lemma ReadString(s: Bytes, rest: Bytes)
    requires |s| < Pow256(8)
    ensures Read(EncodeString(s) + rest) == Some(Item(false, s, rest))
  {
    if |s| == 1 && s[0] < EMPTY_STRING_CODE {
      assert (s + rest)[..1] == s && (s + rest)[1..] == rest;
    } else if |s| < 56 {
      ShortHeader(EMPTY_STRING_CODE, s, rest);
      hide Cut, ReadLong, Header;
    } else {
      LongHeader(EMPTY_STRING_CODE, s, rest);
      hide Cut, ReadLong, Header, Compact;
    }
  }

  /** And so is a list. */
  lemma ReadList(payload: Bytes, rest: Bytes)
    requires |payload| < Pow256(8)
    ensures Read(EncodeList(payload) + rest) == Some(Item(true, payload, rest))
  {
    if |payload| < 56 {
      ShortHeader(0xc0, payload, rest);
      hide Cut, ReadLong, Header;
    } else {
      LongHeader(0xc0, payload, rest);
      hide Cut, ReadLong, Header, Compact;
    }
  }
}
