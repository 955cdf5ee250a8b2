/** Hex-prefix encoding of nibble paths, Appendix C of the Ethereum Yellow Paper. */
module HexPrefix {
  import opened Bytes
  import opened Nibbles

  function Pairs(x: Path): (b: Bytes)
    requires |x| % 2 == 0
    ensures |b| == |x| / 2
  {
    if x == [] then [] else [Pack(x[0], x[1])] + Pairs(x[2..])
  }

  function Flag(terminating: bool): Nibble {
    if terminating then 2 else 0
  }

  function Encode(x: Path, terminating: bool): (b: Bytes)
    ensures |b| == |x| / 2 + 1
  {
    if |x| % 2 == 0 then
      [Pack(Flag(terminating), 0)] + Pairs(x)
    else
      [Pack(Flag(terminating) + 1, x[0])] + Pairs(x[1..])
  }

  lemma PairsStep(x: Path, i: nat, pairs: nat)
    requires |x| - i == 2 * pairs && pairs > 0
    ensures (|x| - i) % 2 == 0
    ensures Pairs(x[i..]) == [Pack(x[i], x[i + 1])] + Pairs(x[i + 2..])
  {
    assert x[i..][2..] == x[i + 2..];
  }

  /** Fills a buffer of `|nibbles| / 2 + 1` bytes, two nibbles at a time. */
  method EncodePath(nibbles: Path, terminating: bool) returns (res: Bytes)
    ensures res == Encode(nibbles, terminating)
  {
    hide *;
    var odd := |nibbles| % 2 != 0;
    var size := |nibbles| / 2 + 1;
    var i := 0;
    var first: Byte := if terminating then 0x20 else 0x00;
    first := first + if odd then 0x10 else 0x00;
    if odd {
      first := first + nibbles[0];
      i := 1;
    }
    res := [first];
    EncodeIs(nibbles, terminating, first, i);
    for j := 1 to size
      invariant |nibbles| - i == 2 * (size - j)
      invariant res + Pairs(nibbles[i..]) == Encode(nibbles, terminating)
    {
      PairsStep(nibbles, i, size - j);
      res := res + [Pack(nibbles[i], nibbles[i + 1])];
      i := i + 2;
    }
    PairsEnd();
  }

  lemma PairsEnd()
    ensures Pairs([]) == []
  {
  }

  lemma EncodeIs(x: Path, terminating: bool, first: Byte, start: nat)
    requires start == |x| % 2
    requires first == if start == 0 then (if terminating then 0x20 else 0x00) else (if terminating then 0x20 else 0x00) + (0x10 as int) + x[0]
    ensures (|x| - start) % 2 == 0 && [first] + Pairs(x[start..]) == Encode(x, terminating)
  {
    assert start == 0 ==> x[start..] == x;
  }

  function Unpairs(b: Bytes): (x: Path)
    ensures |x| == 2 * |b|
  {
    if b == [] then [] else [b[0] / 16, b[0] % 16] + Unpairs(b[1..])
  }

  /** Reads a path and its terminator flag back. */
  function Decode(b: Bytes): (r: (Path, bool))
    requires b != []
  {
    var flag, low: Nibble := b[0] / 16, b[0] % 16;
    ((if flag % 2 == 1 then [low] else []) + Unpairs(b[1..]), flag >= 2)
  }

  lemma Unpack(high: Nibble, low: Nibble)
    ensures Pack(high, low) / 16 == high && Pack(high, low) % 16 == low
  {
  }

  lemma UnpairsStep(b: Byte, rest: Bytes)
    ensures Unpairs([b] + rest) == [b / 16, b % 16] + Unpairs(rest)
  {
    assert ([b] + rest)[1..] == rest;
  }

  lemma {:induction false} UnpairsPairs(x: Path)
    requires |x| % 2 == 0
    ensures Unpairs(Pairs(x)) == x
  {
    if x != [] {
      UnpairsPairs(x[2..]);
      Unpack(x[0], x[1]);
      UnpairsStep(Pack(x[0], x[1]), Pairs(x[2..]));
      assert x == [x[0], x[1]] + x[2..];
    }
  }

  lemma DecodeIs(first: Byte, rest: Bytes)
    ensures Decode([first] + rest) ==
      (if first / 16 % 2 == 1 then [first % 16] + Unpairs(rest) else Unpairs(rest), first / 16 >= 2)
  {
    assert ([first] + rest)[1..] == rest;
    var none: Path := [];
    assert none + Unpairs(rest) == Unpairs(rest);
  }

  /** The code is unambiguous: leaf and extension paths of any length are told apart. */
  lemma DecodeEncode(x: Path, terminating: bool)
    ensures Decode(Encode(x, terminating)) == (x, terminating)
  {
    hide Decode, Pairs, Unpairs, Pack;
    if |x| % 2 == 0 {
      Unpack(Flag(terminating), 0);
      UnpairsPairs(x);
      DecodeIs(Pack(Flag(terminating), 0), Pairs(x));
    } else {
      Unpack(Flag(terminating) + 1, x[0]);
      UnpairsPairs(x[1..]);
      DecodeIs(Pack(Flag(terminating) + 1, x[0]), Pairs(x[1..]));
      assert x == [x[0]] + x[1..];
    }
  }
}
