/** How accounts are kept in tables: a byte of flags, then nonce, code hash and balance, each left out when it is the default. */
module AccountCodec {
  import opened Basics
  import opened Bytes
  import opened FixedWidth

  const MAX_ACCOUNT_LEN: nat := 76

  datatype Account = Account(nonce: nat, balance: nat, codeHash: Bytes)

  predicate ValidAccount(a: Account) {
    a.nonce < U64_RANGE && a.balance < U256_RANGE && |a.codeHash| == KECCAK_LENGTH
  }

  predicate NoZeroInFront(b: Bytes) {
    b != [] ==> b[0] != 0
  }

  /** Drops the zeros in front. */
  function WriteCompact(input: Bytes): (b: Bytes)
    ensures |b| <= |input| && NoZeroInFront(b)
  {
    if input != [] && input[0] == 0 then WriteCompact(input[1..]) else input
  }

  lemma {:induction false} LeadingZero(b: Bytes)
    ensures BigEndian([0] + b) == BigEndian(b)
    decreases |b|
  {
    if b != [] {
      LeadingZero(b[..|b| - 1]);
      assert ([0] + b)[..|b|] == [0] + b[..|b| - 1];
    }
  }

  lemma {:induction false} CompactValue(b: Bytes)
    ensures BigEndian(WriteCompact(b)) == BigEndian(b)
    decreases |b|
  {
    if b != [] && b[0] == 0 {
      LeadingZero(b[1..]);
      assert b == [0] + b[1..];
      CompactValue(b[1..]);
    }
  }

  function LittleEndian(b: Bytes): nat {
    if b == [] then 0 else b[0] + 256 * LittleEndian(b[1..])
  }

  function Reverse(b: Bytes): (r: Bytes)
    ensures |r| == |b| && forall i :: 0 <= i < |b| ==> r[i] == b[|b| - 1 - i]
  {
    if b == [] then [] else [b[|b| - 1]] + Reverse(b[..|b| - 1])
  }

  lemma {:induction false} ReverseValue(b: Bytes)
    ensures LittleEndian(Reverse(b)) == BigEndian(b)
    decreases |b|
  {
    if b != [] {
      ReverseValue(b[..|b| - 1]);
      assert Reverse(b)[1..] == Reverse(b[..|b| - 1]);
    }
  }

  lemma {:induction false} TrailingZeros(b: Bytes, k: nat)
    ensures LittleEndian(b + seq(k, _ => 0)) == LittleEndian(b)
    decreases |b|, k
  {
    var zeros: Bytes := seq(k, _ => 0);
    if b != [] {
      TrailingZeros(b[1..], k);
      assert (b + zeros)[1..] == b[1..] + zeros;
    } else if k > 0 {
      var fewer: Bytes := seq(k - 1, _ => 0);
      TrailingZeros([], k - 1);
      assert (b + zeros)[1..] == [] + fewer;
    }
  }

  /** Fills an array from its low end with the bytes from the last one on. */
  method BytesToU64(buf: Bytes) returns (n: nat)
    requires |buf| <= 8
    ensures n == BigEndian(buf)
  {
    var decoded := new Byte[8](_ => 0);
    for i := 0 to |buf|
      invariant forall j :: 0 <= j < i ==> decoded[j] == buf[|buf| - 1 - j]
      invariant forall j :: i <= j < 8 ==> decoded[j] == 0
    {
      decoded[i] := buf[|buf| - 1 - i];
    }
    assert decoded[..] == Reverse(buf) + seq(8 - |buf|, _ => 0);
    TrailingZeros(Reverse(buf), 8 - |buf|);
    ReverseValue(buf);
    n := LittleEndian(decoded[..]);
  }

  const CODE_HASH_FLAG: nat := 16

  method EncodeForStorage(a: Account, emptyHash: Bytes) returns (buffer: Bytes)
    requires ValidAccount(a)
    ensures 0 < |buffer| <= MAX_ACCOUNT_LEN
    ensures Encodes(buffer, a, emptyHash)
    ensures forall other :: Encodes(other, a, emptyHash) ==> other == buffer
  {
    Fixed(a);
    hide BigEndian, WriteCompact, FixedBytes;
    buffer := [0];
    var nonceLength: nat, hasCode := 0, false;
    ghost var nonce: Bytes, code: Bytes, balance: Bytes := [], [], [];
    if a.nonce != 0 {
      var b := WriteCompact(FixedBytes(a.nonce, 8));
      nonceLength := |b|;
      buffer := buffer + b;
      nonce := b;
    }
    assert buffer == [0] + nonce;
    if a.codeHash != emptyHash {
      hasCode := true;
      buffer := buffer + a.codeHash;
      code := a.codeHash;
    }
    assert buffer == [0] + nonce + code;
    if a.balance != 0 {
      var b := WriteCompact(FixedBytes(a.balance, 32));
      buffer := buffer + b;
      balance := b;
    }
    assert buffer == [0] + nonce + code + balance;
    buffer := buffer[0 := nonceLength + if hasCode then CODE_HASH_FLAG else 0];
    Put(a, emptyHash, nonce, code, balance, buffer);
    forall other | Encodes(other, a, emptyHash) ensures other == buffer {
      OneEncoding(a, emptyHash, buffer, other);
    }
  }

  lemma Put(a: Account, emptyHash: Bytes, nonce: Bytes, code: Bytes, balance: Bytes, buffer: Bytes)
    requires |nonce| <= 8 && |balance| <= 32 && BigEndian(nonce) == a.nonce && BigEndian(balance) == a.balance
    requires NoZeroInFront(nonce) && NoZeroInFront(balance)
    requires code == if a.codeHash != emptyHash then a.codeHash else []
    requires buffer == ([0] + nonce + code + balance)[0 := |nonce| + if a.codeHash != emptyHash then CODE_HASH_FLAG else 0]
    ensures Encodes(buffer, a, emptyHash)
  {
    hide BigEndian, NoZeroInFront;
    assert buffer == [|nonce| + if a.codeHash != emptyHash then CODE_HASH_FLAG else 0] + nonce + code + balance;
    assert ConsistsOf(buffer, a, emptyHash, nonce, balance);
  }

  lemma Fixed(a: Account)
    requires ValidAccount(a)
    ensures BigEndian(WriteCompact(FixedBytes(a.nonce, 8))) == a.nonce && BigEndian(WriteCompact(FixedBytes(a.balance, 32))) == a.balance
    ensures BigEndian([]) == 0
  {
    assert Pow256(8) == U64_RANGE && Pow256(32) == U256_RANGE by {
      Powers();
    }
    FixedValue(a.nonce, 8);
    FixedValue(a.balance, 32);
    CompactValue(FixedBytes(a.nonce, 8));
    CompactValue(FixedBytes(a.balance, 32));
  }

  /** The parts that the flags announce, in order. */
  ghost predicate ConsistsOf(enc: Bytes, a: Account, emptyHash: Bytes, nonce: Bytes, balance: Bytes) {
    && |nonce| <= 8 && |balance| <= 32 && BigEndian(nonce) == a.nonce && BigEndian(balance) == a.balance
    && enc == [|nonce| + if a.codeHash != emptyHash then CODE_HASH_FLAG else 0] + nonce
              + (if a.codeHash != emptyHash then a.codeHash else []) + balance
  }

  ghost predicate Represents(enc: Bytes, a: Account, emptyHash: Bytes) {
    exists nonce: Bytes, balance: Bytes :: ConsistsOf(enc, a, emptyHash, nonce, balance)
  }

  /** The same without zeros in front of nonce and balance. */
  ghost predicate Encodes(enc: Bytes, a: Account, emptyHash: Bytes) {
    exists nonce: Bytes, balance: Bytes :: ConsistsOf(enc, a, emptyHash, nonce, balance) && NoZeroInFront(nonce) && NoZeroInFront(balance)
  }

  /** No two strings without zeros in front have the same value. */
  lemma {:induction false} OneValue(x: Bytes, y: Bytes)
    requires NoZeroInFront(x) && NoZeroInFront(y) && BigEndian(x) == BigEndian(y)
    ensures x == y
    decreases |x|
  {
    if x == [] || y == [] {
      if x != [] {
        SomeValue(x);
      }
      if y != [] {
        SomeValue(y);
      }
    } else {
      var n, m := |x| - 1, |y| - 1;
      LastByte(BigEndian(x[..n]), x[n], BigEndian(y[..m]), y[m]);
      OneValue(x[..n], y[..m]);
      assert x == x[..n] + [x[n]] && y == y[..m] + [y[m]];
    }
  }

  lemma LastByte(p: nat, a: Byte, q: nat, b: Byte)
    requires 256 * p + a == 256 * q + b
    ensures p == q && a == b
  {
  }

  lemma {:induction false} SomeValue(b: Bytes)
    requires b != [] && b[0] != 0
    ensures BigEndian(b) > 0
    decreases |b|
  {
    if |b| > 1 {
      SomeValue(b[..|b| - 1]);
    }
  }

  /** An account has one encoding only. */
  lemma OneEncoding(a: Account, emptyHash: Bytes, enc: Bytes, other: Bytes)
    requires Encodes(enc, a, emptyHash) && Encodes(other, a, emptyHash)
    ensures enc == other
  {
    var nonce: Bytes, balance: Bytes :| ConsistsOf(enc, a, emptyHash, nonce, balance) && NoZeroInFront(nonce) && NoZeroInFront(balance);
    var nonce': Bytes, balance': Bytes :| ConsistsOf(other, a, emptyHash, nonce', balance') && NoZeroInFront(nonce') && NoZeroInFront(balance');
    OneValue(nonce, nonce');
    OneValue(balance, balance');
  }

  lemma EncodesRepresents(enc: Bytes, a: Account, emptyHash: Bytes)
    requires Encodes(enc, a, emptyHash)
    ensures Represents(enc, a, emptyHash)
  {
    hide BigEndian;
  }

  /** Where the parts of an encoded account are found again. */
  ghost predicate PartsAt(enc: Bytes, a: Account, emptyHash: Bytes)
    requires enc != []
  {
    var n, hasCode := enc[0] % 16, (enc[0] / 16) % 2 == 1;
    var rest := enc[1..];
    && n <= 8 && n <= |rest| && BigEndian(rest[..n]) == a.nonce
    && (if hasCode then n + KECCAK_LENGTH <= |rest| && rest[n..][..KECCAK_LENGTH] == a.codeHash else a.codeHash == emptyHash)
    && var balance := if hasCode then rest[n..][KECCAK_LENGTH..] else rest[n..];
       |balance| <= 32 && BigEndian(balance) == a.balance
  }

  lemma PartsFound(enc: Bytes, a: Account, emptyHash: Bytes)
    requires ValidAccount(a) && Represents(enc, a, emptyHash)
    ensures enc != [] && PartsAt(enc, a, emptyHash)
  {
    hide BigEndian;
    var nonce: Bytes, balance: Bytes :| ConsistsOf(enc, a, emptyHash, nonce, balance);
    hide PartsAt;
    if a.codeHash != emptyHash {
      PartsWithCode(enc, a, emptyHash, nonce, balance);
    } else {
      PartsWithoutCode(enc, a, emptyHash, nonce, balance);
    }
  }

  lemma PartsWithCode(enc: Bytes, a: Account, emptyHash: Bytes, nonce: Bytes, balance: Bytes)
    requires |a.codeHash| == KECCAK_LENGTH && |nonce| <= 8 && |balance| <= 32
    requires BigEndian(nonce) == a.nonce && BigEndian(balance) == a.balance
    requires enc == [|nonce| + CODE_HASH_FLAG] + nonce + a.codeHash + balance
    ensures enc != [] && PartsAt(enc, a, emptyHash)
  {
    hide BigEndian;
    FlagsRead(|nonce|);
    ThreeParts(enc, |nonce| + CODE_HASH_FLAG, nonce, a.codeHash, balance);
  }

  lemma PartsWithoutCode(enc: Bytes, a: Account, emptyHash: Bytes, nonce: Bytes, balance: Bytes)
    requires a.codeHash == emptyHash && |nonce| <= 8 && |balance| <= 32
    requires BigEndian(nonce) == a.nonce && BigEndian(balance) == a.balance
    requires enc == [|nonce|] + nonce + [] + balance
    ensures enc != [] && PartsAt(enc, a, emptyHash)
  {
    hide BigEndian;
    FlagsRead(|nonce|);
    ThreeParts(enc, |nonce|, nonce, [], balance);
    assert enc[1..][|nonce|..] == balance;
  }

  lemma FlagsRead(n: nat)
    requires n <= 8
    ensures (n + CODE_HASH_FLAG) % 16 == n && (n + CODE_HASH_FLAG) / 16 % 2 == 1
    ensures n % 16 == n && n / 16 % 2 == 0
  {
  }

  lemma ThreeParts(enc: Bytes, flags: Byte, nonce: Bytes, code: Bytes, balance: Bytes)
    requires enc == [flags] + nonce + code + balance
    ensures var rest := enc[1..];
      && enc[0] == flags && |rest| == |nonce| + |code| + |balance|
      && rest[..|nonce|] == nonce && rest[|nonce|..] == code + balance
      && rest[|nonce|..][..|code|] == code && rest[|nonce|..][|code|..] == balance
  {
    assert enc[1..] == nonce + code + balance;
  }

  datatype Decoded = Absent | Found(account: Account) | Malformed

  /** The parts that the flags announce are there, and what is left can be a balance. */
  predicate WellFormed(enc: Bytes) {
    enc != [] &&
    var n, code := enc[0] % 16, if (enc[0] / 16) % 2 == 1 then KECCAK_LENGTH else 0;
    n <= 8 && 1 + n + code <= |enc| <= 1 + n + code + 32
  }

  method DecodeForStorage(enc: Bytes, emptyHash: Bytes) returns (r: Decoded)
    ensures r.Absent? <==> enc == []
    ensures r.Found? <==> WellFormed(enc)
    ensures r.Found? ==> PartsAt(enc, r.account, emptyHash)
    ensures forall a :: ValidAccount(a) && Represents(enc, a, emptyHash) ==> r == Found(a)
  {
    if enc == [] {
      return Absent;
    }
    forall a | ValidAccount(a) && Represents(enc, a, emptyHash) ensures PartsAt(enc, a, emptyHash) {
      PartsFound(enc, a, emptyHash);
    }
    NoValue();
    hide BigEndian, Represents, ValidAccount;
    var nonceLength, hasCode := enc[0] % 16, (enc[0] / 16) % 2 == 1;
    var rest := enc[1..];
    var nonce, codeHash := 0, emptyHash;
    if nonceLength > 0 {
      if |rest| < nonceLength || nonceLength > 8 {
        return Malformed;
      }
      nonce := BytesToU64(rest[..nonceLength]);
      rest := rest[nonceLength..];
    }
    if hasCode {
      if |rest| < KECCAK_LENGTH {
        return Malformed;
      }
      codeHash := rest[..KECCAK_LENGTH];
      rest := rest[KECCAK_LENGTH..];
    }
    if |rest| > 32 {
      return Malformed;
    }
    return Found(Account(nonce, BigEndian(rest), codeHash));
  }

  lemma NoValue()
    ensures BigEndian([]) == 0
  {
  }

  /** What was encoded is decoded again. */
  method RoundTrip(a: Account, emptyHash: Bytes) returns (r: Decoded)
    requires ValidAccount(a)
    ensures r == Found(a)
  {
    var enc := EncodeForStorage(a, emptyHash);
    EncodesRepresents(enc, a, emptyHash);
    r := DecodeForStorage(enc, emptyHash);
  }
}
