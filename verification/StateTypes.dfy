/** Accounts, storage and the backing state that block execution reads from. */
module StateTypes {
  import opened Basics

  type Address = nat

  type U256 = n: int | 0 <= n < U256_RANGE

  /** Hash of a block, or of a key of a table; only its equality matters. */
  type Hash = nat

  datatype Revision =
    | Frontier | Homestead | Tangerine | Spurious | Byzantium | Constantinople
    | Petersburg | Istanbul | Berlin | London | Shanghai
  {
    function Index(): nat {
      match this
      case Frontier => 0 case Homestead => 1 case Tangerine => 2 case Spurious => 3 case Byzantium => 4
      case Constantinople => 5 case Petersburg => 6 case Istanbul => 7 case Berlin => 8 case London => 9 case Shanghai => 10
    }

    predicate AtLeast(other: Revision) {
      Index() >= other.Index()
    }
  }

  /** Hash of the code of an account; only its equality matters here. */
  type CodeHash = nat
  const EMPTY_HASH: CodeHash := 0

  datatype Account = Account(nonce: nat, balance: U256, codeHash: CodeHash)

  const EMPTY_ACCOUNT := Account(0, 0, EMPTY_HASH)

  function WrappingAdd(a: U256, b: U256): U256 {
    (a + b) % U256_RANGE
  }

  function WrappingSub(a: U256, b: U256): U256 {
    (a - b) % U256_RANGE
  }

  type Slot = (Address, U256)

  /** Storage that holds no zero. */
  type Slots = m: map<Slot, U256> | forall p :: p in m ==> m[p] != 0

  /** What a `State` answers to reads; two of these are equal exactly when all their answers are. */
  datatype Db = Db(accounts: map<Address, Account>, slots: Slots) {
    function ReadAccount(a: Address): Option<Account> {
      if a in accounts then Some(accounts[a]) else None
    }

    function ReadStorage(a: Address, k: U256): U256 {
      if (a, k) in slots then slots[(a, k)] else 0
    }
  }

  lemma SameAnswersSameDb(x: Db, y: Db)
    requires forall a: Address :: x.ReadAccount(a) == y.ReadAccount(a)
    requires forall a: Address, k: U256 :: x.ReadStorage(a, k) == y.ReadStorage(a, k)
    ensures x == y
  {
    forall a: Address ensures a in x.accounts <==> a in y.accounts {
      assert x.ReadAccount(a) == y.ReadAccount(a);
    }
    forall a: Address | a in x.accounts ensures x.accounts[a] == y.accounts[a] {
      assert x.ReadAccount(a) == y.ReadAccount(a);
    }
    forall p: Slot ensures (p in x.slots <==> p in y.slots) && (p in x.slots ==> x.slots[p] == y.slots[p]) {
      assert p == (p.0, p.1) && x.ReadStorage(p.0, p.1) == y.ReadStorage(p.0, p.1);
    }
    assert x.accounts == y.accounts && x.slots == y.slots;
  }
}
