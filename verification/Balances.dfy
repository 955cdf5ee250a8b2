/** The sum of all balances, and what each operation on the state does to it. */
module Balances {
  import opened StateTypes
  import opened Journal
  import opened Undoing
  import opened Transactions
  import opened BlockEnd

  type Purse = m: map<Address, nat> | forall a :: a in m ==> m[a] != 0

  ghost function Sum(m: map<Address, nat>): nat
    decreases |m|
  {
    if m == map[] then 0
    else
      var a :| a in m;
      m[a] + Sum(m - {a})
  }

  lemma {:induction false} SumOut(m: map<Address, nat>, a: Address)
    requires a in m
    ensures Sum(m) == m[a] + Sum(m - {a})
    decreases |m|
  {
    var b :| b in m && Sum(m) == m[b] + Sum(m - {b});
    if b != a {
      SumOut(m - {b}, a);
      SumOut(m - {a}, b);
      assert m - {a} - {b} == m - {b} - {a};
    }
  }

  function Get(m: map<Address, nat>, a: Address): nat {
    if a in m then m[a] else 0
  }

  function Put(m: Purse, a: Address, v: nat): Purse {
    if v == 0 then m - {a} else m[a := v]
  }

  lemma SumPut(m: Purse, a: Address, v: nat)
    ensures Sum(Put(m, a, v)) + Get(m, a) == Sum(m) + v
  {
    var rest := m - {a};
    if a in m {
      SumOut(m, a);
    } else {
      assert rest == m;
    }
    if v != 0 {
      SumOut(m[a := v], a);
      assert m[a := v] - {a} == rest;
    }
  }

  /** The balances that are not zero. */
  function PurseOf(s: Ibs): Purse {
    map a | a in s.db.accounts.Keys + s.objects.Keys && Balance(s, a) != 0 :: Balance(s, a)
  }

  ghost function Supply(s: Ibs): nat {
    Sum(PurseOf(s))
  }

  ghost predicate SameBalances(s: Ibs, t: Ibs) {
    forall a: Address :: Balance(s, a) == Balance(t, a)
  }

  lemma PurseGet(s: Ibs, a: Address)
    ensures Get(PurseOf(s), a) == Balance(s, a)
  {
  }

  lemma PurseSame(s: Ibs, p: Purse)
    requires forall a: Address :: Balance(s, a) == Get(p, a)
    ensures PurseOf(s) == p
  {
    hide PurseOf;
    forall a: Address ensures (a in PurseOf(s) <==> a in p) && (a in p ==> PurseOf(s)[a] == p[a]) {
      PurseGet(s, a);
      assert Balance(s, a) == Get(p, a);
    }
  }

  lemma SameSupply(s: Ibs, t: Ibs)
    requires SameBalances(s, t)
    ensures Supply(s) == Supply(t)
  {
    hide PurseOf, Balance;
    forall a: Address ensures Balance(s, a) == Get(PurseOf(t), a) {
      PurseGet(t, a);
      assert Balance(s, a) == Balance(t, a);
    }
    PurseSame(s, PurseOf(t));
  }

  /** Only the balance of `a` differs. */
  ghost predicate OneBalance(s: Ibs, t: Ibs, a: Address, v: nat) {
    forall b: Address :: Balance(t, b) == if b == a then v else Balance(s, b)
  }

  lemma SupplyPut(s: Ibs, t: Ibs, a: Address, v: nat)
    requires OneBalance(s, t, a, v)
    ensures Supply(t) + Balance(s, a) == Supply(s) + v
  {
    hide PurseOf, Balance, Sum;
    forall b: Address ensures Balance(t, b) == Get(Put(PurseOf(s), a, v), b) {
      PurseGet(s, b);
      assert Balance(t, b) == if b == a then v else Balance(s, b);
    }
    PurseSame(t, Put(PurseOf(s), a, v));
    SumPut(PurseOf(s), a, v);
    PurseGet(s, a);
  }

  lemma BalanceInSupply(s: Ibs, a: Address)
    ensures Balance(s, a) <= Supply(s)
  {
    hide Balance;
    PurseGet(s, a);
    SumPut(PurseOf(s), a, 0);
  }

  // Operations

  lemma EnsureBalances(s: Ibs, a: Address)
    ensures SameBalances(s, EnsureObject(s, a)) && Live(EnsureObject(s, a), a).balance == Balance(s, a)
  {
  }

  lemma WriteBalances(s: Ibs, a: Address, v: U256)
    ensures OneBalance(s, WriteBalance(s, a, v), a, v)
  {
    hide EnsureObject, Balance;
    EnsureBalances(s, a);
    var s1 := EnsureObject(s, a);
    SetLiveBalances(s1, WriteBalance(s, a, v), a, Live(s1, a).(balance := v));
  }

  lemma SetLiveBalances(s: Ibs, t: Ibs, a: Address, acc: Account)
    requires t.db == s.db && t.objects == SetLive(s, a, acc).objects
    ensures OneBalance(s, t, a, acc.balance)
  {
  }

  lemma WriteAccountBalances(s: Ibs, a: Address, acc: Account)
    requires acc.balance == Balance(s, a)
    ensures SameBalances(s, WriteAccount(s, a, acc))
  {
    EnsureBalances(s, a);
    var s1 := EnsureObject(s, a);
    hide EnsureObject;
    forall b: Address ensures Balance(WriteAccount(s, a, acc), b) == Balance(s, b) {
      assert Balance(s1, b) == Balance(s, b);
    }
  }

  lemma CreateBalances(s: Ibs, a: Address)
    ensures SameBalances(s, CreateContract(s, a))
  {
  }

  lemma ReadBalances(s: Ibs, a: Address)
    ensures SameBalances(s, GetObject(s, a).0)
  {
  }

  lemma ReadStorageBalances(s: Ibs, a: Address, k: U256, original: bool)
    ensures SameBalances(s, GetStorage(s, a, k, original).0)
  {
    ReadBalances(s, a);
    assert GetStorage(s, a, k, original).0.objects == GetObject(s, a).0.objects && GetStorage(s, a, k, original).0.db == s.db;
    hide GetStorage;
    assert forall b: Address :: Balance(GetStorage(s, a, k, original).0, b) == Balance(GetObject(s, a).0, b);
  }

  lemma WriteStorageBalances(s: Ibs, a: Address, k: U256, v: U256)
    ensures SameBalances(s, SetStorage(s, a, k, v))
  {
    ReadStorageBalances(s, a, k, false);
    hide GetStorage;
    var s1 := GetStorage(s, a, k, false).0;
    assert forall b: Address :: Balance(SetStorage(s, a, k, v), b) == Balance(s1, b);
  }

  lemma FinalizeBalances(s: Ibs)
    ensures SameBalances(s, Finalize(s)) && SameBalances(s, ClearSubstate(s))
  {
  }

  lemma RefinesBalances(s: Ibs, t: Ibs)
    requires Refines(s, t)
    ensures SameBalances(s, t)
  {
    forall a: Address ensures Balance(s, a) == Balance(t, a) {
      assert AddressRefines(s, t, a);
    }
  }

  /** Operations that move no money. */
  predicate Quiet(op: Op) {
    !op.SetBalance? && !op.AddToBalance? && !op.SubtractFromBalance? && !op.Attempt?
  }

  lemma QuietBalances(s: Ibs, op: Op)
    requires Quiet(op)
    ensures SameBalances(s, Apply(s, op))
  {
    hide EnsureObject, GetObject, GetStorage, WriteAccount, CreateContract, SetStorage, Balance, Live;
    match op {
      case ReadAccount(a) => ReadBalances(s, a);
      case ReadStorage(a, k, original) => ReadStorageBalances(s, a, k, original);
      case ChangeNonce(a, n) =>
        EnsureBalances(s, a);
        WriteAccountBalances(s, a, Live(EnsureObject(s, a), a).(nonce := n));
      case ChangeCode(a, h) =>
        EnsureBalances(s, a);
        WriteAccountBalances(s, a, Live(EnsureObject(s, a), a).(codeHash := h));
      case NewContract(a) => CreateBalances(s, a);
      case WriteSlot(a, k, v) => WriteStorageBalances(s, a, k, v);
      case SelfDestruct(a) => SameObjects(s, Apply(s, op));
      case TouchOp(a) => SameObjects(s, Apply(s, op));
      case WarmAccount(a) => SameObjects(s, Apply(s, op));
      case WarmSlot(a, k) => SameObjects(s, Apply(s, op));
      case AddLog(l) => SameObjects(s, Apply(s, op));
      case SetRefund(r) => SameObjects(s, Apply(s, op));
    }
  }

  lemma SameObjects(s: Ibs, t: Ibs)
    requires s.objects == t.objects && s.db == t.db
    ensures SameBalances(s, t)
  {
  }
}
