/** What the operations on the journaled state do to its answers. */
module Effects {
  import opened Basics
  import opened StateTypes
  import opened Journal
  import opened Undoing
  import opened Transactions
  import opened BlockEnd

  function CurrentAccount(s: Ibs, a: Address): Option<Account> {
    if Exists(s, a) then Obj(s, a).value.current else None
  }

  /** The account, or the empty one. */
  function AccountOrEmpty(s: Ibs, a: Address): Account {
    if Exists(s, a) then Obj(s, a).value.current.value else EMPTY_ACCOUNT
  }

  /** All accounts but that of `a` are as they were, and the one of `a` is `account`. */
  ghost predicate OneAccount(s: Ibs, t: Ibs, a: Address, account: Option<Account>) {
    forall b: Address :: CurrentAccount(t, b) == if b == a then account else CurrentAccount(s, b)
  }

  /** All slots outside of `a` read as they did. */
  ghost predicate OtherSlots(s: Ibs, t: Ibs, a: Address) {
    forall b: Address, k: U256, original: bool :: b != a ==> ReadSlot(t, b, k, original) == ReadSlot(s, b, k, original)
  }

  lemma EnsureEffect(s: Ibs, a: Address)
    ensures var t := EnsureObject(s, a);
      && OneAccount(s, t, a, Some(AccountOrEmpty(s, a))) && Live(t, a) == AccountOrEmpty(s, a)
      && t.storage == s.storage && t.incarnations == s.incarnations && t.db == s.db && a in t.objects
      && (forall b: Address :: b != a ==> Obj(t, b) == Obj(s, b))
  {
  }

  lemma WriteAccountEffect(s: Ibs, a: Address, acc: Account)
    ensures OneAccount(s, WriteAccount(s, a, acc), a, Some(acc)) && OtherSlots(s, WriteAccount(s, a, acc), a)
  {
    EnsureEffect(s, a);
    hide EnsureObject;
    var t := WriteAccount(s, a, acc);
    forall b: Address | b != a ensures Obj(t, b) == Obj(s, b) {
      assert Obj(EnsureObject(s, a), b) == Obj(s, b);
    }
    SameElsewhere(s, t, a);
  }

  lemma SameElsewhere(s: Ibs, t: Ibs, a: Address)
    requires t.db == s.db && forall b: Address :: b != a ==> Obj(t, b) == Obj(s, b) && St(t, b) == St(s, b) && (b in t.incarnations <==> b in s.incarnations)
    ensures OtherSlots(s, t, a)
  {
    forall b: Address, k: U256, original: bool | b != a ensures ReadSlot(t, b, k, original) == ReadSlot(s, b, k, original) {
      assert Obj(t, b) == Obj(s, b) && St(t, b) == St(s, b);
    }
  }

  /** A new nonce, and nothing else of the account changes. */
  lemma NonceSet(s: Ibs, a: Address, nonce: nat)
    ensures OneAccount(s, SetNonce(s, a, nonce), a, Some(AccountOrEmpty(s, a).(nonce := nonce))) && OtherSlots(s, SetNonce(s, a, nonce), a)
  {
    hide OneAccount, OtherSlots, WriteAccount, EnsureObject, Live;
    EnsureEffect(s, a);
    WriteAccountEffect(s, a, AccountOrEmpty(s, a).(nonce := nonce));
  }

  /** A new code hash, and nothing else of the account changes. */
  lemma CodeSet(s: Ibs, a: Address, hash: CodeHash)
    ensures OneAccount(s, SetCode(s, a, hash), a, Some(AccountOrEmpty(s, a).(codeHash := hash))) && OtherSlots(s, SetCode(s, a, hash), a)
  {
    hide OneAccount, OtherSlots, WriteAccount, EnsureObject, Live;
    EnsureEffect(s, a);
    WriteAccountEffect(s, a, AccountOrEmpty(s, a).(codeHash := hash));
  }

  /** A new balance, and nothing else of the account changes. */
  lemma BalanceSet(s: Ibs, a: Address, v: U256)
    ensures OneAccount(s, WriteBalance(s, a, v), a, Some(AccountOrEmpty(s, a).(balance := v))) && OtherSlots(s, WriteBalance(s, a, v), a)
  {
    EnsureEffect(s, a);
    hide EnsureObject;
    var t := WriteBalance(s, a, v);
    forall b: Address | b != a ensures Obj(t, b) == Obj(s, b) {
      assert Obj(EnsureObject(s, a), b) == Obj(s, b);
    }
    SameElsewhere(s, t, a);
  }

  /** A created contract has the balance that was there, no nonce, no code and no storage. */
  lemma ContractCreated(s: Ibs, a: Address)
    ensures var t := CreateContract(s, a);
      && OneAccount(s, t, a, Some(Account(0, AccountOrEmpty(s, a).balance, EMPTY_HASH))) && OtherSlots(s, t, a)
      && (forall k: U256, original: bool :: ReadSlot(t, a, k, original) == 0)
  {
    var t := CreateContract(s, a);
    forall b: Address | b != a ensures Obj(t, b) == Obj(s, b) && St(t, b) == St(s, b) {
    }
    SameElsewhere(s, t, a);
    hide OtherSlots;
  }

  /** A removed account is gone with its storage. */
  lemma Destructed(s: Ibs, a: Address)
    ensures var t := Destruct(s, a);
      && OneAccount(s, t, a, None) && OtherSlots(s, t, a) && (forall k: U256, original: bool :: ReadSlot(t, a, k, original) == 0)
  {
    var t := Destruct(s, a);
    forall b: Address | b != a ensures Obj(t, b) == Obj(s, b) && St(t, b) == St(s, b) {
    }
    SameElsewhere(s, t, a);
    hide OtherSlots;
  }

  lemma ReadEffect(s: Ibs, a: Address, k: U256)
    ensures var (t, v) := GetStorage(s, a, k, false);
      && v == ReadSlot(s, a, k, false)
      && (forall b: Address :: Obj(t, b) == Obj(s, b)) && t.db == s.db && t.incarnations == s.incarnations
      && (forall b: Address, x: U256 :: OriginalOf(t, b, x) == OriginalOf(s, b, x))
      && (forall b: Address, x: U256 :: Exists(s, b) ==> CurrentOf(t, b, x) == CurrentOf(s, b, x))
  {
    hide GetStorage, Step;
    GetStorageStep(s, a, k, false);
    var t := GetStorage(s, a, k, false).0;
    forall b: Address ensures Obj(t, b) == Obj(s, b) {
      assert AddressRefines(t, s, b);
    }
    forall b: Address, x: U256 ensures OriginalOf(t, b, x) == OriginalOf(s, b, x) && (Exists(s, b) ==> CurrentOf(t, b, x) == CurrentOf(s, b, x)) {
      assert AddressRefines(t, s, b);
      assert SlotRefines(t, s, b, x);
    }
  }

  /**
   A written slot reads as written, its original value does not change, and no other slot does. Without an account the
   value waits for one, and nothing reads differently.
   */
  lemma SlotWritten(s: Ibs, a: Address, k: U256, v: U256)
    ensures var t := SetStorage(s, a, k, v);
      && (forall b: Address :: CurrentAccount(t, b) == CurrentAccount(s, b))
      && (forall b: Address, x: U256 :: ReadSlot(t, b, x, true) == ReadSlot(s, b, x, true))
      && (forall b: Address, x: U256 ::
            ReadSlot(t, b, x, false) == if b == a && x == k && Exists(s, a) then v else ReadSlot(s, b, x, false))
      && (!Exists(s, a) && v != 0 ==> CurrentOf(t, a, k) == v)
  {
    ReadEffect(s, a, k);
    var (s1, previous) := GetStorage(s, a, k, false);
    hide GetStorage;
    var t := SetStorage(s, a, k, v);
    forall b: Address ensures Obj(t, b) == Obj(s, b) {
      assert Obj(t, b) == Obj(s1, b);
    }
    forall b: Address, x: U256 ensures OriginalOf(t, b, x) == OriginalOf(s, b, x)
      ensures Exists(s, b) ==> CurrentOf(t, b, x) == if b == a && x == k then v else CurrentOf(s, b, x)
    {
      assert OriginalOf(s1, b, x) == OriginalOf(s, b, x) && (Exists(s, b) ==> CurrentOf(s1, b, x) == CurrentOf(s, b, x));
      PendingEffect(s1, t, a, k, v, previous, b, x);
    }
    PendingEffect(s1, t, a, k, v, previous, a, k);
  }

  lemma PendingEffect(s: Ibs, t: Ibs, a: Address, k: U256, v: U256, previous: U256, b: Address, x: U256)
    requires t.db == s.db && t.objects == s.objects && t.incarnations == s.incarnations
    requires if previous == v then t.storage == s.storage else t.storage == s.storage[a := St(s, a).(current := St(s, a).current[k := v])]
    ensures OriginalOf(t, b, x) == OriginalOf(s, b, x)
    ensures CurrentOf(t, b, x) == if b == a && x == k && previous != v then v else CurrentOf(s, b, x)
  {
    assert Obj(t, b) == Obj(s, b);
  }

  // The substate

  /** Sets, logs and refund are as they were. */
  ghost predicate SameSubstate(s: Ibs, t: Ibs) {
    && t.selfDestructs == s.selfDestructs && t.accessedAddresses == s.accessedAddresses && t.logs == s.logs && t.refund == s.refund
    && forall b: Address :: Keys(t, b) == Keys(s, b)
  }

  /** What each operation adds to the sets and the logs; a written balance touches the account, and nothing else is touched unless asked for. */
  lemma SubstateMoves(s: Ibs, op: Op)
    requires !op.Attempt?
    ensures var t := Apply(s, op);
      && t.touched == s.touched + (if op.TouchOp? || op.SetBalance? || op.AddToBalance? || op.SubtractFromBalance? then {op.address} else {})
      && t.selfDestructs == s.selfDestructs + (if op.SelfDestruct? then {op.address} else {})
      && t.accessedAddresses == s.accessedAddresses + (if op.WarmAccount? then {op.address} else {})
      && (forall b: Address :: Keys(t, b) == Keys(s, b) + (if op.WarmSlot? && op.address == b then {op.key} else {}))
      && t.logs == s.logs + (if op.AddLog? then [op.log] else [])
      && t.refund == (if op.SetRefund? then op.refund else s.refund)
  {
    hide WriteBalance, WriteAccount, EnsureObject, GetObject, SetLive, Live, Run, GetStorage, SetStorage, CreateContract, RevertToSnapshot;
    match op {
      case ReadAccount(a) => CacheOnly(s, a, 0, false);
      case ReadStorage(a, k, original) => CacheOnly(s, a, k, original);
      case SetBalance(a, v) => TouchesOne(s, a, v);
      case AddToBalance(a, v) => TouchesOne(s, a, WrappingAdd(Live(EnsureObject(s, a), a).balance, v));
      case SubtractFromBalance(a, v) => TouchesOne(s, a, WrappingSub(Live(EnsureObject(s, a), a).balance, v));
      case ChangeNonce(a, n) => TouchesNothing(s, a, Live(EnsureObject(s, a), a).(nonce := n), 0, 0);
      case ChangeCode(a, h) => TouchesNothing(s, a, Live(EnsureObject(s, a), a).(codeHash := h), 0, 0);
      case NewContract(a) => TouchesNothing(s, a, EMPTY_ACCOUNT, 0, 0);
      case WriteSlot(a, k, v) => TouchesNothing(s, a, EMPTY_ACCOUNT, k, v);
      case _ =>
    }
  }

  lemma CacheOnly(s: Ibs, a: Address, k: U256, original: bool)
    ensures forall t :: t in {GetObject(s, a).0, GetStorage(s, a, k, original).0} ==> SameSubstate(s, t) && t.touched == s.touched
  {
  }

  lemma TouchesOne(s: Ibs, a: Address, v: U256)
    ensures SameSubstate(s, WriteBalance(s, a, v)) && WriteBalance(s, a, v).touched == s.touched + {a}
  {
  }

  lemma TouchesNothing(s: Ibs, a: Address, acc: Account, k: U256, v: U256)
    ensures forall t :: t in {WriteAccount(s, a, acc), CreateContract(s, a), SetStorage(s, a, k, v)} ==> SameSubstate(s, t) && t.touched == s.touched
  {
    CacheOnly(s, a, k, false);
    hide GetStorage;
  }

  /** Reads, and what only adds to sets and logs, leave every account and every slot as they are. */
  lemma OnlySubstate(s: Ibs, op: Op)
    requires op.ReadAccount? || op.ReadStorage? || op.TouchOp? || op.SelfDestruct? || op.WarmAccount? || op.WarmSlot? || op.AddLog? || op.SetRefund?
    ensures var t := Apply(s, op);
      && (forall b: Address :: CurrentAccount(t, b) == CurrentAccount(s, b))
      && (forall b: Address, x: U256, original: bool :: ReadSlot(t, b, x, original) == ReadSlot(s, b, x, original))
  {
    hide GetObject, GetStorage, ReadSlot, CurrentAccount, Run, Step;
    match op {
      case ReadAccount(a) =>
        GetObjectStep(s, a);
        RefinesReads(Apply(s, op), s);
      case ReadStorage(a, k, original) =>
        GetStorageStep(s, a, k, original);
        RefinesReads(Apply(s, op), s);
      case _ => SameCaches(s, Apply(s, op));
    }
  }

  lemma RefinesReads(s: Ibs, t: Ibs)
    requires Refines(s, t)
    ensures forall b: Address :: CurrentAccount(s, b) == CurrentAccount(t, b)
    ensures forall b: Address, x: U256, original: bool :: ReadSlot(s, b, x, original) == ReadSlot(t, b, x, original)
  {
    forall b: Address ensures Obj(s, b) == Obj(t, b) {
      assert AddressRefines(s, t, b);
    }
    forall b: Address, x: U256, original: bool ensures ReadSlot(s, b, x, original) == ReadSlot(t, b, x, original) {
      assert AddressRefines(s, t, b);
      assert SlotRefines(s, t, b, x);
    }
  }

  lemma SameCaches(s: Ibs, t: Ibs)
    requires t.objects == s.objects && t.storage == s.storage && t.incarnations == s.incarnations && t.db == s.db
    ensures forall b: Address :: CurrentAccount(t, b) == CurrentAccount(s, b)
    ensures forall b: Address, x: U256, original: bool :: ReadSlot(t, b, x, original) == ReadSlot(s, b, x, original)
  {
    assert forall b: Address :: Obj(t, b) == Obj(s, b) && St(t, b) == St(s, b);
  }
}
