/** What calls and creations leave behind whatever is taken back: nonces do not fall, accounts do not vanish, burning leaves a trace. */
module Records {
  import opened Basics
  import opened StateTypes
  import opened Journal
  import opened Undoing
  import opened Transactions
  import opened BlockEnd
  import opened Refunds
  import opened Balances
  import opened Effects
  import opened Messages

  ghost predicate Onward(s: Ibs, t: Ibs) {
    && s.selfDestructs <= t.selfDestructs
    && forall a: Address :: NonceOf(s, a) <= NonceOf(t, a) && (Exists(s, a) ==> Exists(t, a))
  }

  /** Onward, and money is burned only by accounts that are recorded as self-destructed. */
  ghost predicate Recorded(s: Ibs, r: Result) {
    Onward(s, r.state) && (r.burned > 0 ==> r.state.selfDestructs != {})
  }

  lemma OnwardTwice(s: Ibs, t: Ibs, u: Ibs)
    requires Onward(s, t) && Onward(t, u)
    ensures Onward(s, u)
  {
    hide NonceOf, Exists;
    forall a: Address ensures NonceOf(s, a) <= NonceOf(u, a) && (Exists(s, a) ==> Exists(u, a)) {
      assert NonceOf(s, a) <= NonceOf(t, a) <= NonceOf(u, a);
    }
  }

  lemma OnwardSame(s: Ibs, t: Ibs)
    requires t.selfDestructs == s.selfDestructs && forall a: Address :: Obj(t, a) == Obj(s, a)
    ensures Onward(s, t)
  {
  }

  lemma OnwardOne(s: Ibs, t: Ibs, a: Address, account: Account)
    requires OneAccount(s, t, a, Some(account)) && account.nonce >= NonceOf(s, a) && t.selfDestructs == s.selfDestructs
    ensures Onward(s, t)
  {
    forall b: Address ensures NonceOf(s, b) <= NonceOf(t, b) && (Exists(s, b) ==> Exists(t, b)) {
      assert CurrentAccount(t, b) == if b == a then Some(account) else CurrentAccount(s, b);
    }
  }

  lemma ReadOnward(s: Ibs, a: Address)
    ensures Onward(s, GetObject(s, a).0)
  {
    OnwardSame(s, GetObject(s, a).0);
  }

  lemma HostOnward(s: Ibs, op: Op)
    requires FromInterpreter(op)
    ensures Onward(s, Apply(s, op))
  {
    hide GetStorage, Onward;
    match op {
      case ReadStorage(a, k, original) => ReadStorageKeeps(s, a, k, original);
      case _ =>
    }
    OnwardSame(s, Apply(s, op));
  }

  lemma StoreOnward(rev: Revision, s: Ibs, a: Address, k: U256, v: U256)
    ensures Onward(s, Sstore(rev, s, a, k, v))
  {
    hide Sstore, Onward, Obj;
    SstoreObjects(rev, s, a, k, v);
    OnwardSame(s, Sstore(rev, s, a, k, v));
  }

  lemma SameObj(s: Ibs, t: Ibs)
    requires t.objects == s.objects && t.db == s.db
    ensures forall b: Address :: Obj(t, b) == Obj(s, b)
  {
  }

  lemma WriteStorageKeeps(s: Ibs, a: Address, k: U256, v: U256)
    ensures var t := SetStorage(s, a, k, v);
      t.selfDestructs == s.selfDestructs && t.db == s.db && forall b: Address :: Obj(t, b) == Obj(s, b)
  {
    hide GetStorage, Obj;
    ReadStorageKeeps(s, a, k, false);
    SameObj(GetStorage(s, a, k, false).0, SetStorage(s, a, k, v));
  }

  lemma SstoreObjects(rev: Revision, s: Ibs, a: Address, k: U256, v: U256)
    ensures var t := Sstore(rev, s, a, k, v); t.selfDestructs == s.selfDestructs && forall b: Address :: Obj(t, b) == Obj(s, b)
  {
    hide GetStorage, SetStorage, RefundAfter, Obj;
    var s1 := GetStorage(s, a, k, false).0;
    var s2 := SetStorage(s1, a, k, v);
    var s3 := GetStorage(s2, a, k, true).0;
    var t := Sstore(rev, s, a, k, v);
    ReadStorageKeeps(s, a, k, false);
    WriteStorageKeeps(s1, a, k, v);
    ReadStorageKeeps(s2, a, k, true);
    if t != s1 {
      SameObj(if NetMetering(rev) then s3 else s2, t);
    }
  }

  lemma ReadStorageKeeps(s: Ibs, a: Address, k: U256, original: bool)
    ensures var t := GetStorage(s, a, k, original).0;
      t.selfDestructs == s.selfDestructs && t.db == s.db && forall b: Address :: Obj(t, b) == Obj(s, b)
  {
    hide GetStorage, Step;
    GetStorageStep(s, a, k, original);
    var t := GetStorage(s, a, k, original).0;
    forall b: Address ensures Obj(t, b) == Obj(s, b) {
      assert AddressRefines(t, s, b);
    }
  }

  lemma BalanceOnward(s: Ibs, a: Address, v: U256)
    ensures Onward(s, WriteBalance(s, a, v)) && Exists(WriteBalance(s, a, v), a)
  {
    BalanceSet(s, a, v);
    var acc := AccountOrEmpty(s, a).(balance := v);
    OnwardOne(s, WriteBalance(s, a, v), a, acc);
    assert CurrentAccount(WriteBalance(s, a, v), a) == Some(acc);
  }

  lemma NonceOnward(s: Ibs, a: Address, n: nat)
    requires n >= NonceOf(s, a)
    ensures Onward(s, SetNonce(s, a, n)) && NonceOf(SetNonce(s, a, n), a) == n && Exists(SetNonce(s, a, n), a)
  {
    NonceSet(s, a, n);
    var acc := AccountOrEmpty(s, a).(nonce := n);
    assert SetNonce(s, a, n).selfDestructs == s.selfDestructs;
    hide SetNonce;
    OnwardOne(s, SetNonce(s, a, n), a, acc);
    assert CurrentAccount(SetNonce(s, a, n), a) == Some(acc);
  }

  lemma CodeOnward(s: Ibs, a: Address, h: CodeHash)
    ensures Onward(s, SetCode(s, a, h))
  {
    CodeSet(s, a, h);
    assert SetCode(s, a, h).selfDestructs == s.selfDestructs;
    hide SetCode;
    OnwardOne(s, SetCode(s, a, h), a, AccountOrEmpty(s, a).(codeHash := h));
  }

  lemma NewAccountOnward(rev: Revision, s: Ibs, a: Address)
    requires NonceOf(s, a) == 0
    ensures Onward(s, NewAccount(rev, s, a)) && Exists(NewAccount(rev, s, a), a)
  {
    var t := CreateContract(s, a);
    ContractCreated(s, a);
    assert t.selfDestructs == s.selfDestructs;
    var blank := Account(0, AccountOrEmpty(s, a).balance, EMPTY_HASH);
    assert CurrentAccount(t, a) == Some(blank);
    hide CreateContract, SetNonce, Onward;
    OnwardOne(s, t, a, blank);
    NonceOnward(t, a, 1);
    OnwardTwice(s, t, SetNonce(t, a, 1));
  }

  /** A transfer leaves an account at its end, so that what runs there can store. */
  lemma TransferOnward(s: Ibs, from: Address, to: Address, v: U256)
    ensures Onward(s, Transfer(s, from, to, v).state) && Exists(Transfer(s, from, to, v).state, to)
  {
    hide WriteBalance, Onward, Exists;
    var s1 := SubtractBalance(s, from, v);
    BalanceOnward(s, from, WrappingSub(Live(EnsureObject(s, from), from).balance, v));
    BalanceOnward(s1, to, WrappingAdd(Live(EnsureObject(s1, to), to).balance, v));
    OnwardTwice(s, s1, AddBalance(s1, to, v));
  }

  lemma DestroyRecorded(s: Ibs, a: Address, beneficiary: Address)
    ensures Recorded(s, DestroyAccount(s, a, beneficiary))
  {
    var s0 := RecordSelfdestruct(s, a);
    assert Onward(s, s0) && a in s0.selfDestructs by {
      assert forall b: Address :: Obj(s0, b) == Obj(s, b);
    }
    hide Onward, WriteBalance, RecordSelfdestruct, Balance;
    var s1 := GetObject(s0, a).0;
    ReadOnward(s0, a);
    var balance := Balance(s1, a);
    var s2 := AddBalance(s1, beneficiary, balance);
    BalanceOnward(s1, beneficiary, WrappingAdd(Live(EnsureObject(s1, beneficiary), beneficiary).balance, balance));
    BalanceOnward(s2, a, 0);
    var s3 := WriteBalance(s2, a, 0);
    OnwardTwice(s, s0, s1);
    OnwardTwice(s, s1, s2);
    OnwardTwice(s, s2, s3);
    OnwardTwice(s0, s1, s2);
    OnwardTwice(s0, s2, s3);
    StillRecorded(s0, s3, a);
  }

  lemma StillRecorded(s: Ibs, t: Ibs, a: Address)
    requires Onward(s, t) && a in s.selfDestructs
    ensures t.selfDestructs != {}
  {
  }

  lemma RefinesOnward(s: Ibs, t: Ibs)
    requires Refines(t, s)
    ensures Onward(s, t)
  {
    forall a: Address ensures Obj(t, a) == Obj(s, a) {
      assert AddressRefines(t, s, a);
    }
    OnwardSame(s, t);
  }

  /** A frame that is taken back has burned nothing and goes back to what was recorded before it. */
  lemma SettleRecorded(start: Ibs, moved: Result, done: Result, success: bool)
    requires Inv(start) && Accounted(start, moved) && Accounted(moved.state, done)
    requires Onward(start, moved.state) && Recorded(moved.state, done)
    ensures Recorded(start, Settle(start, moved, done, success))
  {
    hide Inv, Step, Supply, RevertToSnapshot, Refines, Undoable, Onward;
    OnwardTwice(start, moved.state, done.state);
    if !success {
      Then(start, moved, done);
      RevertRestores(start, done.state);
      RefinesOnward(start, RevertToSnapshot(done.state, TakeSnapshot(start)));
    }
  }

  lemma {:induction false} PerformRecorded(rev: Revision, s: Ibs, m: Message)
    requires Bounded(s)
    ensures Recorded(s, Perform(rev, s, m))
    decreases m, 1
  {
    hide Onward, Bounded;
    match m {
      case Host(op) =>
        if FromInterpreter(op) {
          HostOnward(s, op);
        } else {
          OnwardSame(s, s);
        }
      case SetSlot(a, k, v) =>
        StoreOnward(rev, s, a, k, v);
        PerformStore(rev, s, a, k, v);
      case Destroy(a, beneficiary) => DestroyRecorded(s, a, beneficiary);
      case Call(_, _, _, _, _, _, _, _, _) => CallRecorded(rev, s, m);
      case Creation(_, _, _, _, _) => CreationRecorded(rev, s, m);
    }
  }

  lemma PerformStore(rev: Revision, s: Ibs, a: Address, k: U256, v: U256)
    ensures Perform(rev, s, SetSlot(a, k, v)) == Result(Sstore(rev, s, a, k, v), 0, true)
  {
    hide Sstore;
  }

  lemma {:induction false} CallRecorded(rev: Revision, s: Ibs, m: Message)
    requires Bounded(s) && m.Call?
    ensures Recorded(s, Perform(rev, s, m))
    decreases m, 0
  {
    hide Accounted, Inv, Transfer, TouchAddress, GetObject, Settle, Balance, Exists, PerformAll, Bounded, Onward;
    BoundedInv(s);
    var s1 := GetObject(s, m.caller).0;
    QuietAccounted(s, ReadAccount(m.caller));
    AccountedBounded(s, Result(s1, 0, true));
    BoundedInv(s1);
    ReadOnward(s, m.caller);
    if m.kind == DelegateCall || Balance(s, m.caller) >= m.value {
      if m.value == 0 && rev.AtLeast(Spurious) && !m.precompiled && !Exists(s1, m.codeAddress) {
        ReadOnward(s1, m.codeAddress);
        OnwardTwice(s, s1, GetObject(s1, m.codeAddress).0);
      } else {
        var moved :=
          if m.kind != CallOp then Result(s1, 0, true)
          else if m.isStatic then Result(TouchAddress(s1, m.recipient), 0, true)
          else Transfer(s1, m.caller, m.recipient, m.value);
        if m.kind != CallOp {
          Nothing(s1);
          OnwardSame(s1, s1);
        } else if m.isStatic {
          QuietAccounted(s1, TouchOp(m.recipient));
          TouchOnward(s1, m.recipient);
        } else {
          ReadKeepsBalance(s, m.caller);
          TransferAccounted(s1, m.caller, m.recipient, m.value);
          TransferOnward(s1, m.caller, m.recipient, m.value);
        }
        AccountedBounded(s1, moved);
        AllAccounted(rev, moved.state, m.body);
        AllRecorded(rev, moved.state, m.body);
        var done := PerformAll(rev, moved.state, m.body);
        SettleRecorded(s1, moved, done, m.success);
        OnwardTwice(s, s1, Settle(s1, moved, done, m.success).state);
      }
    }
  }

  lemma TouchOnward(s: Ibs, a: Address)
    ensures Onward(s, TouchAddress(s, a))
  {
    OnwardSame(s, TouchAddress(s, a));
  }

  /** The creator's nonce goes up for good once the endowment is there. */
  lemma BumpOnward(s: Ibs, creator: Address, contract: Address)
    ensures var s0 := GetObject(s, creator).0; var s1 := AccessAccount(SetNonce(s0, creator, NonceOf(s0, creator) + 1), contract);
      Onward(s, s1) && NonceOf(s1, creator) == NonceOf(s, creator) + 1
  {
    hide GetObject, SetNonce, NonceOf, Onward;
    var s0 := GetObject(s, creator).0;
    var bumped := SetNonce(s0, creator, NonceOf(s0, creator) + 1);
    ReadOnward(s, creator);
    SameNonce(s, creator);
    NonceOnward(s0, creator, NonceOf(s0, creator) + 1);
    OnwardTwice(s, s0, bumped);
    var s1 := AccessAccount(bumped, contract);
    WarmOnward(bumped, contract);
    OnwardTwice(s, bumped, s1);
  }

  lemma WarmOnward(s: Ibs, a: Address)
    ensures Onward(s, AccessAccount(s, a)) && forall b: Address :: NonceOf(AccessAccount(s, a), b) == NonceOf(s, b)
  {
    OnwardSame(s, AccessAccount(s, a));
  }

  lemma {:induction false} CreationRecorded(rev: Revision, s: Ibs, m: Message)
    requires Bounded(s) && m.Creation?
    ensures Recorded(s, Perform(rev, s, m))
    ensures Balance(s, m.creator) >= m.endowment ==> NonceOf(Perform(rev, s, m).state, m.creator) > NonceOf(s, m.creator)
    decreases m, 0
  {
    hide Accounted, Inv, Transfer, AccessAccount, SetNonce, SetCode, CreateContract, GetObject, Settle, Balance, PerformAll, Bounded, NonceOf,
      CodeHashOf, Onward, NewAccount;
    BoundedInv(s);
    var s0 := GetObject(s, m.creator).0;
    ReadOnward(s, m.creator);
    if Balance(s, m.creator) >= m.endowment {
      var s1 := AccessAccount(SetNonce(s0, m.creator, NonceOf(s0, m.creator) + 1), m.contract);
      SameNonce(s, m.creator);
      BumpAccounted(s, m.creator, m.contract);
      BumpOnward(s, m.creator, m.contract);
      AccountedBounded(s, Result(s1, 0, true));
      BoundedInv(s1);
      if NonceOf(s1, m.contract) != 0 || CodeHashOf(s1, m.contract) != EMPTY_HASH {
        ReadOnward(s1, m.contract);
        OnwardTwice(s, s1, GetObject(s1, m.contract).0);
        SameNonceAt(s1, GetObject(s1, m.contract).0, m.creator);
      } else {
        var s3 := NewAccount(rev, s1, m.contract);
        NewAccountAccounted(rev, s1, m.contract);
        NewAccountOnward(rev, s1, m.contract);
        AccountedBounded(s1, Result(s3, 0, true));
        var moved := Transfer(s3, m.creator, m.contract, m.endowment);
        BumpedBalance(rev, s, m.creator, m.contract);
        TransferAccounted(s3, m.creator, m.contract, m.endowment);
        TransferBurnsNothing(s3, m.creator, m.contract, m.endowment);
        TransferOnward(s3, m.creator, m.contract, m.endowment);
        OnwardTwice(s1, s3, moved.state);
        Then(s1, Result(s3, 0, true), moved);
        AccountedBounded(s3, moved);
        AllAccounted(rev, moved.state, m.body);
        AllRecorded(rev, moved.state, m.body);
        var done := PerformAll(rev, moved.state, m.body);
        var kept := if m.deployed.Some? then done.(state := SetCode(done.state, m.contract, m.deployed.value)) else done;
        DeployAccounted(moved.state, done, m.contract, m.deployed);
        DeployRecorded(moved.state, done, m.contract, m.deployed);
        ResultParts(moved);
        SettleRecorded(s1, moved, kept, m.deployed.Some?);
        var r := Settle(s1, moved, kept, m.deployed.Some?);
        OnwardTwice(s, s1, r.state);
        SameNonceAt(s1, r.state, m.creator);
      }
    }
  }

  lemma SameNonceAt(s: Ibs, t: Ibs, a: Address)
    requires Onward(s, t)
    ensures NonceOf(s, a) <= NonceOf(t, a)
  {
  }

  lemma DeployRecorded(s: Ibs, done: Result, contract: Address, deployed: Option<CodeHash>)
    requires Recorded(s, done)
    ensures Recorded(s, if deployed.Some? then done.(state := SetCode(done.state, contract, deployed.value)) else done)
  {
    hide Onward, SetCode;
    if deployed.Some? {
      CodeOnward(done.state, contract, deployed.value);
      OnwardTwice(s, done.state, SetCode(done.state, contract, deployed.value));
      OnwardNonempty(done.state, SetCode(done.state, contract, deployed.value));
    }
  }

  lemma OnwardNonempty(s: Ibs, t: Ibs)
    requires Onward(s, t)
    ensures s.selfDestructs != {} ==> t.selfDestructs != {}
  {
  }

  lemma {:induction false} AllRecorded(rev: Revision, s: Ibs, messages: seq<Message>)
    requires Bounded(s)
    ensures Recorded(s, PerformAll(rev, s, messages))
    decreases messages, 2
  {
    hide Accounted, Bounded, Inv, Perform, Onward;
    if messages == [] {
      OnwardSame(s, s);
    } else {
      var first := Perform(rev, s, messages[0]);
      PerformAccounted(rev, s, messages[0]);
      PerformRecorded(rev, s, messages[0]);
      AccountedBounded(s, first);
      AllRecorded(rev, first.state, messages[1..]);
      var rest := PerformAll(rev, first.state, messages[1..]);
      OnwardTwice(s, first.state, rest.state);
      OnwardNonempty(first.state, rest.state);
    }
  }
}
