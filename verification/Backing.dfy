/** Storage is cached only together with the account it belongs to, through every run and every undo. */
module Backing {
  import opened Basics
  import opened StateTypes
  import opened Journal
  import opened Transactions
  import opened BlockEnd

  predicate Known(s: Ibs, a: Address) {
    a in s.db.accounts ==> a in s.objects
  }

  predicate DeltaBacked(d: Delta, s: Ibs) {
    match d
    case Create(a) => a !in s.db.accounts
    case StorageChange(a, _, _) => Known(s, a)
    case StorageWipe(a, _) => Known(s, a)
    case _ => true
  }

  ghost predicate Backed(s: Ibs) {
    && (forall a :: a in s.storage ==> Known(s, a))
    && (forall d :: d in s.journal ==> DeltaBacked(d, s))
  }

  lemma BackedGrows(s: Ibs, s': Ibs, added: seq<Delta>)
    requires Backed(s) && s'.db == s.db
    requires forall a: Address :: Known(s, a) ==> Known(s', a)
    requires s'.journal == s.journal + added
    requires forall d :: d in added ==> DeltaBacked(d, s')
    requires forall a :: a in s'.storage ==> a in s.storage || a in s'.objects
    ensures Backed(s')
  {
  }

  lemma GetObjectBacked(s: Ibs, a: Address)
    requires Backed(s)
    ensures GetObject(s, a).0.db == s.db && Backed(GetObject(s, a).0) && Known(GetObject(s, a).0, a)
  {
    BackedGrows(s, GetObject(s, a).0, []);
  }

  lemma EnsureObjectBacked(s: Ibs, a: Address)
    requires Backed(s)
    ensures EnsureObject(s, a).db == s.db && Backed(EnsureObject(s, a)) && a in EnsureObject(s, a).objects
  {
    GetObjectBacked(s, a);
    var (s1, o) := GetObject(s, a);
    if o.None? {
      BackedGrows(s1, EnsureObject(s, a), [Create(a)]);
    } else if o.value.current.None? {
      BackedGrows(s1, EnsureObject(s, a), [Update(a, o.value)]);
    }
  }

  lemma TouchBacked(s: Ibs, a: Address)
    requires Backed(s)
    ensures TouchAddress(s, a).db == s.db && Backed(TouchAddress(s, a))
  {
  }

  lemma WriteBalanceBacked(s: Ibs, a: Address, v: U256)
    requires Backed(s)
    ensures WriteBalance(s, a, v).db == s.db && Backed(WriteBalance(s, a, v))
  {
    hide EnsureObject, Backed;
    EnsureObjectBacked(s, a);
    var s1 := EnsureObject(s, a);
    var acc := Live(s1, a);
    var s2 := SetLive(s1, a, acc.(balance := v)).(journal := s1.journal + [UpdateBalance(a, acc.balance)]);
    BackedGrows(s1, s2, [UpdateBalance(a, acc.balance)]);
    TouchBacked(s2, a);
  }

  lemma WriteAccountBacked(s: Ibs, a: Address, acc: Account)
    requires Backed(s)
    ensures WriteAccount(s, a, acc).db == s.db && Backed(WriteAccount(s, a, acc))
  {
    hide EnsureObject, Backed;
    EnsureObjectBacked(s, a);
    var s1 := EnsureObject(s, a);
    BackedGrows(s1, WriteAccount(s, a, acc), [Update(a, s1.objects[a])]);
  }

  lemma CreateContractBacked(s: Ibs, a: Address)
    requires Backed(s)
    ensures CreateContract(s, a).db == s.db && Backed(CreateContract(s, a))
  {
    GetObjectBacked(s, a);
    var (s1, prev) := GetObject(s, a);
    var s' := CreateContract(s, a);
    forall d | d in s'.journal ensures DeltaBacked(d, s') {
      assert d in s1.journal || d == Incarnation(a) || d == Create(a) || (d.Update? || d.StorageWipe? || d.StorageCreate?);
    }
  }

  lemma GetStorageBacked(s: Ibs, a: Address, k: U256, original: bool)
    requires Backed(s)
    ensures GetStorage(s, a, k, original).0.db == s.db && Backed(GetStorage(s, a, k, original).0) && Known(GetStorage(s, a, k, original).0, a)
  {
    GetObjectBacked(s, a);
    var (s1, o) := GetObject(s, a);
    BackedGrows(s1, GetStorage(s, a, k, original).0, []);
  }

  lemma SetStorageBacked(s: Ibs, a: Address, k: U256, v: U256)
    requires Backed(s)
    ensures SetStorage(s, a, k, v).db == s.db && Backed(SetStorage(s, a, k, v))
  {
    GetStorageBacked(s, a, k, false);
    hide GetStorage;
    var (s1, previous) := GetStorage(s, a, k, false);
    var s' := SetStorage(s, a, k, v);
    forall d | d in s'.journal ensures DeltaBacked(d, s') {
      assert previous != v ==> s'.journal == s1.journal + [StorageChange(a, k, previous)];
    }
  }

  // Undo

  lemma RevertBacked(s: Ibs, d: Delta)
    requires Backed(s) && DeltaBacked(d, s)
    ensures var s' := Revert(d, s); Backed(s') && s'.db == s.db && s'.journal == s.journal && forall a :: Known(s, a) ==> Known(s', a)
  {
  }

  lemma {:induction false} UndoBacked(s: Ibs, deltas: seq<Delta>)
    requires Backed(s) && forall d :: d in deltas ==> DeltaBacked(d, s)
    ensures var s' := Undo(s, deltas); Backed(s') && s'.db == s.db && s'.journal == s.journal
    decreases |deltas|
  {
    if deltas != [] {
      var d := deltas[|deltas| - 1];
      RevertBacked(s, d);
      hide Backed, Revert;
      forall x | x in deltas[..|deltas| - 1] ensures DeltaBacked(x, Revert(d, s)) {
        assert x in deltas;
      }
      UndoBacked(Revert(d, s), deltas[..|deltas| - 1]);
    }
  }

  lemma RevertToSnapshotBacked(s: Ibs, snapshot: Snapshot)
    requires Backed(s)
    ensures RevertToSnapshot(s, snapshot).db == s.db && Backed(RevertToSnapshot(s, snapshot))
  {
    if snapshot.journalSize <= |s.journal| && snapshot.logSize <= |s.logs| {
      UndoBacked(s, s.journal[snapshot.journalSize..]);
      var u, r := Undo(s, s.journal[snapshot.journalSize..]), RevertToSnapshot(s, snapshot);
      forall d | d in r.journal ensures DeltaBacked(d, r) {
        assert d in u.journal && DeltaBacked(d, u);
      }
    }
  }

  // Runs

  lemma {:induction false} ApplyBacked(s: Ibs, op: Op)
    requires Backed(s)
    ensures Apply(s, op).db == s.db && Backed(Apply(s, op))
    decreases op, 0
  {
    hide EnsureObject, GetObject, GetStorage, WriteBalance, WriteAccount, CreateContract, SetStorage, RevertToSnapshot;
    match op {
      case ReadAccount(a) => GetObjectBacked(s, a);
      case ReadStorage(a, k, original) => GetStorageBacked(s, a, k, original);
      case SetBalance(a, v) => WriteBalanceBacked(s, a, v);
      case AddToBalance(a, v) => WriteBalanceBacked(s, a, WrappingAdd(Live(EnsureObject(s, a), a).balance, v));
      case SubtractFromBalance(a, v) => WriteBalanceBacked(s, a, WrappingSub(Live(EnsureObject(s, a), a).balance, v));
      case ChangeNonce(a, n) => WriteAccountBacked(s, a, Live(EnsureObject(s, a), a).(nonce := n));
      case ChangeCode(a, h) => WriteAccountBacked(s, a, Live(EnsureObject(s, a), a).(codeHash := h));
      case NewContract(a) => CreateContractBacked(s, a);
      case WriteSlot(a, k, v) => SetStorageBacked(s, a, k, v);
      case Attempt(body, reverted) =>
        RunBacked(s, body);
        RevertToSnapshotBacked(Run(s, body), TakeSnapshot(s));
      case _ =>
    }
  }

  lemma {:induction false} RunBacked(s: Ibs, ops: seq<Op>)
    requires Backed(s)
    ensures Run(s, ops).db == s.db && Backed(Run(s, ops))
    decreases ops, 1
  {
    if ops != [] {
      hide Backed;
      ApplyBacked(s, ops[0]);
      RunBacked(Apply(s, ops[0]), ops[1..]);
    }
  }

  lemma DestructBacked(s: Ibs, a: Address)
    requires Backed(s)
    ensures Destruct(s, a).db == s.db && Backed(Destruct(s, a))
  {
  }

  lemma {:induction false} PlayBacked(s: Ibs, steps: seq<BlockStep>)
    requires Backed(s)
    ensures Backed(Play(s, steps)) && Play(s, steps).db == s.db
    decreases |steps|
  {
    if steps != [] {
      hide Run, Destruct;
      match steps[0] {
        case Transaction(ops) =>
          RunBacked(ClearSubstate(s), ops);
          PlayBacked(Run(ClearSubstate(s), ops), steps[1..]);
        case Removal(a) =>
          DestructBacked(s, a);
          PlayBacked(Destruct(s, a), steps[1..]);
        case EndTransaction =>
          PlayBacked(Finalize(s), steps[1..]);
      }
    }
  }
}
