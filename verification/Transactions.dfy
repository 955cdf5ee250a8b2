/** Nested runs of operations with snapshots, and the invariant of every state they reach. */
module Transactions {
  import opened Basics
  import opened StateTypes
  import opened Journal
  import opened Undoing

  /** What holds in every state reached within a block. */
  ghost predicate Inv(s: Ibs) {
    && Positive(s)
    && (forall a: Address :: a in s.objects ==> s.objects[a].initial == s.db.ReadAccount(a))
    && (forall a: Address, k: U256 :: k in St(s, a).committed ==> InitialOf(s, a, k) == Base(s, a, k))
    && AllSettled(s)
  }

  lemma InvRefines(s: Ibs, t: Ibs)
    requires Refines(s, t) && Inv(t)
    ensures Inv(s)
  {
    forall a: Address | a in s.objects ensures s.objects[a].initial == s.db.ReadAccount(a) {
      assert AddressRefines(s, t, a);
    }
    forall a: Address, k: U256
      ensures k in St(s, a).committed ==> InitialOf(s, a, k) == Base(s, a, k)
      ensures k in St(s, a).current ==> Settled(s, a, k)
      ensures !Exists(s, a) ==> Base(s, a, k) == 0
    {
      assert AddressRefines(s, t, a);
      assert SlotRefines(s, t, a, k);
    }
  }

  datatype Op =
    | ReadAccount(address: Address)
    | ReadStorage(address: Address, key: U256, original: bool)
    | SetBalance(address: Address, amount: U256)
    | AddToBalance(address: Address, amount: U256)
    | SubtractFromBalance(address: Address, amount: U256)
    | ChangeNonce(address: Address, nonce: nat)
    | ChangeCode(address: Address, codeHash: CodeHash)
    | NewContract(address: Address)
    | SelfDestruct(address: Address)
    | TouchOp(address: Address)
    | WarmAccount(address: Address)
    | WarmSlot(address: Address, key: U256)
    | WriteSlot(address: Address, key: U256, value: U256)
    | AddLog(log: Log)
    | SetRefund(refund: nat)
    | Attempt(body: seq<Op>, reverted: bool)

  function AddBalance(s: Ibs, a: Address, amount: U256): Ibs {
    WriteBalance(s, a, WrappingAdd(Live(EnsureObject(s, a), a).balance, amount))
  }

  function SubtractBalance(s: Ibs, a: Address, amount: U256): Ibs {
    WriteBalance(s, a, WrappingSub(Live(EnsureObject(s, a), a).balance, amount))
  }

  function Apply(s: Ibs, op: Op): Ibs
    decreases op, 0
  {
    match op
    case ReadAccount(a) => GetObject(s, a).0
    case ReadStorage(a, k, original) => GetStorage(s, a, k, original).0
    case SetBalance(a, v) => WriteBalance(s, a, v)
    case AddToBalance(a, v) => AddBalance(s, a, v)
    case SubtractFromBalance(a, v) => SubtractBalance(s, a, v)
    case ChangeNonce(a, n) => SetNonce(s, a, n)
    case ChangeCode(a, h) => SetCode(s, a, h)
    case NewContract(a) => CreateContract(s, a)
    case SelfDestruct(a) => RecordSelfdestruct(s, a)
    case TouchOp(a) => TouchAddress(s, a)
    case WarmAccount(a) => AccessAccount(s, a)
    case WarmSlot(a, k) => AccessStorage(s, a, k)
    case WriteSlot(a, k, v) => SetStorage(s, a, k, v)
    case AddLog(l) => s.(logs := s.logs + [l])
    case SetRefund(r) => s.(refund := r)
    case Attempt(body, reverted) =>
      var t := Run(s, body);
      if reverted then RevertToSnapshot(t, TakeSnapshot(s)) else t
  }

  function Run(s: Ibs, ops: seq<Op>): Ibs
    decreases ops, 1
  {
    if ops == [] then s else Run(Apply(s, ops[0]), ops[1..])
  }

  // The invariant

  lemma ObjectChangeInv(s: Ibs, s': Ibs, a: Address)
    requires Inv(s) && s'.db == s.db && s'.storage == s.storage && s'.incarnations == s.incarnations
    requires a in s'.objects && s'.objects[a].initial == s.db.ReadAccount(a) && s'.objects[a].current.Some?
    requires forall b: Address :: b != a ==> Obj(s', b) == Obj(s, b) && (b in s'.objects <==> b in s.objects)
    ensures Inv(s')
  {
    forall b: Address, k: U256
      ensures Base(s', b, k) == Base(s, b, k)
      ensures St(s', b) == St(s, b)
    {
      BaseOfKnown(s, b, k);
      BaseOfKnown(s', b, k);
    }
    forall b: Address, k: U256 ensures k in St(s', b).committed ==> InitialOf(s', b, k) == Base(s', b, k) {
      assert k in St(s, b).committed ==> InitialOf(s, b, k) == Base(s, b, k);
    }
    forall b: Address, k: U256 ensures k in St(s', b).current ==> Settled(s', b, k) {
      assert k in St(s, b).current ==> Settled(s, b, k);
    }
    forall b: Address, k: U256 ensures !Exists(s', b) ==> Base(s', b, k) == 0 {
      assert b != a && !Exists(s, b) ==> Base(s, b, k) == 0;
    }
  }

  lemma BaseOfKnown(s: Ibs, a: Address, k: U256)
    requires a in s.objects ==> s.objects[a].initial == s.db.ReadAccount(a)
    ensures Base(s, a, k) == if s.db.ReadAccount(a).None? || a in s.incarnations then 0 else s.db.ReadStorage(a, k)
  {
  }

  lemma SameCoreInv(s: Ibs, s': Ibs)
    requires Inv(s) && s'.db == s.db && s'.storage == s.storage && s'.incarnations == s.incarnations && s'.objects == s.objects
    ensures Inv(s')
  {
    forall a: Address, k: U256 ensures Base(s', a, k) == Base(s, a, k) && St(s', a) == St(s, a) && (Exists(s', a) <==> Exists(s, a)) {
    }
    forall a: Address, k: U256 ensures k in St(s', a).committed ==> InitialOf(s', a, k) == Base(s', a, k) {
      assert k in St(s, a).committed ==> InitialOf(s, a, k) == Base(s, a, k);
    }
    forall a: Address, k: U256 ensures k in St(s', a).current ==> Settled(s', a, k) {
      assert k in St(s, a).current ==> Settled(s, a, k);
    }
    forall a: Address, k: U256 ensures !Exists(s', a) ==> Base(s', a, k) == 0 {
      assert !Exists(s, a) ==> Base(s, a, k) == 0;
    }
  }

  lemma GetObjectInv(s: Ibs, a: Address)
    requires Inv(s)
    ensures Inv(GetObject(s, a).0)
  {
    hide Inv, Step, Refines;
    GetObjectStep(s, a);
    InvRefines(GetObject(s, a).0, s);
  }

  lemma KnownInitial(s: Ibs, a: Address)
    requires Inv(s)
    ensures a in s.objects ==> s.objects[a].initial == s.db.ReadAccount(a)
    ensures Positive(s) && AllSettled(s)
  {
  }

  lemma EnsureObjectInv(s: Ibs, a: Address)
    requires Inv(s)
    ensures var s' := EnsureObject(s, a); Inv(s') && a in s'.objects && s'.objects[a].current.Some?
  {
    hide Inv;
    GetObjectInv(s, a);
    var (s1, o) := GetObject(s, a);
    KnownInitial(s1, a);
    var s' := EnsureObject(s, a);
    if o.None? || o.value.current.None? {
      ObjectChangeInv(s1, s', a);
    }
  }

  lemma SetLiveInv(s: Ibs, a: Address, acc: Account, s': Ibs)
    requires Inv(s) && a in s.objects
    requires s'.db == s.db && s'.storage == s.storage && s'.incarnations == s.incarnations && s'.objects == SetLive(s, a, acc).objects
    ensures Inv(s')
  {
    hide Inv;
    KnownInitial(s, a);
    ObjectChangeInv(s, s', a);
  }

  lemma WriteBalanceInv(s: Ibs, a: Address, value: U256)
    requires Inv(s)
    ensures Inv(WriteBalance(s, a, value))
  {
    hide Inv;
    EnsureObjectInv(s, a);
    var s1 := EnsureObject(s, a);
    SetLiveInv(s1, a, Live(s1, a).(balance := value), WriteBalance(s, a, value));
  }

  lemma WriteAccountInv(s: Ibs, a: Address, acc: Account)
    requires Inv(s)
    ensures Inv(WriteAccount(s, a, acc))
  {
    hide Inv;
    EnsureObjectInv(s, a);
    SetLiveInv(EnsureObject(s, a), a, acc, WriteAccount(s, a, acc));
  }

  lemma CreateContractInv(s: Ibs, a: Address)
    requires Inv(s)
    ensures Inv(CreateContract(s, a))
  {
    GetObjectInv(s, a);
    var s1, s' := GetObject(s, a).0, CreateContract(s, a);
    forall b: Address | b != a ensures Obj(s', b) == Obj(s1, b) && St(s', b) == St(s1, b) {
    }
    forall b: Address, k: U256 ensures k in St(s', b).committed ==> InitialOf(s', b, k) == Base(s', b, k) {
      assert b != a ==> k in St(s1, b).committed ==> InitialOf(s1, b, k) == Base(s1, b, k);
    }
    forall b: Address, k: U256 ensures k in St(s', b).current ==> Settled(s', b, k) {
      assert b != a ==> k in St(s1, b).current ==> Settled(s1, b, k);
    }
    forall b: Address, k: U256 ensures !Exists(s', b) ==> Base(s', b, k) == 0 {
      assert b != a ==> !Exists(s1, b) ==> Base(s1, b, k) == 0;
    }
  }

  lemma SetStorageInv(s: Ibs, a: Address, k: U256, value: U256)
    requires Inv(s)
    ensures Inv(SetStorage(s, a, k, value))
  {
    hide Step, Refines;
    GetStorageStep(s, a, k, false);
    SettledAfterRead(s, a, k);
    var (s1, previous) := GetStorage(s, a, k, false);
    InvRefines(s1, s);
    if previous != value {
      PendingInv(s1, SetStorage(s, a, k, value), a, k, value);
    }
  }

  lemma PendingInv(s: Ibs, s': Ibs, a: Address, k: U256, value: U256)
    requires Inv(s) && Settled(s, a, k)
    requires s'.db == s.db && s'.objects == s.objects && s'.incarnations == s.incarnations
    requires s'.storage == s.storage[a := St(s, a).(current := St(s, a).current[k := value])]
    ensures Inv(s')
  {
    forall b: Address, x: U256
      ensures Base(s', b, x) == Base(s, b, x) && St(s', b).committed == St(s, b).committed && (Exists(s', b) <==> Exists(s, b))
    {
    }
    forall b: Address, x: U256 ensures x in St(s', b).committed ==> InitialOf(s', b, x) == Base(s', b, x) {
      assert x in St(s, b).committed ==> InitialOf(s, b, x) == Base(s, b, x);
    }
    forall b: Address, x: U256 ensures x in St(s', b).current ==> Settled(s', b, x) {
      assert x in St(s, b).current ==> Settled(s, b, x);
    }
    forall b: Address, x: U256 ensures !Exists(s', b) ==> Base(s', b, x) == 0 {
      assert !Exists(s, b) ==> Base(s, b, x) == 0;
    }
  }

  // Runs

  /** One operation keeps the invariant and records how to get back. */
  lemma {:induction false} ApplySteps(s: Ibs, op: Op)
    requires Inv(s)
    ensures Inv(Apply(s, op)) && Step(s, Apply(s, op))
    decreases op, 0
  {
    hide Inv, Step, Refines, WriteBalance, WriteAccount, EnsureObject, GetObject, GetStorage, CreateContract, SetStorage;
    KnownInitial(s, 0);
    match op {
      case ReadAccount(a) => GetObjectInv(s, a); GetObjectStep(s, a);
      case ReadStorage(a, k, original) => GetStorageStep(s, a, k, original); InvRefines(Apply(s, op), s);
      case SetBalance(a, v) => WriteBalanceInv(s, a, v); WriteBalanceStep(s, a, v);
      case AddToBalance(a, v) =>
        var w := WrappingAdd(Live(EnsureObject(s, a), a).balance, v);
        WriteBalanceInv(s, a, w); WriteBalanceStep(s, a, w);
      case SubtractFromBalance(a, v) =>
        var w := WrappingSub(Live(EnsureObject(s, a), a).balance, v);
        WriteBalanceInv(s, a, w); WriteBalanceStep(s, a, w);
      case ChangeNonce(a, n) =>
        var acc := Live(EnsureObject(s, a), a).(nonce := n);
        WriteAccountInv(s, a, acc); WriteAccountStep(s, a, acc);
      case ChangeCode(a, h) =>
        var acc := Live(EnsureObject(s, a), a).(codeHash := h);
        WriteAccountInv(s, a, acc); WriteAccountStep(s, a, acc);
      case NewContract(a) => CreateContractInv(s, a); CreateContractStep(s, a);
      case SelfDestruct(a) => SameCoreInv(s, Apply(s, op)); RecordSelfdestructStep(s, a);
      case TouchOp(a) => SameCoreInv(s, Apply(s, op)); TouchStep(s, a);
      case WarmAccount(a) => SameCoreInv(s, Apply(s, op)); AccessAccountStep(s, a);
      case WarmSlot(a, k) => SameCoreInv(s, Apply(s, op)); AccessStorageStep(s, a, k);
      case WriteSlot(a, k, v) => SetStorageInv(s, a, k, v); SetStorageStep(s, a, k, v);
      case AddLog(l) => ListsOnly(s, s.logs + [l], s.refund);
      case SetRefund(r) => ListsOnly(s, s.logs, r);
      case Attempt(body, reverted) =>
        RunSteps(s, body);
        if reverted {
          RevertRestores(s, Run(s, body));
        }
    }
  }

  lemma ListsOnly(s: Ibs, logs: seq<Log>, refund: nat)
    requires Inv(s) && s.logs <= logs
    ensures var s' := s.(logs := logs, refund := refund); Inv(s') && Step(s, s')
  {
    hide Inv, Step, Refines;
    var s' := s.(logs := logs, refund := refund);
    SameCoreInv(s, s');
    RefinesIgnores(s, s.journal, logs, refund);
    QuietStep(s, s');
  }

  /** Going back to a snapshot after a run restores what the state answered when it was taken. */
  lemma RevertRestores(s: Ibs, t: Ibs)
    requires Inv(s) && Step(s, t)
    ensures var r := RevertToSnapshot(t, TakeSnapshot(s));
      && Undoable(t, t.journal[|s.journal|..])
      && Refines(r, s) && r.journal == s.journal && r.logs == s.logs && r.refund == s.refund
      && Inv(r) && Step(s, r)
  {
    hide Inv, Refines, Undoable, Undo;
    var r := RevertToSnapshot(t, TakeSnapshot(s));
    var u := Undo(t, t.journal[|s.journal|..]);
    assert t.journal[..|s.journal|] == s.journal && t.logs[..|s.logs|] == s.logs;
    RefinesIgnores(u, s.journal, s.logs, s.refund);
    RefinesTransitive(r, u, s);
    InvRefines(r, s);
    QuietStep(s, r);
  }

  lemma {:induction false} RunSteps(s: Ibs, ops: seq<Op>)
    requires Inv(s)
    ensures Inv(Run(s, ops)) && Step(s, Run(s, ops))
    decreases ops, 1
  {
    hide Inv, Step, Refines;
    if ops == [] {
      RefinesReflexive(s);
      QuietStep(s, s);
    } else {
      var s1 := Apply(s, ops[0]);
      ApplySteps(s, ops[0]);
      RunSteps(s1, ops[1..]);
      StepsCompose(s, s1, Run(s, ops));
    }
  }

  /** Two states give the same answers to every question a transaction may ask. */
  ghost predicate SameAnswers(s: Ibs, t: Ibs) {
    && (forall a: Address :: Exists(s, a) == Exists(t, a) && (Exists(t, a) ==> Obj(s, a).value.current == Obj(t, a).value.current))
    && (forall a: Address, k: U256, original: bool :: ReadSlot(s, a, k, original) == ReadSlot(t, a, k, original))
    && (forall a: Address :: Keys(s, a) == Keys(t, a))
    && s.accessedAddresses == t.accessedAddresses
    && s.selfDestructs == t.selfDestructs
    && (forall a: Address :: a != RIPEMD_ADDRESS ==> (a in s.touched <==> a in t.touched))
    && s.logs == t.logs
    && s.refund == t.refund
  }

  lemma RefinesAnswers(s: Ibs, t: Ibs)
    requires Refines(s, t) && s.logs == t.logs && s.refund == t.refund
    ensures SameAnswers(s, t)
  {
    forall a: Address ensures Obj(s, a) == Obj(t, a) {
      assert AddressRefines(s, t, a);
    }
    forall a: Address, k: U256, original: bool ensures ReadSlot(s, a, k, original) == ReadSlot(t, a, k, original) {
      assert AddressRefines(s, t, a);
      assert SlotRefines(s, t, a, k);
    }
    forall a: Address | a != RIPEMD_ADDRESS ensures a in s.touched <==> a in t.touched {
      assert a in s.touched - {RIPEMD_ADDRESS} <==> a in t.touched - {RIPEMD_ADDRESS};
    }
  }

  /**
   Whatever a run did, with snapshots nested in it or not, going back to the snapshot taken before it
   restores every answer; and on the way every recorded change could be taken back.
   */
  lemma AttemptRestoresAnswers(s: Ibs, body: seq<Op>)
    requires Inv(s)
    ensures SameAnswers(Apply(s, Attempt(body, true)), s)
    ensures s.journal <= Run(s, body).journal && Undoable(Run(s, body), Run(s, body).journal[|s.journal|..])
    ensures Inv(Apply(s, Attempt(body, true)))
    ensures RIPEMD_ADDRESS in Apply(s, Attempt(body, true)).touched <==> RIPEMD_ADDRESS in Run(s, body).touched
  {
    RunSteps(s, body);
    UndoneTouch(s, Run(s, body));
    hide Inv, Refines, SameAnswers, Undoable;
    StepExtends(s, Run(s, body));
    RevertRestores(s, Run(s, body));
    RefinesAnswers(Apply(s, Attempt(body, true)), s);
  }

  /** Taking changes back leaves the one address touched that is not recorded. */
  lemma {:induction false} UndoKeepsRipemd(s: Ibs, deltas: seq<Delta>)
    requires Undoable(s, deltas)
    ensures RIPEMD_ADDRESS in Undo(s, deltas).touched <==> RIPEMD_ADDRESS in s.touched
    decreases |deltas|
  {
    var n := |deltas|;
    if n > 0 {
      var d, front := deltas[n - 1], deltas[..n - 1];
      if ClosesIncarnation(d) {
        assert front[..n - 2] == deltas[..n - 2] && front[n - 2] == deltas[n - 2];
        UndoKeepsRipemd(Revert(deltas[n - 2], Revert(d, s)), deltas[..n - 2]);
      } else {
        UndoKeepsRipemd(Revert(d, s), front);
      }
    }
  }

  lemma UndoneTouch(s: Ibs, t: Ibs)
    requires Step(s, t)
    ensures RIPEMD_ADDRESS in RevertToSnapshot(t, TakeSnapshot(s)).touched <==> RIPEMD_ADDRESS in t.touched
  {
    hide Undo, Undoable, Refines;
    UndoKeepsRipemd(t, t.journal[|s.journal|..]);
  }

  /** An attempt that does nothing but touch an address leaves it touched when it is taken back exactly if it is this one. */
  lemma RipemdStaysTouched(db: Db, a: Address)
    ensures a !in Fresh(db).touched && (a in Apply(Fresh(db), Attempt([TouchOp(a)], true)).touched <==> a == 3)
  {
    var s, body := Fresh(db), [TouchOp(a)];
    FreshInv(db);
    assert Run(s, body) == TouchAddress(s, a) by {
      assert body[1..] == [];
      assert Run(s, body) == Run(Apply(s, body[0]), body[1..]);
    }
    hide Inv;
    AttemptRestoresAnswers(s, body);
  }

  lemma StepExtends(s: Ibs, t: Ibs)
    requires Step(s, t)
    ensures s.journal <= t.journal
  {
  }

  /** The state in which a block begins. */
  function Fresh(db: Db): Ibs {
    Ibs(db, map[], map[], map[], [], {}, [], {}, 0, {}, map[])
  }

  lemma FreshInv(db: Db)
    ensures Inv(Fresh(db))
  {
  }
}
