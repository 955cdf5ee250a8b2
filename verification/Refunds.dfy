/** Net gas metering of storage writes: the refund counter covers every refund that may be taken back. */
module Refunds {
  import opened Basics
  import opened StateTypes
  import opened Journal
  import opened Undoing
  import opened Transactions

  const G_SLOAD_TANGERINE_WHISTLE: nat := 200
  const G_SLOAD_ISTANBUL: nat := 800
  const WARM_STORAGE_READ_COST: nat := 100
  const COLD_SLOAD_COST: nat := 2100
  const ACCESS_LIST_STORAGE_KEY_COST: nat := 1900
  const G_SSET: nat := 20_000
  const G_SRESET: nat := 5_000
  const R_SCLEAR: nat := 15_000

  predicate NetMetering(rev: Revision) {
    rev.AtLeast(Istanbul) || rev == Constantinople
  }

  function SloadCost(rev: Revision): nat {
    if rev.AtLeast(Berlin) then WARM_STORAGE_READ_COST
    else if rev.AtLeast(Istanbul) then G_SLOAD_ISTANBUL
    else G_SLOAD_TANGERINE_WHISTLE
  }

  function ResetGas(rev: Revision): nat {
    if rev.AtLeast(Berlin) then G_SRESET - COLD_SLOAD_COST else G_SRESET
  }

  function ClearsRefund(rev: Revision): nat {
    if rev.AtLeast(London) then ResetGas(rev) + ACCESS_LIST_STORAGE_KEY_COST else R_SCLEAR
  }

  /** Refund counter after a write that changes `current` to `value`; negative if a subtraction underflows. */
  function RefundAfter(rev: Revision, refund: int, original: U256, current: U256, value: U256): int {
    if !NetMetering(rev) then
      if current != 0 && value == 0 then refund + R_SCLEAR else refund
    else if original == current then
      if original != 0 && value == 0 then refund + ClearsRefund(rev) else refund
    else
      var afterClear :=
        if original != 0 then
          var taken := if current == 0 then refund - ClearsRefund(rev) else refund;
          if value == 0 then taken + ClearsRefund(rev) else taken
        else refund;
      if original == value then
        afterClear + (if original == 0 then G_SSET - SloadCost(rev) else ResetGas(rev) - SloadCost(rev))
      else afterClear
  }

  /** The write takes back a refund given before. */
  predicate TakesBack(rev: Revision, original: U256, current: U256, value: U256) {
    NetMetering(rev) && current != value && original != current && original != 0 && current == 0
  }

  /** The storage write of the interpreter: reads, writes, and adjusts the refund counter. */
  function Sstore(rev: Revision, s: Ibs, a: Address, k: U256, value: U256): Ibs {
    var (s1, current) := GetStorage(s, a, k, false);
    if current == value then s1
    else
      var s2 := SetStorage(s1, a, k, value);
      if !NetMetering(rev) then
        s2.(refund := ToNat(RefundAfter(rev, s2.refund, 0, current, value)))
      else
        var (s3, original) := GetStorage(s2, a, k, true);
        s3.(refund := ToNat(RefundAfter(rev, s3.refund, original, current, value)))
  }

  function ToNat(n: int): nat {
    if n < 0 then 0 else n
  }

  /** A store is one of the account that is executing, so it does nothing where there is no account. */
  datatype Action =
    | Plain(op: Op)
    | Store(address: Address, key: U256, value: U256)
    | Frame(body: seq<Action>, reverted: bool)

  /** Operations other than storage writes and refunds. */
  predicate IsPlain(op: Op) {
    !op.WriteSlot? && !op.SetRefund? && !op.Attempt?
  }

  function Act(rev: Revision, s: Ibs, action: Action): Ibs
    decreases action, 0
  {
    match action
    case Plain(op) => if IsPlain(op) then Apply(s, op) else s
    case Store(a, k, v) => if Exists(s, a) then Sstore(rev, s, a, k, v) else s
    case Frame(body, reverted) =>
      var t := ActAll(rev, s, body);
      if reverted then RevertToSnapshot(t, TakeSnapshot(s)) else t
  }

  function ActAll(rev: Revision, s: Ibs, actions: seq<Action>): Ibs
    decreases actions, 1
  {
    if actions == [] then s else ActAll(rev, Act(rev, s, actions[0]), actions[1..])
  }

  lemma {:induction false} ActsInTurn(rev: Revision, s: Ibs, first: seq<Action>, action: Action)
    ensures ActAll(rev, s, first + [action]) == Act(rev, ActAll(rev, s, first), action)
    decreases |first|
  {
    hide Act;
    if first == [] {
      assert first + [action] == [action] && [action][1..] == [];
    } else {
      assert (first + [action])[0] == first[0] && (first + [action])[1..] == first[1..] + [action];
      ActsInTurn(rev, Act(rev, s, first[0]), first[1..], action);
    }
  }

  /** No refund subtraction of the run underflows. */
  ghost predicate NoUnderflow(rev: Revision, s: Ibs, actions: seq<Action>)
    decreases actions
  {
    actions == [] ||
    (&& (match actions[0]
         case Plain(_) => true
         case Store(a, k, v) =>
           TakesBack(rev, ReadSlot(s, a, k, true), ReadSlot(s, a, k, false), v) ==> ClearsRefund(rev) <= s.refund
         case Frame(body, _) => NoUnderflow(rev, s, body))
     && NoUnderflow(rev, Act(rev, s, actions[0]), actions[1..]))
  }

  /** Slots that were not zero when the transaction began and are zero now. */
  function Cleared(s: Ibs): set<(Address, U256)> {
    set a, k | a in s.storage && k in s.storage[a].current && s.storage[a].current[k] == 0 && OriginalOf(s, a, k) != 0 :: (a, k)
  }

  /** Where there is no account no slot has a value, original or pending. */
  ghost predicate AbsentZero(s: Ibs) {
    forall a: Address, k: U256 :: !Exists(s, a) ==> ZeroAt(s, a, k)
  }

  ghost predicate Covered(rev: Revision, s: Ibs) {
    && Inv(s)
    && AbsentZero(s)
    && (NetMetering(rev) ==> s.refund >= ClearsRefund(rev) * |Cleared(s)|)
  }

  lemma SubsetCard<T>(a: set<T>, b: set<T>)
    requires a <= b
    ensures |a| <= |b|
    decreases |a|
  {
    if a != {} {
      var x :| x in a;
      SubsetCard(a - {x}, b - {x});
    }
  }

  lemma CoveredBySubset(rev: Revision, s: Ibs, t: Ibs)
    requires Covered(rev, t) && Inv(s) && AbsentZero(s) && s.refund == t.refund && Cleared(s) <= Cleared(t)
    ensures Covered(rev, s)
  {
    hide Inv, AbsentZero, Cleared, ClearsRefund, NetMetering;
    SubsetCard(Cleared(s), Cleared(t));
    TimesLe(ClearsRefund(rev), |Cleared(s)|, |Cleared(t)|);
  }

  lemma TimesLe(x: nat, y: nat, z: nat)
    requires y <= z
    ensures x * y <= x * z
  {
  }

  lemma RefinesCovered(rev: Revision, s: Ibs, t: Ibs)
    requires Refines(s, t) && Covered(rev, t) && s.refund == t.refund
    ensures Covered(rev, s)
  {
    hide Inv;
    InvRefines(s, t);
    forall a: Address, k: U256 ensures !Exists(s, a) ==> ZeroAt(s, a, k) {
      assert AddressRefines(s, t, a);
      assert SlotRefines(s, t, a, k);
      assert !Exists(t, a) ==> ZeroAt(t, a, k);
    }
    forall x | x in Cleared(s) ensures x in Cleared(t) {
      assert AddressRefines(s, t, x.0);
      assert SlotRefines(s, t, x.0, x.1);
      assert !Exists(t, x.0) ==> ZeroAt(t, x.0, x.1);
    }
    CoveredBySubset(rev, s, t);
  }

  /** An operation that leaves storage as it is, or drops that of one address with its incarnation. */
  lemma StorageShrinks(rev: Revision, s: Ibs, s': Ibs)
    requires Covered(rev, s) && Inv(s') && KeepsSlots(s, s')
    ensures Covered(rev, s')
  {
    forall a: Address, k: U256
      ensures OriginalOf(s', a, k) == OriginalOf(s, a, k) || OriginalOf(s', a, k) == 0
      ensures !Exists(s', a) ==> ZeroAt(s', a, k)
    {
      InvBase(s, a, k);
      InvBase(s', a, k);
      assert !Exists(s, a) ==> ZeroAt(s, a, k);
    }
    forall x | x in Cleared(s') ensures x in Cleared(s) {
      assert St(s', x.0) == St(s, x.0);
    }
    CoveredBySubset(rev, s', s);
  }

  lemma InvBase(s: Ibs, a: Address, k: U256)
    requires Inv(s)
    ensures Base(s, a, k) == if s.db.ReadAccount(a).None? || a in s.incarnations then 0 else s.db.ReadStorage(a, k)
  {
    BaseOfKnown(s, a, k);
  }

  /** Accounts that exist stay, and storage is kept or dropped with an incarnation. */
  ghost predicate KeepsSlots(s: Ibs, s': Ibs) {
    && s'.refund == s.refund && s'.db == s.db
    && (forall a: Address :: Exists(s, a) ==> Exists(s', a))
    && (forall a: Address ::
      (St(s', a) == St(s, a) && (a in s'.incarnations <==> a in s.incarnations)) || (a !in s'.storage && a in s'.incarnations))
  }

  lemma EnsureKeeps(s: Ibs, a: Address)
    ensures KeepsSlots(s, EnsureObject(s, a)) && a in EnsureObject(s, a).objects
  {
  }

  lemma SetLiveKeeps(s: Ibs, t: Ibs, t': Ibs, a: Address, acc: Account)
    requires KeepsSlots(s, t) && a in t.objects && t'.objects == SetLive(t, a, acc).objects
    requires t'.refund == t.refund && t'.db == t.db && t'.storage == t.storage && t'.incarnations == t.incarnations
    ensures KeepsSlots(s, t')
  {
  }

  lemma WriteBalanceKeeps(s: Ibs, a: Address, v: U256)
    ensures KeepsSlots(s, WriteBalance(s, a, v))
  {
    hide KeepsSlots, EnsureObject;
    EnsureKeeps(s, a);
    var t := EnsureObject(s, a);
    SetLiveKeeps(s, t, WriteBalance(s, a, v), a, Live(t, a).(balance := v));
  }

  lemma WriteAccountKeeps(s: Ibs, a: Address, acc: Account)
    ensures KeepsSlots(s, WriteAccount(s, a, acc))
  {
    hide KeepsSlots, EnsureObject;
    EnsureKeeps(s, a);
    SetLiveKeeps(s, EnsureObject(s, a), WriteAccount(s, a, acc), a, acc);
  }

  lemma CreateKeeps(s: Ibs, a: Address)
    ensures KeepsSlots(s, CreateContract(s, a)) && KeepsSlots(s, GetObject(s, a).0)
  {
    ReadKeeps(s, a);
    CreatedKeeps(s, a);
  }

  lemma ReadKeeps(s: Ibs, a: Address)
    ensures KeepsSlots(s, GetObject(s, a).0)
  {
  }

  lemma CreatedKeeps(s: Ibs, a: Address)
    ensures KeepsSlots(s, CreateContract(s, a))
  {
    var t := CreateContract(s, a);
    assert t.storage == s.storage - {a} && a in t.incarnations;
    forall b: Address ensures Exists(s, b) ==> Exists(t, b) {
    }
  }

  lemma OthersKeep(s: Ibs, s': Ibs)
    requires s'.refund == s.refund && s'.db == s.db && s'.storage == s.storage && s'.incarnations == s.incarnations && s'.objects == s.objects
    ensures KeepsSlots(s, s')
  {
  }

  lemma PlainKeeps(s: Ibs, op: Op)
    requires IsPlain(op) && !op.ReadStorage?
    ensures KeepsSlots(s, Apply(s, op))
  {
    hide KeepsSlots, WriteBalance, WriteAccount, EnsureObject, CreateContract, GetObject;
    match op {
      case ReadAccount(a) => CreateKeeps(s, a);
      case SetBalance(a, v) => WriteBalanceKeeps(s, a, v);
      case AddToBalance(a, v) => WriteBalanceKeeps(s, a, WrappingAdd(Live(EnsureObject(s, a), a).balance, v));
      case SubtractFromBalance(a, v) => WriteBalanceKeeps(s, a, WrappingSub(Live(EnsureObject(s, a), a).balance, v));
      case ChangeNonce(a, n) => WriteAccountKeeps(s, a, Live(EnsureObject(s, a), a).(nonce := n));
      case ChangeCode(a, h) => WriteAccountKeeps(s, a, Live(EnsureObject(s, a), a).(codeHash := h));
      case NewContract(a) => CreateKeeps(s, a);
      case _ => OthersKeep(s, Apply(s, op));
    }
  }

  lemma PlainCovered(rev: Revision, s: Ibs, op: Op)
    requires Covered(rev, s) && IsPlain(op)
    ensures Covered(rev, Apply(s, op))
  {
    hide Covered, Inv, Step, Refines, Apply;
    CoveredInv(rev, s);
    ApplySteps(s, op);
    if op.ReadStorage? {
      ReadCovered(rev, s, op.address, op.key, op.original);
      ApplyRead(s, op);
    } else {
      PlainKeeps(s, op);
      StorageShrinks(rev, s, Apply(s, op));
    }
  }

  lemma ApplyRead(s: Ibs, op: Op)
    requires op.ReadStorage?
    ensures Apply(s, op) == GetStorage(s, op.address, op.key, op.original).0
  {
  }

  lemma CoveredInv(rev: Revision, s: Ibs)
    requires Covered(rev, s)
    ensures Inv(s)
  {
  }

  lemma ReadCovered(rev: Revision, s: Ibs, a: Address, k: U256, original: bool)
    requires Covered(rev, s)
    ensures Covered(rev, GetStorage(s, a, k, original).0)
  {
    hide Covered, Step, Refines;
    GetStorageStep(s, a, k, original);
    RefinesCovered(rev, GetStorage(s, a, k, original).0, s);
  }

  /** What a write does to the slots, seen from a state in which the slot has been read. */
  lemma WriteSlots(s: Ibs, a: Address, k: U256, value: U256)
    requires Inv(s) && ReadSlot(s, a, k, false) != value
    ensures var t := SetStorage(s, a, k, value);
      && Inv(t) && t.refund == s.refund
      && (forall b: Address :: Exists(t, b) == Exists(s, b))
      && (forall b: Address, x: U256 :: OriginalOf(t, b, x) == OriginalOf(s, b, x))
      && (forall b: Address, x: U256 :: x in St(t, b).current <==> x in St(s, b).current || (b == a && x == k))
      && (forall b: Address, x: U256 :: x in St(t, b).current ==> St(t, b).current[x] == if b == a && x == k then value else St(s, b).current[x])
  {
    hide Step, Inv, GetStorage, Refines;
    GetStorageStep(s, a, k, false);
    SetStorageInv(s, a, k, value);
    var s1 := GetStorage(s, a, k, false).0;
    var t := SetStorage(s, a, k, value);
    forall b: Address, x: U256 ensures OriginalOf(t, b, x) == OriginalOf(s, b, x) && Exists(t, b) == Exists(s, b) {
      RefinesOriginal(s1, s, b, x);
      assert OriginalOf(t, b, x) == OriginalOf(s1, b, x);
    }
    forall b: Address ensures Exists(t, b) == Exists(s, b) {
      RefinesOriginal(s1, s, b, 0);
    }
    ReadKeepsPending(s, a, k);
  }

  lemma RefinesOriginal(s: Ibs, t: Ibs, a: Address, k: U256)
    requires Refines(s, t)
    ensures OriginalOf(s, a, k) == OriginalOf(t, a, k) && Exists(s, a) == Exists(t, a)
  {
    assert AddressRefines(s, t, a);
    assert SlotRefines(s, t, a, k);
  }

  lemma ReadKeepsPending(s: Ibs, a: Address, k: U256)
    ensures forall b: Address :: St(GetStorage(s, a, k, false).0, b).current == St(s, b).current
  {
    hide GetStorage, St;
    forall b: Address ensures St(GetStorage(s, a, k, false).0, b).current == St(s, b).current {
      ReadKeepsPendingAt(s, a, k, b);
    }
  }

  lemma ReadKeepsPendingAt(s: Ibs, a: Address, k: U256, b: Address)
    ensures St(GetStorage(s, a, k, false).0, b).current == St(s, b).current
  {
    assert GetObject(s, a).0.storage == s.storage && GetObject(s, a).0.db == s.db;
    hide GetObject;
    if b != a {
      assert St(GetStorage(s, a, k, false).0, b) == St(s, b);
    }
  }

  /** A write changes the set of cleared slots by its own slot at most. */
  lemma WriteCleared(s: Ibs, t: Ibs, a: Address, k: U256, value: U256)
    requires Inv(s) && AbsentZero(s) && Exists(s, a) && ReadSlot(s, a, k, false) != value && t == SetStorage(s, a, k, value)
    ensures Inv(t) && AbsentZero(t) && t.refund == s.refund
    ensures ReadSlot(s, a, k, true) != 0 && value == 0 ==> Cleared(t) == Cleared(s) + {(a, k)}
    ensures !(ReadSlot(s, a, k, true) != 0 && value == 0) ==> Cleared(t) == Cleared(s) - {(a, k)}
    ensures ReadSlot(t, a, k, true) == ReadSlot(s, a, k, true)
    ensures (a, k) in Cleared(s) <==> ReadSlot(s, a, k, true) != 0 && ReadSlot(s, a, k, false) == 0
  {
    hide Inv, SetStorage;
    WriteSlots(s, a, k, value);
    forall b: Address, x: U256 | !Exists(t, b) ensures ZeroAt(t, b, x) {
      assert ZeroAt(s, b, x);
    }
    forall x: (Address, U256) ensures x in Cleared(t) <==>
      if x == (a, k) then OriginalOf(s, a, k) != 0 && value == 0 else x in Cleared(s)
    {
      ClearedIs(s, x.0, x.1);
      ClearedIs(t, x.0, x.1);
    }
    ClearedIs(s, a, k);
  }

  lemma ClearedIs(s: Ibs, a: Address, k: U256)
    ensures (a, k) in Cleared(s) <==> k in St(s, a).current && St(s, a).current[k] == 0 && OriginalOf(s, a, k) != 0
  {
  }

  /** The counter moves with the number of cleared slots. */
  lemma RefundArithmetic(rev: Revision, refund: nat, n: nat, n': nat, original: U256, current: U256, value: U256)
    requires NetMetering(rev) && current != value && refund >= ClearsRefund(rev) * n
    requires original != 0 && current == 0 ==> n >= 1
    requires n' == n + (if original != 0 && value == 0 then 1 else 0) - (if original != 0 && current == 0 then 1 else 0)
    ensures TakesBack(rev, original, current, value) ==> ClearsRefund(rev) <= refund
    ensures RefundAfter(rev, refund, original, current, value) >= ClearsRefund(rev) * n'
  {
    var c := ClearsRefund(rev);
    assert c * (n + 1) == c * n + c;
    if n >= 1 {
      assert c * (n - 1) == c * n - c;
      assert c * n >= c;
    }
    assert ResetGas(rev) >= SloadCost(rev) && G_SSET >= SloadCost(rev);
  }

  lemma ReadSame(s: Ibs, t: Ibs, a: Address, k: U256)
    requires Refines(s, t)
    ensures forall original: bool :: ReadSlot(s, a, k, original) == ReadSlot(t, a, k, original)
  {
    assert AddressRefines(s, t, a);
    assert SlotRefines(s, t, a, k);
  }

  lemma ClearedCounts(before: set<(Address, U256)>, after: set<(Address, U256)>, x: (Address, U256), was: bool, now: bool)
    requires was <==> x in before
    requires after == if now then before + {x} else before - {x}
    ensures |after| == |before| + (if now then 1 else 0) - (if was then 1 else 0)
    ensures was ==> |before| >= 1
  {
    if was && now {
      assert after == before;
    }
  }

  lemma SetRefundCovered(rev: Revision, s: Ibs, r: nat)
    requires Inv(s) && AbsentZero(s) && (NetMetering(rev) ==> r >= ClearsRefund(rev) * |Cleared(s)|)
    ensures Covered(rev, s.(refund := r))
  {
    var s' := s.(refund := r);
    SameCoreInv(s, s');
    forall a: Address, k: U256 ensures OriginalOf(s', a, k) == OriginalOf(s, a, k) && (!Exists(s', a) ==> ZeroAt(s', a, k)) {
      assert !Exists(s, a) ==> ZeroAt(s, a, k);
    }
    forall x: (Address, U256) ensures x in Cleared(s') <==> x in Cleared(s) {
      ClearedIs(s, x.0, x.1);
      ClearedIs(s', x.0, x.1);
    }
    assert Cleared(s') == Cleared(s);
  }

  lemma CoveredParts(rev: Revision, s: Ibs)
    requires Covered(rev, s)
    ensures Inv(s) && AbsentZero(s) && (NetMetering(rev) ==> s.refund >= ClearsRefund(rev) * |Cleared(s)|)
  {
  }

  /** A storage write keeps the counter above what may be taken back, and takes back no more than is there. */
  lemma StoreCovered(rev: Revision, s: Ibs, a: Address, k: U256, value: U256)
    requires Covered(rev, s) && Exists(s, a)
    ensures Covered(rev, Sstore(rev, s, a, k, value))
    ensures TakesBack(rev, ReadSlot(s, a, k, true), ReadSlot(s, a, k, false), value) ==> ClearsRefund(rev) <= s.refund
  {
    hide Inv, Step, Refines, SetStorage, GetStorage, AbsentZero, Cleared, Covered, RefundAfter, ReadSlot, Exists;
    GetStorageStep(s, a, k, false);
    RefinesOriginal(GetStorage(s, a, k, false).0, s, a, k);
    var (s1, current) := GetStorage(s, a, k, false);
    RefinesCovered(rev, s1, s);
    ReadSame(s1, s, a, k);
    if current != value {
      CoveredParts(rev, s1);
      var s2 := SetStorage(s1, a, k, value);
      WriteCleared(s1, s2, a, k, value);
      if NetMetering(rev) {
        StoreNet(rev, s1, s2, a, k, ReadSlot(s, a, k, true), current, value);
      } else {
        RefundGrows(rev, s2.refund, current, value);
        SetRefundCovered(rev, s2, RefundAfter(rev, s2.refund, 0, current, value));
      }
    }
  }

  lemma RefundGrows(rev: Revision, refund: nat, current: U256, value: U256)
    requires !NetMetering(rev)
    ensures RefundAfter(rev, refund, 0, current, value) >= refund
  {
  }

  lemma StoreNet(rev: Revision, s1: Ibs, s2: Ibs, a: Address, k: U256, original: U256, current: U256, value: U256)
    requires NetMetering(rev) && current != value && Inv(s2) && AbsentZero(s2) && s2.refund == s1.refund
    requires s1.refund >= ClearsRefund(rev) * |Cleared(s1)|
    requires Cleared(s2) == if original != 0 && value == 0 then Cleared(s1) + {(a, k)} else Cleared(s1) - {(a, k)}
    requires (a, k) in Cleared(s1) <==> original != 0 && current == 0
    requires ReadSlot(s2, a, k, true) == original
    ensures TakesBack(rev, original, current, value) ==> ClearsRefund(rev) <= s1.refund
    ensures var (s3, o) := GetStorage(s2, a, k, true);
      o == original && Covered(rev, s3.(refund := ToNat(RefundAfter(rev, s3.refund, o, current, value))))
  {
    hide Inv, Step, Refines, GetStorage, AbsentZero, Cleared, Covered, RefundAfter, TakesBack, ReadSlot;
    ClearedCounts(Cleared(s1), Cleared(s2), (a, k), original != 0 && current == 0, original != 0 && value == 0);
    RefundArithmetic(rev, s1.refund, |Cleared(s1)|, |Cleared(s2)|, original, current, value);
    GetStorageStep(s2, a, k, true);
    var s3 := GetStorage(s2, a, k, true).0;
    var r := RefundAfter(rev, s1.refund, original, current, value);
    assert ClearsRefund(rev) * |Cleared(s2)| >= 0;
    SetRefundCovered(rev, s2, r);
    RefinesIgnores(s3, s3.journal, s3.logs, r);
    RefinesIgnores(s2, s2.journal, s2.logs, r);
    RefinesTransitive(s3.(refund := r), s3, s2);
    RefinesTransitive(s3.(refund := r), s2, s2.(refund := r));
    RefinesCovered(rev, s3.(refund := r), s2.(refund := r));
  }

  /** A storage write is recorded like the operations it consists of. */
  lemma StoreSteps(rev: Revision, s: Ibs, a: Address, k: U256, value: U256)
    requires Inv(s)
    ensures Step(s, Sstore(rev, s, a, k, value)) && Inv(Sstore(rev, s, a, k, value))
  {
    hide Inv, Step, Refines, SetStorage, GetStorage, RefundAfter;
    GetStorageStep(s, a, k, false);
    var (s1, current) := GetStorage(s, a, k, false);
    InvRefines(s1, s);
    if current != value {
      KnownInitial(s1, a);
      SetStorageStep(s1, a, k, value);
      SetStorageInv(s1, a, k, value);
      var s2 := SetStorage(s1, a, k, value);
      StepsCompose(s, s1, s2);
      GetStorageStep(s2, a, k, true);
      var s3 := if NetMetering(rev) then GetStorage(s2, a, k, true).0 else s2;
      if NetMetering(rev) {
        InvRefines(s3, s2);
        StepsCompose(s, s2, s3);
      }
      var s4 := Sstore(rev, s, a, k, value);
      ListsOnly(s3, s3.logs, s4.refund);
      StepsCompose(s, s3, s4);
    }
  }

  lemma {:induction false} ActCovered(rev: Revision, s: Ibs, action: Action)
    requires Covered(rev, s)
    ensures Covered(rev, Act(rev, s, action)) && Step(s, Act(rev, s, action))
    ensures action.Frame? ==> NoUnderflow(rev, s, action.body)
    decreases action, 0
  {
    hide Covered, Inv, Step, Refines, Apply, Sstore, NoUnderflow;
    CoveredInv(rev, s);
    match action {
      case Plain(op) =>
        if IsPlain(op) {
          PlainCovered(rev, s, op);
          ApplySteps(s, op);
        } else {
          RefinesReflexive(s);
          QuietStep(s, s);
        }
      case Store(a, k, v) =>
        if Exists(s, a) {
          StoreCovered(rev, s, a, k, v);
          StoreSteps(rev, s, a, k, v);
        } else {
          RefinesReflexive(s);
          QuietStep(s, s);
        }
      case Frame(body, reverted) =>
        RefundNeverUnderflows(rev, s, body);
        if reverted {
          RevertRestores(s, ActAll(rev, s, body));
          RefinesCovered(rev, RevertToSnapshot(ActAll(rev, s, body), TakeSnapshot(s)), s);
        }
    }
  }

  lemma StoreTakesNoMore(rev: Revision, s: Ibs, a: Address, k: U256, value: U256)
    requires Covered(rev, s)
    ensures TakesBack(rev, ReadSlot(s, a, k, true), ReadSlot(s, a, k, false), value) ==> ClearsRefund(rev) <= s.refund
  {
    hide Covered, ClearsRefund;
    if Exists(s, a) {
      StoreCovered(rev, s, a, k, value);
    }
  }

  /** Over any run, frames that are taken back and contracts that are created included. */
  lemma {:induction false} RefundNeverUnderflows(rev: Revision, s: Ibs, actions: seq<Action>)
    requires Covered(rev, s)
    ensures Covered(rev, ActAll(rev, s, actions)) && Step(s, ActAll(rev, s, actions))
    ensures NoUnderflow(rev, s, actions)
    decreases actions, 1
  {
    hide Covered, Inv, Step, Refines, Act, ReadSlot, TakesBack;
    CoveredInv(rev, s);
    if actions == [] {
      RefinesReflexive(s);
      QuietStep(s, s);
    } else {
      var s1 := Act(rev, s, actions[0]);
      ActCovered(rev, s, actions[0]);
      if actions[0].Store? {
        StoreTakesNoMore(rev, s, actions[0].address, actions[0].key, actions[0].value);
      }
      RefundNeverUnderflows(rev, s1, actions[1..]);
      StepsCompose(s, s1, ActAll(rev, s, actions));
    }
  }

  /** At the start of a transaction nothing is pending and the counter is zero. */
  lemma StartCovered(rev: Revision, s: Ibs)
    requires Inv(s) && AbsentZero(s) && forall a :: a in s.storage ==> s.storage[a].current == map[]
    ensures Covered(rev, s)
  {
    assert Cleared(s) == {};
  }
}
