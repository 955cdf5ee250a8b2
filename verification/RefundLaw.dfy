/** What storage writes do to the refund counter, in amounts of gas. */
module RefundLaw {
  import opened Basics
  import opened StateTypes
  import opened Journal
  import opened Undoing
  import opened Transactions
  import opened Refunds
  import opened Effects

  /** Refunds of a revision that meters storage net: for a cleared slot, and for bringing a slot back to zero or to another original value. */
  datatype Schedule = Schedule(clearing: nat, backToZero: nat, backToValue: nat)

  function ScheduleOf(rev: Revision): Option<Schedule> {
    match rev
    case Constantinople => Some(Schedule(15_000, 19_800, 4_800))
    case Istanbul => Some(Schedule(15_000, 19_200, 4_200))
    case Berlin => Some(Schedule(15_000, 19_900, 2_800))
    case London => Some(Schedule(4_800, 19_900, 2_800))
    case Shanghai => Some(Schedule(4_800, 19_900, 2_800))
    case _ => None
  }

  /** What a slot is worth that had a value when the transaction began and has none now. */
  function ClearingOf(c: Schedule, original: U256, current: U256): nat {
    if original != 0 && current == 0 then c.clearing else 0
  }

  /** What a write earns that brings a slot back to its original value. */
  function ReturnOf(c: Schedule, original: U256, current: U256, value: U256): nat {
    if current == value || value != original then 0 else if original == 0 then c.backToZero else c.backToValue
  }

  /** The counter after one write to a slot with these values. */
  ghost predicate Refunded(rev: Revision, before: nat, after: nat, original: U256, current: U256, value: U256) {
    match ScheduleOf(rev)
    case None => after == before + if current != 0 && value == 0 then 15_000 else 0
    case Some(c) => after + ClearingOf(c, original, current) == before + ClearingOf(c, original, value) + ReturnOf(c, original, current, value)
  }

  /** The amounts that the branches of a write add and subtract come to this. */
  lemma AmountsAgree(rev: Revision, refund: nat, original: U256, current: U256, value: U256)
    requires current != value
    requires TakesBack(rev, original, current, value) ==> ClearsRefund(rev) <= refund
    ensures Refunded(rev, refund, ToNat(RefundAfter(rev, refund, original, current, value)), original, current, value)
  {
  }

  lemma NoMetering(rev: Revision, refund: int, original: U256, current: U256, value: U256)
    requires !NetMetering(rev)
    ensures RefundAfter(rev, refund, 0, current, value) == RefundAfter(rev, refund, original, current, value)
  {
  }

  /** All accounts are as they were, and all slots but one, which has its original value still. */
  ghost predicate OneSlot(s: Ibs, t: Ibs, a: Address, k: U256, value: U256) {
    && (forall b: Address :: CurrentAccount(t, b) == CurrentAccount(s, b))
    && (forall b: Address, x: U256 :: ReadSlot(t, b, x, true) == ReadSlot(s, b, x, true))
    && (forall b: Address, x: U256 :: ReadSlot(t, b, x, false) == if b == a && x == k then value else ReadSlot(s, b, x, false))
  }

  lemma ReadsSame(s: Ibs, a: Address, k: U256, original: bool)
    requires Exists(s, a)
    ensures var (t, v) := GetStorage(s, a, k, original);
      && v == ReadSlot(s, a, k, original) && t.refund == s.refund
      && (forall b: Address :: CurrentAccount(t, b) == CurrentAccount(s, b))
      && (forall b: Address, x: U256, o: bool :: ReadSlot(t, b, x, o) == ReadSlot(s, b, x, o))
  {
    hide GetStorage, Refines, Step;
    GetStorageStep(s, a, k, original);
    RefinesReads(GetStorage(s, a, k, original).0, s);
    ReadCounter(s, a, k, original);
  }

  lemma ReadCounter(s: Ibs, a: Address, k: U256, original: bool)
    ensures GetStorage(s, a, k, original).0.refund == s.refund
    ensures Exists(s, a) ==> GetStorage(s, a, k, original).1 == ReadSlot(s, a, k, original)
  {
  }

  lemma WriteCounter(s: Ibs, a: Address, k: U256, value: U256)
    ensures SetStorage(s, a, k, value).refund == s.refund
  {
  }

  /** One write: the slot has the new value, no other answer changes, and the counter moves by the amounts of the schedule. */
  lemma StoreRefund(rev: Revision, s: Ibs, a: Address, k: U256, value: U256)
    requires Covered(rev, s) && Exists(s, a)
    ensures var t := Sstore(rev, s, a, k, value);
      && OneSlot(s, t, a, k, value)
      && Refunded(rev, s.refund, t.refund, ReadSlot(s, a, k, true), ReadSlot(s, a, k, false), value)
  {
    hide Covered, GetStorage, SetStorage, RefundAfter, ReadSlot, CurrentAccount, Refunded, TakesBack, ClearsRefund, Exists;
    var original, current := ReadSlot(s, a, k, true), ReadSlot(s, a, k, false);
    ReadsSame(s, a, k, false);
    var s1 := GetStorage(s, a, k, false).0;
    if current == value {
      NothingRefunded(rev, s.refund, original, current);
    } else {
      StoreCovered(rev, s, a, k, value);
      StillThere(s, s1, a);
      SlotWritten(s1, a, k, value);
      WriteCounter(s1, a, k, value);
      var s2 := SetStorage(s1, a, k, value);
      StillThere(s1, s2, a);
      ReadsSame(s2, a, k, true);
      AmountsAgree(rev, s.refund, original, current, value);
      if NetMetering(rev) {
        var s3 := GetStorage(s2, a, k, true).0;
        CounterSet(s3, ToNat(RefundAfter(rev, s.refund, original, current, value)));
      } else {
        NoMetering(rev, s.refund, original, current, value);
        CounterSet(s2, ToNat(RefundAfter(rev, s.refund, original, current, value)));
      }
    }
  }

  lemma NothingRefunded(rev: Revision, refund: nat, original: U256, current: U256)
    ensures Refunded(rev, refund, refund, original, current, current)
  {
  }

  lemma StillThere(s: Ibs, t: Ibs, a: Address)
    requires Exists(s, a) && CurrentAccount(t, a) == CurrentAccount(s, a)
    ensures Exists(t, a)
  {
  }

  lemma CounterSet(s: Ibs, refund: nat)
    ensures var t := s.(refund := refund);
      && t.refund == refund
      && (forall b: Address :: CurrentAccount(t, b) == CurrentAccount(s, b))
      && (forall b: Address, x: U256, o: bool :: ReadSlot(t, b, x, o) == ReadSlot(s, b, x, o))
  {
    var t := s.(refund := refund);
    assert forall b: Address :: Obj(t, b) == Obj(s, b) && St(t, b) == St(s, b);
  }

  // Many writes

  datatype Write = Write(address: Address, key: U256, value: U256)

  function Stores(rev: Revision, s: Ibs, writes: seq<Write>): Ibs
    decreases |writes|
  {
    if writes == [] then s
    else Stores(rev, Sstore(rev, s, writes[0].address, writes[0].key, writes[0].value), writes[1..])
  }

  /** What is earned by the writes that bring slots back to their original values. */
  function Earned(rev: Revision, c: Schedule, s: Ibs, writes: seq<Write>): nat
    decreases |writes|
  {
    if writes == [] then 0
    else
      var w := writes[0];
      ReturnOf(c, ReadSlot(s, w.address, w.key, true), ReadSlot(s, w.address, w.key, false), w.value)
      + Earned(rev, c, Sstore(rev, s, w.address, w.key, w.value), writes[1..])
  }

  /** How many of these values, in turn, bring a slot back to its original value. */
  function Returns(original: U256, current: U256, values: seq<U256>): nat
    decreases |values|
  {
    if values == [] then 0
    else (if values[0] == original && current != original then 1 else 0) + Returns(original, values[0], values[1..])
  }

  function Clears(current: U256, values: seq<U256>): nat
    decreases |values|
  {
    if values == [] then 0
    else (if current != 0 && values[0] == 0 then 1 else 0) + Clears(values[0], values[1..])
  }

  function ToSlot(a: Address, k: U256, values: seq<U256>): seq<Write> {
    seq(|values|, i requires 0 <= i < |values| => Write(a, k, values[i]))
  }

  /**
   * Any number of writes to one slot: what the counter gains depends only on the value when the transaction began, the values before the
   * first and after the last write, and on how often the slot came back to its original value in between.
   */
  lemma {:induction false} SlotRefunds(rev: Revision, s: Ibs, a: Address, k: U256, values: seq<U256>)
    requires Covered(rev, s) && Exists(s, a)
    ensures var t, original, current := Stores(rev, s, ToSlot(a, k, values)), ReadSlot(s, a, k, true), ReadSlot(s, a, k, false);
      var last := if values == [] then current else values[|values| - 1];
      && Covered(rev, t) && OneSlot(s, t, a, k, last)
      && match ScheduleOf(rev)
         case None => t.refund == s.refund + Clears(current, values) * 15_000
         case Some(c) =>
           t.refund + ClearingOf(c, original, current)
           == s.refund + ClearingOf(c, original, last) + Returns(original, current, values) * (if original == 0 then c.backToZero else c.backToValue)
    decreases |values|
  {
    hide Covered, Sstore, ReadSlot, CurrentAccount, Exists, ScheduleOf;
    if values == [] {
      assert ToSlot(a, k, values) == [];
    } else {
      var t := Sstore(rev, s, a, k, values[0]);
      StoreRefund(rev, s, a, k, values[0]);
      StoreCovered(rev, s, a, k, values[0]);
      StillThere(s, t, a);
      SlotRefunds(rev, t, a, k, values[1..]);
      assert ToSlot(a, k, values)[1..] == ToSlot(a, k, values[1..]);
      assert ToSlot(a, k, values)[0] == Write(a, k, values[0]);
      if ScheduleOf(rev).Some? {
        MoreReturns(ScheduleOf(rev).value, ReadSlot(s, a, k, true), ReadSlot(s, a, k, false), values);
      }
    }
  }

  lemma MoreReturns(c: Schedule, original: U256, current: U256, values: seq<U256>)
    requires values != []
    ensures var earned := if original == 0 then c.backToZero else c.backToValue;
      Returns(original, current, values) * earned
      == ReturnOf(c, original, current, values[0]) + Returns(original, values[0], values[1..]) * earned
  {
    var earned := if original == 0 then c.backToZero else c.backToValue;
    var more := Returns(original, values[0], values[1..]);
    assert (more + 1) * earned == more * earned + earned;
  }

  /** Any writes to any slots: the counter follows the number of slots that are cleared, and gains what was earned on the way. */
  lemma {:induction false} StoresRefund(rev: Revision, c: Schedule, s: Ibs, writes: seq<Write>)
    requires Covered(rev, s) && ScheduleOf(rev) == Some(c) && forall i :: 0 <= i < |writes| ==> Exists(s, writes[i].address)
    ensures var t := Stores(rev, s, writes);
      Covered(rev, t) && t.refund + c.clearing * |Cleared(s)| == s.refund + c.clearing * |Cleared(t)| + Earned(rev, c, s, writes)
    decreases |writes|
  {
    hide Covered, Sstore, Exists, ScheduleOf, Cleared;
    if writes != [] {
      var w := writes[0];
      var t := Sstore(rev, s, w.address, w.key, w.value);
      StoreCovered(rev, s, w.address, w.key, w.value);
      ClearedByStore(rev, c, s, w.address, w.key, w.value);
      StoresRefund(rev, c, t, writes[1..]);
    }
  }

  lemma ClearedByStore(rev: Revision, c: Schedule, s: Ibs, a: Address, k: U256, value: U256)
    requires Covered(rev, s) && Exists(s, a) && ScheduleOf(rev) == Some(c)
    ensures var t := Sstore(rev, s, a, k, value);
      && (forall b: Address :: Exists(t, b) <==> Exists(s, b))
      && t.refund + c.clearing * |Cleared(s)|
         == s.refund + c.clearing * |Cleared(t)| + ReturnOf(c, ReadSlot(s, a, k, true), ReadSlot(s, a, k, false), value)
  {
    hide Sstore, Cleared, Covered, ReadSlot, ScheduleOf, OneSlot, Exists;
    var t := Sstore(rev, s, a, k, value);
    var original, current := ReadSlot(s, a, k, true), ReadSlot(s, a, k, false);
    StoreRefund(rev, s, a, k, value);
    StoreCovered(rev, s, a, k, value);
    SameAccounts(s, t, a, k, value);
    ClearedSlots(rev, s, t, a, k, value);
    ClearedCounts(Cleared(s), Cleared(t), (a, k), original != 0 && current == 0, original != 0 && value == 0);
    CountTimes(c.clearing, |Cleared(s)|, |Cleared(t)|, original != 0 && value == 0, original != 0 && current == 0);
  }

  lemma CountTimes(x: nat, before: nat, after: nat, now: bool, was: bool)
    requires after == before + (if now then 1 else 0) - (if was then 1 else 0)
    ensures x * after == x * before + (if now then x else 0) - (if was then x else 0)
  {
    assert x * (after - before) == (if now then x else 0) - (if was then x else 0);
  }

  lemma SameAccounts(s: Ibs, t: Ibs, a: Address, k: U256, value: U256)
    requires OneSlot(s, t, a, k, value)
    ensures forall b: Address :: Exists(t, b) <==> Exists(s, b)
  {
    forall b: Address ensures Exists(t, b) <==> Exists(s, b) {
      assert CurrentAccount(t, b) == CurrentAccount(s, b);
    }
  }

  /** Seen from the reads. */
  lemma ClearedReads(rev: Revision, s: Ibs, a: Address, k: U256)
    requires Covered(rev, s)
    ensures (a, k) in Cleared(s) <==> ReadSlot(s, a, k, true) != 0 && ReadSlot(s, a, k, false) == 0
  {
    ClearedIs(s, a, k);
    assert !Exists(s, a) ==> ZeroAt(s, a, k);
  }

  lemma ClearedSlots(rev: Revision, s: Ibs, t: Ibs, a: Address, k: U256, value: U256)
    requires Covered(rev, s) && Covered(rev, t) && OneSlot(s, t, a, k, value)
    ensures (a, k) in Cleared(s) <==> ReadSlot(s, a, k, true) != 0 && ReadSlot(s, a, k, false) == 0
    ensures Cleared(t) == if ReadSlot(s, a, k, true) != 0 && value == 0 then Cleared(s) + {(a, k)} else Cleared(s) - {(a, k)}
  {
    hide Covered, Cleared, ReadSlot, CurrentAccount;
    ClearedReads(rev, s, a, k);
    forall x: (Address, U256)
      ensures x in Cleared(t) <==> if x == (a, k) then ReadSlot(s, a, k, true) != 0 && value == 0 else x in Cleared(s)
    {
      ClearedReads(rev, s, x.0, x.1);
      ClearedReads(rev, t, x.0, x.1);
    }
  }

  // Whole runs

  function ClearedAt(s: Ibs, a: Address): set<(Address, U256)> {
    set x | x in Cleared(s) && x.0 == a
  }

  /** Gas that one action earns beyond what the slots it clears are worth; a new contract wipes slots without taking their worth back. */
  function Gained(rev: Revision, c: Schedule, s: Ibs, action: Action): nat
    decreases action, 0
  {
    match action
    case Plain(op) => if op.NewContract? then c.clearing * |ClearedAt(s, op.address)| else 0
    case Store(a, k, v) => if Exists(s, a) then ReturnOf(c, ReadSlot(s, a, k, true), ReadSlot(s, a, k, false), v) else 0
    case Frame(body, reverted) => if reverted then 0 else GainedAll(rev, c, s, body)
  }

  function GainedAll(rev: Revision, c: Schedule, s: Ibs, actions: seq<Action>): nat
    decreases actions, 1
  {
    if actions == [] then 0 else Gained(rev, c, s, actions[0]) + GainedAll(rev, c, Act(rev, s, actions[0]), actions[1..])
  }

  /** The counter has followed the cleared slots, and gained this much besides. */
  ghost predicate Follows(c: Schedule, s: Ibs, t: Ibs, gained: nat) {
    t.refund + c.clearing * |Cleared(s)| == s.refund + c.clearing * |Cleared(t)| + gained
  }

  lemma FollowsTwice(c: Schedule, s: Ibs, t: Ibs, u: Ibs, x: nat, y: nat)
    requires Follows(c, s, t, x) && Follows(c, t, u, y)
    ensures Follows(c, s, u, x + y)
  {
    hide Cleared;
  }

  lemma FollowsSame(c: Schedule, s: Ibs, t: Ibs)
    requires Cleared(t) == Cleared(s) && t.refund == s.refund
    ensures Follows(c, s, t, 0)
  {
  }

  lemma ClearedRefines(s: Ibs, t: Ibs)
    requires Refines(s, t) && AbsentZero(t)
    ensures Cleared(s) == Cleared(t)
  {
    hide Refines, Cleared;
    forall x: (Address, U256) ensures x in Cleared(s) <==> x in Cleared(t) {
      ClearedAgrees(s, t, x.0, x.1);
    }
  }

  lemma ClearedAgrees(s: Ibs, t: Ibs, a: Address, k: U256)
    requires Refines(s, t) && AbsentZero(t)
    ensures (a, k) in Cleared(s) <==> (a, k) in Cleared(t)
  {
    ClearedIs(s, a, k);
    ClearedIs(t, a, k);
    assert AddressRefines(s, t, a);
    assert SlotRefines(s, t, a, k);
    assert !Exists(t, a) ==> ZeroAt(t, a, k);
  }

  lemma ClearedKept(s: Ibs, t: Ibs)
    requires Inv(s) && Inv(t) && t.storage == s.storage && t.incarnations == s.incarnations && t.db == s.db
    ensures Cleared(t) == Cleared(s)
  {
    forall x: (Address, U256) ensures x in Cleared(t) <==> x in Cleared(s) {
      ClearedIs(s, x.0, x.1);
      ClearedIs(t, x.0, x.1);
      InvBase(s, x.0, x.1);
      InvBase(t, x.0, x.1);
    }
  }

  lemma ClearedWiped(s: Ibs, a: Address)
    requires Inv(s) && Inv(CreateContract(s, a))
    ensures Cleared(CreateContract(s, a)) == Cleared(s) - ClearedAt(s, a) && CreateContract(s, a).refund == s.refund
  {
    var t := CreateContract(s, a);
    assert t.storage == s.storage - {a} && t.db == s.db;
    forall x: (Address, U256) ensures x in Cleared(t) <==> x in Cleared(s) && x.0 != a {
      ClearedIs(s, x.0, x.1);
      ClearedIs(t, x.0, x.1);
      InvBase(s, x.0, x.1);
      InvBase(t, x.0, x.1);
    }
  }

  lemma PlainStorage(s: Ibs, op: Op)
    requires IsPlain(op) && !op.ReadStorage? && !op.NewContract?
    ensures var t := Apply(s, op); t.storage == s.storage && t.incarnations == s.incarnations && t.db == s.db && t.refund == s.refund
  {
    hide WriteBalance, WriteAccount, EnsureObject, GetObject, SetLive, Live, Run, GetStorage, SetStorage, CreateContract, RevertToSnapshot;
    match op {
      case ReadAccount(a) => ObjectOnly(s, a, 0, EMPTY_ACCOUNT);
      case SetBalance(a, v) => ObjectOnly(s, a, v, EMPTY_ACCOUNT);
      case AddToBalance(a, v) => ObjectOnly(s, a, WrappingAdd(Live(EnsureObject(s, a), a).balance, v), EMPTY_ACCOUNT);
      case SubtractFromBalance(a, v) => ObjectOnly(s, a, WrappingSub(Live(EnsureObject(s, a), a).balance, v), EMPTY_ACCOUNT);
      case ChangeNonce(a, n) => ObjectOnly(s, a, 0, Live(EnsureObject(s, a), a).(nonce := n));
      case ChangeCode(a, h) => ObjectOnly(s, a, 0, Live(EnsureObject(s, a), a).(codeHash := h));
      case _ =>
    }
  }

  lemma ObjectOnly(s: Ibs, a: Address, v: U256, acc: Account)
    ensures forall t :: t in {GetObject(s, a).0, WriteBalance(s, a, v), WriteAccount(s, a, acc)} ==>
      t.storage == s.storage && t.incarnations == s.incarnations && t.db == s.db && t.refund == s.refund
  {
  }

  lemma PlainFollows(rev: Revision, c: Schedule, s: Ibs, op: Op)
    requires Covered(rev, s) && IsPlain(op)
    ensures Follows(c, s, Apply(s, op), Gained(rev, c, s, Plain(op)))
  {
    hide Covered, Inv, Step, Refines, Cleared, AbsentZero, CreateContract;
    CoveredParts(rev, s);
    PlainCovered(rev, s, op);
    CoveredParts(rev, Apply(s, op));
    if op.NewContract? {
      ClearedWiped(s, op.address);
      Difference(Cleared(s), ClearedAt(s, op.address));
      TimesSum(c.clearing, |Cleared(s) - ClearedAt(s, op.address)|, |ClearedAt(s, op.address)|);
    } else if op.ReadStorage? {
      GetStorageStep(s, op.address, op.key, op.original);
      ReadCounter(s, op.address, op.key, op.original);
      ClearedRefines(Apply(s, op), s);
      FollowsSame(c, s, Apply(s, op));
    } else {
      PlainStorage(s, op);
      ClearedKept(s, Apply(s, op));
      FollowsSame(c, s, Apply(s, op));
    }
  }

  lemma Difference<T>(all: set<T>, some: set<T>)
    requires some <= all
    ensures |all - some| + |some| == |all|
  {
    assert all == (all - some) + some;
  }

  lemma TimesSum(x: nat, y: nat, z: nat)
    ensures x * (y + z) == x * y + x * z
  {
  }

  lemma {:induction false} ActFollows(rev: Revision, c: Schedule, s: Ibs, action: Action)
    requires Covered(rev, s) && ScheduleOf(rev) == Some(c)
    ensures Follows(c, s, Act(rev, s, action), Gained(rev, c, s, action))
    decreases action, 0
  {
    hide Covered, Inv, Step, Refines, Apply, Sstore, Follows, ScheduleOf, Cleared, AbsentZero;
    CoveredParts(rev, s);
    match action {
      case Plain(op) =>
        if IsPlain(op) {
          PlainFollows(rev, c, s, op);
        } else {
          FollowsSame(c, s, s);
        }
      case Store(a, k, v) =>
        if Exists(s, a) {
          StoreFollows(rev, c, s, a, k, v);
        } else {
          FollowsSame(c, s, s);
        }
      case Frame(body, reverted) =>
        if reverted {
          FrameFollows(rev, c, s, body);
        } else {
          RunFollows(rev, c, s, body);
        }
    }
  }

  lemma StoreFollows(rev: Revision, c: Schedule, s: Ibs, a: Address, k: U256, value: U256)
    requires Covered(rev, s) && Exists(s, a) && ScheduleOf(rev) == Some(c)
    ensures Follows(c, s, Sstore(rev, s, a, k, value), ReturnOf(c, ReadSlot(s, a, k, true), ReadSlot(s, a, k, false), value))
  {
    hide Covered, Sstore, Cleared, ReadSlot, ScheduleOf, Exists;
    ClearedByStore(rev, c, s, a, k, value);
  }

  /** A frame that is taken back takes back the counter and the cleared slots alike. */
  lemma FrameFollows(rev: Revision, c: Schedule, s: Ibs, body: seq<Action>)
    requires Covered(rev, s)
    ensures Follows(c, s, RevertToSnapshot(ActAll(rev, s, body), TakeSnapshot(s)), 0)
  {
    hide Covered, Inv, Step, Refines, RevertToSnapshot, ActAll, NoUnderflow, Cleared, AbsentZero;
    CoveredParts(rev, s);
    RefundNeverUnderflows(rev, s, body);
    RevertRestores(s, ActAll(rev, s, body));
    ClearedRefines(RevertToSnapshot(ActAll(rev, s, body), TakeSnapshot(s)), s);
    FollowsSame(c, s, RevertToSnapshot(ActAll(rev, s, body), TakeSnapshot(s)));
  }

  /** Over any run, frames that are taken back included, the counter is what the cleared slots are worth and what was gained besides. */
  lemma {:induction false} RunFollows(rev: Revision, c: Schedule, s: Ibs, actions: seq<Action>)
    requires Covered(rev, s) && ScheduleOf(rev) == Some(c)
    ensures Follows(c, s, ActAll(rev, s, actions), GainedAll(rev, c, s, actions))
    decreases actions, 1
  {
    hide Covered, Inv, Step, Refines, Act, Follows, ScheduleOf, Cleared, Gained;
    if actions == [] {
      FollowsSame(c, s, s);
    } else {
      var t := Act(rev, s, actions[0]);
      ActFollows(rev, c, s, actions[0]);
      ActCovered(rev, s, actions[0]);
      RunFollows(rev, c, t, actions[1..]);
      FollowsTwice(c, s, t, ActAll(rev, s, actions), Gained(rev, c, s, actions[0]), GainedAll(rev, c, t, actions[1..]));
    }
  }
}
