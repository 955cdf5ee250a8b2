/** The refund counter over the calls of the transactions of a block: every store has an account, and no subtraction underflows. */
module Metering {
  import opened Basics
  import opened StateTypes
  import opened Journal
  import opened Undoing
  import opened Transactions
  import opened BlockEnd
  import opened Refunds
  import opened Balances
  import opened Messages
  import opened Records
  import opened Removals
  import opened Outcomes
  import opened RefundBlocks

  /**
   Code runs in the account `self` (or, below a static call, stores nothing): stores are its own, other code that it
   calls into its own context runs in it as well, and a called or created account runs in itself.
   */
  predicate Proper(m: Message, self: Option<Address>)
    decreases m, 0
  {
    match m
    case SetSlot(a, _, _) => self == Some(a)
    case Call(kind, isStatic, _, _, recipient, _, _, body, _) =>
      ProperAll(body, if kind != CallOp then self else if isStatic then None else Some(recipient))
    case Creation(_, contract, _, body, _) => ProperAll(body, Some(contract))
    case _ => true
  }

  predicate ProperAll(messages: seq<Message>, self: Option<Address>)
    decreases messages, 1
  {
    forall i :: 0 <= i < |messages| ==> Proper(messages[i], self)
  }

  /** The state in which the code of a call or creation starts, when it gets that far. */
  function Entered(rev: Revision, s: Ibs, m: Message): Option<Ibs> {
    match m
    case Call(kind, isStatic, precompiled, caller, recipient, codeAddress, value, body, success) =>
      var s1 := GetObject(s, caller).0;
      if kind != DelegateCall && Balance(s, caller) < value then None
      else if value == 0 && rev.AtLeast(Spurious) && !precompiled && !Exists(s1, codeAddress) then None
      else if kind != CallOp then Some(s1)
      else if isStatic then Some(TouchAddress(s1, recipient))
      else Some(Transfer(s1, caller, recipient, value).state)
    case Creation(creator, contract, endowment, body, deployed) =>
      var s1 := AccessAccount(SetNonce(GetObject(s, creator).0, creator, NonceOf(s, creator) + 1), contract);
      if Balance(s, creator) < endowment || NonceOf(s1, contract) != 0 || CodeHashOf(s1, contract) != EMPTY_HASH then None
      else Some(Transfer(NewAccount(rev, s1, contract), creator, contract, endowment).state)
    case _ => None
  }

  /** Every store on the way has an account, and takes no more back from the refund counter than is there. */
  ghost predicate Metered(rev: Revision, s: Ibs, m: Message)
    decreases m, 0
  {
    match m
    case SetSlot(a, k, v) =>
      Exists(s, a) && (TakesBack(rev, ReadSlot(s, a, k, true), ReadSlot(s, a, k, false), v) ==> ClearsRefund(rev) <= s.refund)
    case Call(_, _, _, _, _, _, _, body, _) => Entered(rev, s, m).Some? ==> MeteredAll(rev, Entered(rev, s, m).value, body)
    case Creation(_, _, _, body, _) => Entered(rev, s, m).Some? ==> MeteredAll(rev, Entered(rev, s, m).value, body)
    case _ => true
  }

  ghost predicate MeteredAll(rev: Revision, s: Ibs, messages: seq<Message>)
    decreases messages, 1
  {
    messages == [] || (Metered(rev, s, messages[0]) && MeteredAll(rev, Perform(rev, s, messages[0]).state, messages[1..]))
  }

  ghost predicate Housed(s: Ibs, self: Option<Address>) {
    self.Some? ==> Exists(s, self.value)
  }

  lemma StillHoused(s: Ibs, t: Ibs, self: Option<Address>)
    requires Onward(s, t) && Housed(s, self)
    ensures Housed(t, self)
  {
  }

  // The counter stays covered

  lemma PlainKept(rev: Revision, s: Ibs, op: Op)
    requires Covered(rev, s) && IsPlain(op)
    ensures Covered(rev, Apply(s, op))
  {
    hide Covered, Apply;
    PlainCovered(rev, s, op);
  }

  lemma {:induction false} PlainRun(rev: Revision, s: Ibs, ops: seq<Op>)
    requires Covered(rev, s) && forall op :: op in ops ==> IsPlain(op)
    ensures Covered(rev, Run(s, ops))
    decreases |ops|
  {
    hide Covered, Apply;
    if ops != [] {
      assert ops[0] in ops;
      PlainKept(rev, s, ops[0]);
      PlainRun(rev, Apply(s, ops[0]), ops[1..]);
    }
  }

  lemma ReadCounted(rev: Revision, s: Ibs, a: Address)
    requires Covered(rev, s)
    ensures Covered(rev, GetObject(s, a).0)
  {
    hide Covered;
    PlainKept(rev, s, ReadAccount(a));
  }

  lemma TouchCounted(rev: Revision, s: Ibs, a: Address)
    requires Covered(rev, s)
    ensures Covered(rev, TouchAddress(s, a))
  {
    hide Covered;
    PlainKept(rev, s, TouchOp(a));
  }

  lemma TransferCounted(rev: Revision, s: Ibs, from: Address, to: Address, v: U256)
    requires Covered(rev, s)
    ensures Covered(rev, Transfer(s, from, to, v).state)
  {
    hide Covered, SubtractBalance, AddBalance;
    PlainKept(rev, s, SubtractFromBalance(from, v));
    PlainKept(rev, SubtractBalance(s, from, v), AddToBalance(to, v));
  }

  lemma DestroyCounted(rev: Revision, s: Ibs, a: Address, beneficiary: Address)
    requires Covered(rev, s)
    ensures Covered(rev, DestroyAccount(s, a, beneficiary).state)
  {
    hide Covered, AddBalance, WriteBalance, RecordSelfdestruct, GetObject, Balance;
    PlainKept(rev, s, SelfDestruct(a));
    var s0 := RecordSelfdestruct(s, a);
    PlainKept(rev, s0, ReadAccount(a));
    var s1 := GetObject(s0, a).0;
    PlainKept(rev, s1, AddToBalance(beneficiary, Balance(s1, a)));
    PlainKept(rev, AddBalance(s1, beneficiary, Balance(s1, a)), SetBalance(a, 0));
  }

  lemma BumpCounted(rev: Revision, s: Ibs, creator: Address, nonce: nat, contract: Address)
    requires Covered(rev, s)
    ensures Covered(rev, AccessAccount(SetNonce(s, creator, nonce), contract))
  {
    hide Covered, SetNonce, AccessAccount;
    PlainKept(rev, s, ChangeNonce(creator, nonce));
    PlainKept(rev, SetNonce(s, creator, nonce), WarmAccount(contract));
  }

  lemma NewAccountCounted(rev: Revision, s: Ibs, contract: Address)
    requires Covered(rev, s)
    ensures Covered(rev, NewAccount(rev, s, contract))
  {
    hide Covered, SetNonce, CreateContract;
    PlainKept(rev, s, NewContract(contract));
    PlainKept(rev, CreateContract(s, contract), ChangeNonce(contract, 1));
  }

  lemma DeployCounted(rev: Revision, done: Result, contract: Address, deployed: Option<CodeHash>)
    requires Covered(rev, done.state)
    ensures Covered(rev, (if deployed.Some? then done.(state := SetCode(done.state, contract, deployed.value)) else done).state)
  {
    hide Covered, SetCode;
    if deployed.Some? {
      PlainKept(rev, done.state, ChangeCode(contract, deployed.value));
    }
  }

  /** Taking a frame back takes the counter back with it. */
  lemma SettleCounted(rev: Revision, start: Ibs, moved: Result, done: Result, success: bool)
    requires Covered(rev, start) && Covered(rev, done.state) && Accounted(start, moved) && Accounted(moved.state, done)
    ensures Covered(rev, Settle(start, moved, done, success).state)
  {
    hide Covered, Inv, Step, Supply, Refines, RevertToSnapshot, Undoable;
    Then(start, moved, done);
    CoveredInv(rev, start);
    if !success {
      RevertRestores(start, done.state);
      RefinesCovered(rev, RevertToSnapshot(done.state, TakeSnapshot(start)), start);
    }
  }

  // Calls

  /** Over any proper tree of requests every store has an account and no subtraction from the counter underflows. */
  lemma {:induction false} PerformMetered(rev: Revision, s: Ibs, m: Message, self: Option<Address>)
    requires Bounded(s) && Covered(rev, s) && Proper(m, self) && Housed(s, self)
    ensures Covered(rev, Perform(rev, s, m).state) && Metered(rev, s, m)
    decreases m, 1
  {
    hide Covered, Bounded, Sstore, DestroyAccount, Apply, MeteredAll, Entered, ReadSlot, TakesBack;
    match m {
      case Host(op) =>
        if FromInterpreter(op) {
          PlainKept(rev, s, op);
        }
      case SetSlot(a, k, v) => StoreCovered(rev, s, a, k, v);
      case Destroy(a, beneficiary) => DestroyCounted(rev, s, a, beneficiary);
      case Call(_, _, _, _, _, _, _, _, _) => CallMetered(rev, s, m, self);
      case Creation(_, _, _, _, _) => CreationMetered(rev, s, m);
    }
  }

  lemma {:induction false} CallMetered(rev: Revision, s: Ibs, m: Message, self: Option<Address>)
    requires Bounded(s) && Covered(rev, s) && m.Call? && Proper(m, self) && Housed(s, self)
    ensures Covered(rev, Perform(rev, s, m).state) && Metered(rev, s, m)
    decreases m, 0
  {
    hide Accounted, Inv, Transfer, TouchAddress, GetObject, Settle, Balance, Exists, PerformAll, Bounded, Onward, Covered, MeteredAll, ProperAll, Housed;
    BoundedInv(s);
    var s1 := GetObject(s, m.caller).0;
    QuietAccounted(s, ReadAccount(m.caller));
    AccountedBounded(s, Result(s1, 0, true));
    BoundedInv(s1);
    ReadOnward(s, m.caller);
    ReadCounted(rev, s, m.caller);
    StillHoused(s, s1, self);
    if m.kind == DelegateCall || Balance(s, m.caller) >= m.value {
      if m.value == 0 && rev.AtLeast(Spurious) && !m.precompiled && !Exists(s1, m.codeAddress) {
        ReadCounted(rev, s1, m.codeAddress);
      } else {
        var moved :=
          if m.kind != CallOp then Result(s1, 0, true)
          else if m.isStatic then Result(TouchAddress(s1, m.recipient), 0, true)
          else Transfer(s1, m.caller, m.recipient, m.value);
        var inner := if m.kind != CallOp then self else if m.isStatic then None else Some(m.recipient);
        if m.kind != CallOp {
          Nothing(s1);
        } else if m.isStatic {
          QuietAccounted(s1, TouchOp(m.recipient));
          TouchCounted(rev, s1, m.recipient);
          NobodyHoused(moved.state);
        } else {
          ReadKeepsBalance(s, m.caller);
          TransferAccounted(s1, m.caller, m.recipient, m.value);
          TransferOnward(s1, m.caller, m.recipient, m.value);
          TransferCounted(rev, s1, m.caller, m.recipient, m.value);
          NowHoused(moved.state, m.recipient);
        }
        AccountedBounded(s1, moved);
        AllAccounted(rev, moved.state, m.body);
        AllMetered(rev, moved.state, m.body, inner);
        SettleCounted(rev, s1, moved, PerformAll(rev, moved.state, m.body), m.success);
      }
    }
  }

  lemma NobodyHoused(s: Ibs)
    ensures Housed(s, None)
  {
  }

  lemma NowHoused(s: Ibs, a: Address)
    requires Exists(s, a)
    ensures Housed(s, Some(a))
  {
  }

  lemma {:induction false} CreationMetered(rev: Revision, s: Ibs, m: Message)
    requires Bounded(s) && Covered(rev, s) && m.Creation? && Proper(m, None)
    ensures Covered(rev, Perform(rev, s, m).state) && Metered(rev, s, m)
    decreases m, 0
  {
    hide Accounted, Inv, Transfer, AccessAccount, SetNonce, SetCode, CreateContract, GetObject, Settle, Balance, PerformAll, Bounded, NonceOf,
      CodeHashOf, Onward, NewAccount, Covered, MeteredAll, ProperAll, Housed, Exists;
    BoundedInv(s);
    var s0 := GetObject(s, m.creator).0;
    ReadCounted(rev, s, m.creator);
    if Balance(s, m.creator) >= m.endowment {
      var s1 := AccessAccount(SetNonce(s0, m.creator, NonceOf(s0, m.creator) + 1), m.contract);
      SameNonce(s, m.creator);
      BumpAccounted(s, m.creator, m.contract);
      BumpCounted(rev, s0, m.creator, NonceOf(s0, m.creator) + 1, m.contract);
      AccountedBounded(s, Result(s1, 0, true));
      BoundedInv(s1);
      if NonceOf(s1, m.contract) != 0 || CodeHashOf(s1, m.contract) != EMPTY_HASH {
        ReadCounted(rev, s1, m.contract);
      } else {
        var s3 := NewAccount(rev, s1, m.contract);
        NewAccountAccounted(rev, s1, m.contract);
        NewAccountCounted(rev, s1, m.contract);
        AccountedBounded(s1, Result(s3, 0, true));
        var moved := Transfer(s3, m.creator, m.contract, m.endowment);
        BumpedBalance(rev, s, m.creator, m.contract);
        TransferAccounted(s3, m.creator, m.contract, m.endowment);
        TransferBurnsNothing(s3, m.creator, m.contract, m.endowment);
        TransferOnward(s3, m.creator, m.contract, m.endowment);
        TransferCounted(rev, s3, m.creator, m.contract, m.endowment);
        NowHoused(moved.state, m.contract);
        Then(s1, Result(s3, 0, true), moved);
        ResultParts(moved);
        AccountedBounded(s3, moved);
        AllAccounted(rev, moved.state, m.body);
        AllMetered(rev, moved.state, m.body, Some(m.contract));
        var done := PerformAll(rev, moved.state, m.body);
        DeployAccounted(moved.state, done, m.contract, m.deployed);
        DeployCounted(rev, done, m.contract, m.deployed);
        var kept := if m.deployed.Some? then done.(state := SetCode(done.state, m.contract, m.deployed.value)) else done;
        SettleCounted(rev, s1, moved, kept, m.deployed.Some?);
      }
    }
  }

  lemma {:induction false} AllMetered(rev: Revision, s: Ibs, messages: seq<Message>, self: Option<Address>)
    requires Bounded(s) && Covered(rev, s) && ProperAll(messages, self) && Housed(s, self)
    ensures Covered(rev, PerformAll(rev, s, messages).state) && MeteredAll(rev, s, messages)
    decreases messages, 2
  {
    hide Accounted, Bounded, Inv, Perform, Onward, Covered, Housed, Metered, Proper;
    if messages != [] {
      var first := Perform(rev, s, messages[0]);
      PerformMetered(rev, s, messages[0], self);
      PerformAccounted(rev, s, messages[0]);
      PerformRecorded(rev, s, messages[0]);
      AccountedBounded(s, first);
      StillHoused(s, first.state, self);
      AllMetered(rev, first.state, messages[1..], self);
    }
  }

  // Transactions and blocks

  /** The execution of a transaction runs in the account that it calls or creates. */
  predicate ProperExecution(txn: Txn, e: Execution) {
    ProperAll(e.body, Some(match txn.action case CallTo(to, _) => to case CreateAt(contract) => contract))
  }

  lemma BoughtCounted(rev: Revision, s: Ibs, txn: Txn, baseFee: U256)
    requires Between(s) && PreValidated(txn, baseFee) && CanPay(s, txn)
    ensures Covered(rev, Bought(s, txn, baseFee))
  {
    hide *;
    CostCovered(s, txn, baseFee);
    PreludePlain(txn, baseFee);
    StartsCovered(rev, s);
    var cost: U256 := UpFrontCost(txn, baseFee);
    var clean := ClearSubstate(s);
    PayingCounted(rev, clean, txn.sender, cost);
    PlainRun(rev, SubtractBalance(AccessAccount(clean, txn.sender), txn.sender, cost), Prelude(txn));
    BoughtIs(s, txn, baseFee);
  }

  lemma BoughtIs(s: Ibs, txn: Txn, baseFee: U256)
    requires PreValidated(txn, baseFee) && CanPay(s, txn) && txn.maxFee >= baseFee && UpFrontCost(txn, baseFee) < U256_RANGE
    ensures Bought(s, txn, baseFee) ==
      Run(SubtractBalance(AccessAccount(ClearSubstate(s), txn.sender), txn.sender, UpFrontCost(txn, baseFee)), Prelude(txn))
  {
    hide Run, SubtractBalance, AccessAccount, ClearSubstate, UpFrontCost, Prelude, PreValidated, CanPay;
  }

  lemma PreludePlain(txn: Txn, baseFee: U256)
    requires PreValidated(txn, baseFee)
    ensures forall op :: op in Prelude(txn) ==> IsPlain(op)
  {
    PreludeQuiet(txn, baseFee);
  }

  lemma PayingCounted(rev: Revision, s: Ibs, sender: Address, cost: U256)
    requires Covered(rev, s)
    ensures Covered(rev, SubtractBalance(AccessAccount(s, sender), sender, cost))
  {
    hide Covered, AccessAccount, SubtractBalance;
    PlainKept(rev, s, WarmAccount(sender));
    PlainKept(rev, AccessAccount(s, sender), SubtractFromBalance(sender, cost));
  }

  lemma {:induction false} DestructSetAbsent(s: Ibs, gone: set<Address>)
    requires Inv(s) && AbsentZero(s)
    ensures Inv(DestructSet(s, gone)) && AbsentZero(DestructSet(s, gone))
    decreases |gone|
  {
    hide Inv, AbsentZero, DestructSet, Destruct;
    if gone == {} {
      DestructNone(s);
    } else {
      var a :| a in gone;
      DestructSetAbsent(s, gone - {a});
      DestructMore(s, gone - {a}, a);
      DestructAbsent(DestructSet(s, gone - {a}), a);
      assert gone - {a} + {a} == gone;
    }
  }

  lemma LookUpAbsent(s: Ibs, a: Address)
    requires Inv(s) && AbsentZero(s)
    ensures Inv(GetObject(s, a).0) && AbsentZero(GetObject(s, a).0)
  {
    GetObjectInv(s, a);
    hide Inv;
    var t := GetObject(s, a).0;
    forall b: Address, k: U256 | !Exists(t, b) ensures ZeroAt(t, b, k) {
      assert Obj(t, b) == Obj(s, b);
      assert ZeroAt(s, b, k);
    }
  }

  lemma LookUpBetween(s: Ibs, a: Address)
    requires Between(s)
    ensures Between(GetObject(s, a).0)
  {
    hide Inv, AbsentZero;
    LookUpAbsent(s, a);
  }

  lemma {:induction false} RemoveDeadAbsent(s: Ibs, touched: set<Address>)
    requires Inv(s) && AbsentZero(s)
    ensures Inv(RemoveDead(s, touched)) && AbsentZero(RemoveDead(s, touched))
    decreases |touched|
  {
    hide Inv, AbsentZero, RemoveDead, Destruct, GetObject;
    if touched == {} {
      RemoveDeadNone(s);
    } else {
      var a :| a in touched;
      RemoveDeadAbsent(s, touched - {a});
      RemoveDeadMore(s, touched - {a}, a);
      var t := RemoveDead(s, touched - {a});
      LookUpAbsent(t, a);
      DestructAbsent(GetObject(t, a).0, a);
      assert touched - {a} + {a} == touched;
    }
  }

  lemma CloseBetween(rev: Revision, s: Ibs)
    requires Inv(s) && AbsentZero(s)
    ensures Between(CloseTransaction(rev, s))
  {
    hide Inv, AbsentZero, DestructSet, RemoveDead, Finalize, Between;
    var t := DestructSet(s, s.selfDestructs);
    DestructSetAbsent(s, s.selfDestructs);
    RemoveDeadAbsent(t, t.touched);
    FinalizeBetween(if rev.AtLeast(Spurious) then RemoveDead(t, t.touched) else t);
  }

  /** A transaction is metered from the state in which its gas was bought, and leaves nothing pending. */
  lemma ExecutedMetered(context: Context, s: Ibs, txn: Txn, e: Execution)
    requires Bounded(s) && Between(s) && PreValidated(txn, context.baseFee) && CanPay(s, txn) && e.gasLeft <= txn.gasLimit
    requires ProperExecution(txn, e)
    ensures Metered(context.rev, Bought(s, txn, context.baseFee), TopMessage(txn, e))
    ensures Between(Executed(context, s, txn, e).state)
  {
    hide *;
    var bought, top := Bought(s, txn, context.baseFee), TopMessage(txn, e);
    TopProper(txn, e);
    BoughtMoney(s, txn, context.baseFee);
    BoughtCounted(context.rev, s, txn, context.baseFee);
    NobodyHoused(bought);
    PerformMetered(context.rev, bought, top, None);
    InterpretedIs(context, s, txn, e);
    PaidOutCounted(context, s, txn, e);
    var paid := PaidOut(context, s, txn, e);
    CoveredParts(context.rev, paid);
    CloseBetween(context.rev, paid);
    ExecutedIs(context, s, txn, e);
  }

  lemma TopProper(txn: Txn, e: Execution)
    requires ProperExecution(txn, e)
    ensures Proper(TopMessage(txn, e), None)
  {
    hide ProperAll;
  }

  lemma PaidOutCounted(context: Context, s: Ibs, txn: Txn, e: Execution)
    requires PreValidated(txn, context.baseFee) && CanPay(s, txn) && e.gasLeft <= txn.gasLimit
    requires Covered(context.rev, Interpreted(context, s, txn, e).state)
    ensures Covered(context.rev, PaidOut(context, s, txn, e))
  {
    var left := GasLeft(context, s, txn, e);
    PaymentsFit(s, txn, context.baseFee, left);
    var back: U256, fee: U256 := PaidBack(txn, context.baseFee, left), PaidMiner(txn, context.baseFee, left);
    hide Covered, AddBalance, Interpreted, GasLeft, PreValidated, CanPay, PaidBack, PaidMiner;
    PaidOutIs(context, s, txn, e);
    var r := Interpreted(context, s, txn, e).state;
    PlainKept(context.rev, r, AddToBalance(txn.sender, back));
    PlainKept(context.rev, AddBalance(r, txn.sender, back), AddToBalance(context.beneficiary, fee));
  }

  lemma ExecutedIs(context: Context, s: Ibs, txn: Txn, e: Execution)
    requires PreValidated(txn, context.baseFee) && CanPay(s, txn) && e.gasLeft <= txn.gasLimit
    ensures Executed(context, s, txn, e).state == CloseTransaction(context.rev, PaidOut(context, s, txn, e))
  {
    hide PaidOut, CloseTransaction, Interpreted, GasLeft, Held, PreValidated, CanPay;
  }

  predicate ProperBlock(txns: seq<Txn>, executions: seq<Execution>) {
    |executions| == |txns| && forall i :: 0 <= i < |txns| ==> ProperExecution(txns[i], executions[i])
  }

  /** Transaction `i` of the block is metered where it stands. */
  ghost predicate MeteredAt(context: Context, s: Ibs, txns: seq<Txn>, executions: seq<Execution>, i: nat)
    requires Runnable(context, txns, executions)
  {
    i < |txns| && AfterTxns(context, s, txns, executions, i).Some? &&
    var seen := GetObject(AfterTxns(context, s, txns, executions, i).value.state, txns[i].sender).0;
    CanPay(seen, txns[i]) && Metered(context.rev, Bought(seen, txns[i], context.baseFee), TopMessage(txns[i], executions[i]))
  }

  lemma NextMetered(context: Context, before: Total, txn: Txn, e: Execution)
    requires PreValidated(txn, context.baseFee) && (e.intrinsicGas <= txn.gasLimit ==> e.intrinsicGas + e.gasLeft <= txn.gasLimit)
    requires Bounded(before.state) && Between(before.state) && ProperExecution(txn, e) && NextTxn(context, before, txn, e).Some?
    ensures Between(NextTxn(context, before, txn, e).value.state)
    ensures var seen := GetObject(before.state, txn.sender).0;
      CanPay(seen, txn) && Metered(context.rev, Bought(seen, txn, context.baseFee), TopMessage(txn, e))
  {
    hide Bounded, Between, Executed, GetObject, PreValidated, CanPay, Bought, Metered, ProperExecution;
    LookUpBetween(before.state, txn.sender);
    LookUpKeeps(before.state, txn.sender);
    ExecutedMetered(context, GetObject(before.state, txn.sender).0, txn, e);
  }

  /** Over the transactions of a block no store is without an account and no subtraction from the refund counter underflows. */
  lemma {:induction false} BlockMetered(context: Context, s: Ibs, txns: seq<Txn>, executions: seq<Execution>, n: nat)
    requires Runnable(context, txns, executions) && n <= |txns| && AfterTxns(context, s, txns, executions, n).Some?
    requires Bounded(s) && Between(s) && ProperBlock(txns, executions)
    ensures Between(AfterTxns(context, s, txns, executions, n).value.state)
    ensures forall i :: 0 <= i < n ==> MeteredAt(context, s, txns, executions, i)
    decreases n
  {
    hide Bounded, Between, NextTxn, GetObject, CanPay, Bought, Metered, ProperExecution, Supply;
    if n > 0 {
      BlockMetered(context, s, txns, executions, n - 1);
      AfterTxnsMoney(context, s, txns, executions, n - 1);
      NextMetered(context, AfterTxns(context, s, txns, executions, n - 1).value, txns[n - 1], executions[n - 1]);
    }
  }
}
