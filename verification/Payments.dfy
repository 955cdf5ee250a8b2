/** Transactions whose outcome can be told without looking into code: plain payments, and all that fail. */
module Payments {
  import opened Basics
  import opened StateTypes
  import opened Journal
  import opened Undoing
  import opened Transactions
  import opened BlockEnd
  import opened Balances
  import opened Effects
  import opened Messages
  import opened Records
  import opened Removals
  import opened Outcomes
  import opened Metering
  import opened CallResults

  /** A call that runs no code or fails, or a creation that deploys nothing. */
  predicate Simple(txn: Txn, e: Execution) {
    match txn.action
    case CallTo(_, _) => e.success ==> e.body == []
    case CreateAt(_) => e.deployed.None?
  }

  /** What reaches the recipient. */
  function Delivered(txn: Txn, e: Execution): nat {
    if txn.action.CallTo? && e.success then txn.value else 0
  }

  /** Nothing has been refunded or destroyed before the interpreter starts. */
  lemma BoughtClean(s: Ibs, txn: Txn, baseFee: U256)
    requires PreValidated(txn, baseFee) && CanPay(s, txn)
    ensures Bought(s, txn, baseFee).refund == 0 && Bought(s, txn, baseFee).selfDestructs == {}
  {
    CostCovered(s, txn, baseFee);
    PreludeQuiet(txn, baseFee);
    var warm := AccessAccount(ClearSubstate(s), txn.sender);
    SubstateMoves(ClearSubstate(s), WarmAccount(txn.sender));
    var cost: U256 := UpFrontCost(txn, baseFee);
    SubstateMoves(warm, SubtractFromBalance(txn.sender, cost));
    PreludeClean(SubtractBalance(warm, txn.sender, cost), Prelude(txn));
  }

  lemma {:induction false} PreludeClean(s: Ibs, ops: seq<Op>)
    requires forall op :: op in ops ==> op.WarmAccount? || op.WarmSlot? || op.ChangeNonce?
    ensures Run(s, ops).refund == s.refund && Run(s, ops).selfDestructs == s.selfDestructs
    decreases |ops|
  {
    hide Apply;
    if ops != [] {
      assert ops[0] in ops;
      SubstateMoves(s, ops[0]);
      PreludeClean(Apply(s, ops[0]), ops[1..]);
    }
  }

  /** What any transaction that succeeds leaves before gas is paid back: what its code leaves, from where a call or creation starts. */
  lemma CodeOfTransaction(context: Context, s: Ibs, txn: Txn, e: Execution)
    requires Bounded(s) && PreValidated(txn, context.baseFee) && CanPay(s, txn)
    ensures var bought, r := Bought(s, txn, context.baseFee), Interpreted(context, s, txn, e).state;
      match txn.action
      case CallTo(to, precompiled) =>
        e.success && (txn.value != 0 || context.rev in {Frontier, Homestead, Tangerine} || precompiled || Exists(bought, to)) ==>
          exists start :: Moved(bought, start, txn.sender, to, txn.value) && r == PerformAll(context.rev, start, e.body).state
      case CreateAt(contract) =>
        e.deployed.Some? && contract != txn.sender && NonceOf(bought, contract) == 0 && CodeHashOf(bought, contract) == EMPTY_HASH ==>
          exists start :: Born(context.rev, bought, start, txn.sender, contract, txn.value) &&
            var done := PerformAll(context.rev, start, e.body).state;
            OneAccount(done, r, contract, Some(AccountOrEmpty(done, contract).(codeHash := e.deployed.value)))
  {
    hide Perform, PerformAll, Bounded, PreValidated, CanPay, Bought, Moved, Born, OneAccount, Entered, Exists, NonceOf, CodeHashOf;
    var bought, m := Bought(s, txn, context.baseFee), TopMessage(txn, e);
    CostCovered(s, txn, context.baseFee);
    StillOwns(s, txn, context.baseFee);
    BoughtMoney(s, txn, context.baseFee);
    assert txn.value <= Balance(bought, txn.sender);
    InterpretedIs(context, s, txn, e);
    if txn.action.CallTo? {
      CallStart(context.rev, bought, m);
      if CallRuns(context.rev, bought, m) && e.success {
        CallKept(context.rev, bought, m);
      }
    } else {
      CreationStart(context.rev, bought, m);
      if CreationRuns(bought, m) && e.deployed.Some? {
        CreationKept(context.rev, bought, m);
      }
    }
  }

  /** What such a transaction does in the interpreter. */
  lemma SimplePerformed(rev: Revision, s: Ibs, txn: Txn, e: Execution)
    requires Bounded(s) && Simple(txn, e) && txn.value <= Balance(s, txn.sender)
    ensures var r := Perform(rev, s, TopMessage(txn, e));
      && r.burned == 0 && r.state.refund == s.refund && r.state.selfDestructs == s.selfDestructs
      && forall a: Address ::
           Balance(r.state, a) + (if a == txn.sender then Delivered(txn, e) else 0)
           == Balance(s, a) + (if txn.action.CallTo? && a == txn.action.to then Delivered(txn, e) else 0)
  {
    hide Perform, Bounded, CallRuns, CreationRuns;
    var m := TopMessage(txn, e);
    var r := Perform(rev, s, m);
    if txn.action.CreateAt? {
      CreationUndone(rev, s, m);
      BumpedBalances(s, r.state, m.creator, m.contract);
    } else if CallRuns(rev, s, m) && e.success {
      PaymentMoves(rev, s, m);
    } else {
      CallUndone(rev, s, m);
      AnswersBalances(r.state, s);
      if e.success {
        NotRun(rev, s, m);
      }
    }
  }

  lemma NotRun(rev: Revision, s: Ibs, m: Message)
    requires m.Call? && m.value <= Balance(s, m.caller) && !CallRuns(rev, s, m)
    ensures m.value == 0
  {
  }

  lemma AnswersBalances(s: Ibs, t: Ibs)
    requires SameAnswers(s, t)
    ensures s.refund == t.refund && s.selfDestructs == t.selfDestructs && forall a: Address :: Balance(s, a) == Balance(t, a)
  {
  }

  lemma BumpedBalances(s: Ibs, t: Ibs, creator: Address, contract: Address)
    requires OnlyBumped(s, t, creator, contract)
    ensures t.refund == s.refund && t.selfDestructs == s.selfDestructs && forall a: Address :: Balance(t, a) == Balance(s, a)
  {
    hide CurrentAccount, AccountOrEmpty, Balance, ReadSlot, Keys;
    forall a: Address ensures Balance(t, a) == Balance(s, a) {
      BalanceIn(s, a);
      BalanceIn(t, a);
      assert CurrentAccount(t, a) == if a == creator then Some(AccountOrEmpty(s, creator).(nonce := NonceOf(s, creator) + 1)) else CurrentAccount(s, a);
    }
  }

  /**
   All balances after such a transaction: the sender has paid the price of the gas used and what was delivered, the recipient has got that,
   the miner the priority fee, and nobody else has gained or lost anything.
   */
  lemma SimpleOutcome(context: Context, s: Ibs, txn: Txn, e: Execution)
    requires Bounded(s) && PreValidated(txn, context.baseFee) && CanPay(s, txn) && e.gasLeft <= txn.gasLimit && Simple(txn, e)
    ensures txn.maxFee >= context.baseFee
    ensures var o, used := Executed(context, s, txn, e), txn.gasLimit - e.gasLeft;
      var fee := if txn.maxPriorityFee < txn.maxFee - context.baseFee then txn.maxPriorityFee else txn.maxFee - context.baseFee;
      && o.gasUsed == used && o.burned == 0
      && forall a: Address ::
           Balance(o.state, a) + (if a == txn.sender then used * (context.baseFee + fee) + Delivered(txn, e) else 0)
           == Balance(s, a) + (if txn.action.CallTo? && a == txn.action.to then Delivered(txn, e) else 0)
              + (if a == context.beneficiary then used * fee else 0)
  {
    hide *;
    var bought, o := Bought(s, txn, context.baseFee), Executed(context, s, txn, e);
    var left := GasLeft(context, s, txn, e);
    PriceParts(txn, context.baseFee);
    CostCovered(s, txn, context.baseFee);
    BoughtMoney(s, txn, context.baseFee);
    BoughtClean(s, txn, context.baseFee);
    StillOwns(s, txn, context.baseFee);
    SimplePerformed(context.rev, bought, txn, e);
    InterpretedIs(context, s, txn, e);
    ExecutedBalances(context, s, txn, e);
    NothingGivenBack(context, s, txn, e);
    NothingBurned(context, s, txn, e);
    UsedGas(context, s, txn, e);
    LeastFee(txn, context.baseFee);
    forall a: Address { ReceivedExactly(context, txn, left, a); }
    PricePaid(txn.gasLimit - left, left, EffectiveGasPrice(txn, context.baseFee));
  }

  lemma PricePaid(used: nat, left: nat, price: nat)
    ensures (used + left) * price == used * price + left * price
  {
  }

  lemma LeastFee(txn: Txn, baseFee: U256)
    requires txn.maxFee >= baseFee
    ensures PriorityFee(txn, baseFee) == if txn.maxPriorityFee < txn.maxFee - baseFee then txn.maxPriorityFee else txn.maxFee - baseFee
  {
    hide PriorityFee;
  }

  lemma UsedGas(context: Context, s: Ibs, txn: Txn, e: Execution)
    requires PreValidated(txn, context.baseFee) && CanPay(s, txn) && e.gasLeft <= txn.gasLimit
    ensures Executed(context, s, txn, e).gasUsed == txn.gasLimit - GasLeft(context, s, txn, e)
  {
    hide PaidOut, CloseTransaction, Interpreted, GasLeft, Held, PreValidated, CanPay;
  }

  lemma NothingGivenBack(context: Context, s: Ibs, txn: Txn, e: Execution)
    requires PreValidated(txn, context.baseFee) && CanPay(s, txn) && e.gasLeft <= txn.gasLimit
    requires Interpreted(context, s, txn, e).state.refund == 0 && Interpreted(context, s, txn, e).state.selfDestructs == {}
    ensures GasLeft(context, s, txn, e) == e.gasLeft
  {
    hide Interpreted, PreValidated, CanPay, RefundGas;
  }

  lemma ReceivedExactly(context: Context, txn: Txn, left: nat, a: Address)
    requires txn.maxFee >= context.baseFee && left <= txn.gasLimit
    ensures Received(context, txn, left, a) ==
      (if a == txn.sender then left * EffectiveGasPrice(txn, context.baseFee) else 0)
      + (if a == context.beneficiary then (txn.gasLimit - left) * PriorityFee(txn, context.baseFee) else 0)
  {
  }
}
