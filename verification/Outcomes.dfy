/** What a transaction, and a whole block of them, comes to: state, gas and money. */
module Outcomes {
  import opened Basics
  import opened StateTypes
  import opened Journal
  import opened Undoing
  import opened Transactions
  import opened BlockEnd
  import opened Refunds
  import opened Balances
  import opened Messages
  import opened Effects
  import opened Records
  import opened Removals

  const R_SELF_DESTRUCT: nat := 24_000
  const MAX_REFUND_QUOTIENT_FRONTIER: nat := 2
  const MAX_REFUND_QUOTIENT_LONDON: nat := 5

  datatype Action = CallTo(to: Address, precompiled: bool) | CreateAt(contract: Address)

  datatype Txn = Txn(sender: Address, nonce: nat, gasLimit: nat, maxFee: U256, maxPriorityFee: U256, action: Action, value: U256,
    accessList: seq<Op>)

  /** What the interpreter makes of a transaction: the calls it asks for, how it ends, and the gas it leaves. */
  datatype Execution = Execution(intrinsicGas: nat, body: seq<Message>, success: bool, deployed: Option<CodeHash>, gasLeft: nat)

  datatype Context = Context(rev: Revision, baseFee: U256, beneficiary: Address, gasLimit: nat)

  /** What the miner gets for each unit of gas: all that the sender allows for the miner, unless the price would exceed all that it allows. */
  function PriorityFee(txn: Txn, baseFee: U256): (p: nat)
    requires txn.maxFee >= baseFee
    ensures p <= txn.maxPriorityFee && p + baseFee <= txn.maxFee
    ensures p == txn.maxPriorityFee || p + baseFee == txn.maxFee
  {
    if txn.maxPriorityFee < txn.maxFee - baseFee then txn.maxPriorityFee else txn.maxFee - baseFee
  }

  function EffectiveGasPrice(txn: Txn, baseFee: U256): (p: nat)
    requires txn.maxFee >= baseFee
    ensures baseFee <= p <= txn.maxFee && p - baseFee <= txn.maxPriorityFee
    ensures p == txn.maxFee || p == baseFee + txn.maxPriorityFee
    ensures p - baseFee == PriorityFee(txn, baseFee)
  {
    PriorityFee(txn, baseFee) + baseFee
  }

  /** Checked before a transaction comes to a block. */
  predicate PreValidated(txn: Txn, baseFee: U256) {
    txn.maxFee >= baseFee && forall op :: op in txn.accessList ==> op.WarmAccount? || op.WarmSlot?
  }

  /** The sender can pay for all the gas and the value. */
  predicate CanPay(s: Ibs, txn: Txn) {
    txn.gasLimit * txn.maxFee + txn.value <= Balance(s, txn.sender)
  }

  /** At most one part in so many of the gas used is given back. */
  function Quotient(rev: Revision): nat {
    if rev.AtLeast(London) then MAX_REFUND_QUOTIENT_LONDON else MAX_REFUND_QUOTIENT_FRONTIER
  }

  /** The counter, and before London a fixed sum for each self-destruct. */
  function RefundDue(rev: Revision, counter: nat, selfDestructs: nat): nat {
    if rev.AtLeast(London) then counter else counter + R_SELF_DESTRUCT * selfDestructs
  }

  /**
   * Adds the refund: from London on what was counted, up to a fifth of the gas used; before that 24000 more for each self-destruct, up to
   * a half of it.
   */
  function RefundGas(rev: Revision, txn: Txn, gasLeft: nat, counter: nat, selfDestructs: nat): (left: nat)
    requires gasLeft <= txn.gasLimit
    ensures gasLeft <= left <= txn.gasLimit
    ensures var refund, used := left - gasLeft, txn.gasLimit - gasLeft;
      if rev == London || rev == Shanghai then
        5 * refund <= used && refund <= counter && (refund == counter || 5 * (refund + 1) > used)
      else
        var due := counter + 24_000 * selfDestructs;
        2 * refund <= used && refund <= due && (refund == due || 2 * (refund + 1) > used)
  {
    var refund := RefundDue(rev, counter, selfDestructs);
    var most := (txn.gasLimit - gasLeft) / Quotient(rev);
    gasLeft + if refund < most then refund else most
  }

  function TopMessage(txn: Txn, e: Execution): Message {
    match txn.action
    case CallTo(to, precompiled) => Call(CallOp, false, precompiled, txn.sender, to, to, txn.value, e.body, e.success)
    case CreateAt(contract) => Creation(txn.sender, contract, txn.value, e.body, e.deployed)
  }

  lemma ProductLe(x: nat, y: nat, z: nat)
    requires x <= y
    ensures z * x <= z * y
  {
  }

  function UpFrontCost(txn: Txn, baseFee: U256): nat
    requires txn.maxFee >= baseFee
  {
    txn.gasLimit * EffectiveGasPrice(txn, baseFee)
  }

  // What a transaction comes to

  /** Warms the addresses and slots that a transaction names, and bumps the nonce of a sender that calls. */
  function Prelude(txn: Txn): seq<Op> {
    (if txn.action.CallTo? then [WarmAccount(txn.action.to), ChangeNonce(txn.sender, txn.nonce + 1)] else []) + txn.accessList
  }

  /** The state in which the interpreter starts. */
  function Bought(s: Ibs, txn: Txn, baseFee: U256): Ibs
    requires PreValidated(txn, baseFee) && CanPay(s, txn)
  {
    CostCovered(s, txn, baseFee);
    Run(SubtractBalance(AccessAccount(ClearSubstate(s), txn.sender), txn.sender, UpFrontCost(txn, baseFee)), Prelude(txn))
  }

  /** Pays back the gas that is left and pays the miner for the gas that was used. */
  function PayOut(s: Ibs, sender: Address, miner: Address, back: U256, fee: U256): Ibs {
    AddBalance(AddBalance(s, sender, back), miner, fee)
  }

  datatype Outcome = Outcome(state: Ibs, gasUsed: nat, burned: nat)

  function Interpreted(context: Context, s: Ibs, txn: Txn, e: Execution): Result
    requires PreValidated(txn, context.baseFee) && CanPay(s, txn)
  {
    Messages.Perform(context.rev, Bought(s, txn, context.baseFee), TopMessage(txn, e))
  }

  /** The gas that is left when refunds have been added. */
  function GasLeft(context: Context, s: Ibs, txn: Txn, e: Execution): (left: nat)
    requires PreValidated(txn, context.baseFee) && CanPay(s, txn) && e.gasLeft <= txn.gasLimit
    ensures left <= txn.gasLimit
  {
    var r := Interpreted(context, s, txn, e);
    RefundGas(context.rev, txn, e.gasLeft, r.state.refund, |r.state.selfDestructs|)
  }

  /** The price of the gas that is left. */
  function PaidBack(txn: Txn, baseFee: U256, left: nat): nat
    requires txn.maxFee >= baseFee
  {
    left * EffectiveGasPrice(txn, baseFee)
  }

  /** What the miner gets for the gas that was used. */
  function PaidMiner(txn: Txn, baseFee: U256, left: nat): nat
    requires txn.maxFee >= baseFee && left <= txn.gasLimit
  {
    (txn.gasLimit - left) * PriorityFee(txn, baseFee)
  }

  /** What an account gets at the end of a transaction. */
  function Received(context: Context, txn: Txn, left: nat, a: Address): nat
    requires txn.maxFee >= context.baseFee && left <= txn.gasLimit
  {
    (if a == txn.sender then PaidBack(txn, context.baseFee, left) else 0)
    + (if a == context.beneficiary then PaidMiner(txn, context.baseFee, left) else 0)
  }

  /** The state after all payments, before accounts are removed. */
  function PaidOut(context: Context, s: Ibs, txn: Txn, e: Execution): Ibs
    requires PreValidated(txn, context.baseFee) && CanPay(s, txn) && e.gasLeft <= txn.gasLimit
  {
    var left := GasLeft(context, s, txn, e);
    PaymentsFit(s, txn, context.baseFee, left);
    PayOut(Interpreted(context, s, txn, e).state, txn.sender, context.beneficiary,
      PaidBack(txn, context.baseFee, left), PaidMiner(txn, context.baseFee, left))
  }

  /** State, gas used and money burned of a whole transaction. */
  ghost function Executed(context: Context, s: Ibs, txn: Txn, e: Execution): Outcome
    requires PreValidated(txn, context.baseFee) && CanPay(s, txn) && e.gasLeft <= txn.gasLimit
  {
    var paid := PaidOut(context, s, txn, e);
    Outcome(CloseTransaction(context.rev, paid), txn.gasLimit - GasLeft(context, s, txn, e),
      Interpreted(context, s, txn, e).burned + Held(paid, paid.selfDestructs))
  }

  lemma PaymentsFit(s: Ibs, txn: Txn, baseFee: U256, left: nat)
    requires PreValidated(txn, baseFee) && CanPay(s, txn) && left <= txn.gasLimit
    ensures txn.maxFee >= baseFee
    ensures PaidBack(txn, baseFee, left) < U256_RANGE && PaidMiner(txn, baseFee, left) < U256_RANGE
  {
    CostCovered(s, txn, baseFee);
    var price, priority := EffectiveGasPrice(txn, baseFee), PriorityFee(txn, baseFee);
    ProductLe(left, txn.gasLimit, price);
    ProductLe(txn.gasLimit - left, txn.gasLimit, priority);
    ProductLe(priority, price, txn.gasLimit);
  }

  lemma CostCovered(s: Ibs, txn: Txn, baseFee: U256)
    requires PreValidated(txn, baseFee) && CanPay(s, txn)
    ensures txn.maxFee >= baseFee && UpFrontCost(txn, baseFee) <= Balance(s, txn.sender)
    ensures UpFrontCost(txn, baseFee) == txn.gasLimit * EffectiveGasPrice(txn, baseFee) < U256_RANGE
    ensures forall op :: op in txn.accessList ==> op.WarmAccount? || op.WarmSlot?
  {
    ProductLe(EffectiveGasPrice(txn, baseFee), txn.maxFee, txn.gasLimit);
  }

  lemma RunNone(s: Ibs)
    ensures Run(s, []) == s
  {
  }

  lemma ApplyIs(s: Ibs, op: Op)
    ensures op.WarmAccount? ==> Apply(s, op) == AccessAccount(s, op.address)
    ensures op.ChangeNonce? ==> Apply(s, op) == SetNonce(s, op.address, op.nonce)
    ensures op.WarmSlot? ==> Apply(s, op) == AccessStorage(s, op.address, op.key)
  {
  }

  lemma {:induction false} RunMore(s: Ibs, ops: seq<Op>, op: Op)
    ensures Run(s, ops + [op]) == Apply(Run(s, ops), op)
    decreases |ops|
  {
    hide Apply;
    if ops == [] {
      assert (ops + [op])[1..] == [];
    } else {
      assert (ops + [op])[1..] == ops[1..] + [op];
      RunMore(Apply(s, ops[0]), ops[1..], op);
    }
  }

  lemma RunTwoOps(s: Ibs, first: Op, second: Op)
    ensures Run(s, [first, second]) == Apply(Apply(s, first), second)
  {
    hide Apply, Run;
    RunNone(s);
    RunMore(s, [], first);
    RunMore(s, [first], second);
    assert [] + [first] == [first] && [first] + [second] == [first, second];
  }

  lemma AlwaysSame(s: Ibs)
    ensures SameBalances(s, s)
  {
  }

  lemma SameTwice(s: Ibs, t: Ibs, u: Ibs)
    requires SameBalances(s, t) && SameBalances(t, u)
    ensures SameBalances(s, u)
  {
    hide Balance;
    forall a: Address ensures Balance(s, a) == Balance(u, a) {
      assert Balance(s, a) == Balance(t, a) == Balance(u, a);
    }
  }

  lemma CleanBounded(s: Ibs)
    requires Bounded(s)
    ensures Bounded(ClearSubstate(s)) && Supply(ClearSubstate(s)) == Supply(s) && SameBalances(s, ClearSubstate(s))
  {
    hide Inv;
    ClearSubstateInv(s);
    FinalizeBalances(s);
    SameSupply(s, ClearSubstate(s));
  }

  lemma WarmKeeps(s: Ibs, op: Op)
    requires Bounded(s) && (op.WarmAccount? || op.WarmSlot? || op.ChangeNonce?)
    ensures Bounded(Apply(s, op)) && Supply(Apply(s, op)) == Supply(s) && SameBalances(s, Apply(s, op))
    ensures op.WarmAccount? ==> Apply(s, op) == AccessAccount(s, op.address)
    ensures op.ChangeNonce? ==> Apply(s, op) == SetNonce(s, op.address, op.nonce)
  {
    hide Inv;
    QuietBalances(s, op);
    ApplySteps(s, op);
    SameSupply(s, Apply(s, op));
  }

  lemma OneBalanceAt(s: Ibs, t: Ibs, a: Address, v: nat, b: Address)
    requires OneBalance(s, t, a, v)
    ensures Balance(t, b) == if b == a then v else Balance(s, b)
  {
  }

  lemma GasMoney(supply: nat, left: nat, used: nat, price: nat, priority: nat, total: nat)
    requires priority <= price && supply + (left + used) * price <= total
    ensures supply + left * price + used * priority <= total
    ensures left * price + used * priority + used * (price - priority) == (left + used) * price
  {
    assert used * priority + used * (price - priority) == used * price;
    assert left * price + used * price == (left + used) * price;
    assert used * (price - priority) >= 0;
  }

  lemma IsBounded(s: Ibs, total: nat)
    requires Inv(s) && Supply(s) <= total && 2 * total < U256_RANGE
    ensures Bounded(s)
  {
  }

  lemma LookUpKeeps(s: Ibs, a: Address)
    requires Bounded(s)
    ensures Bounded(GetObject(s, a).0) && Supply(GetObject(s, a).0) == Supply(s)
  {
    hide Inv;
    GetObjectInv(s, a);
    ReadBalances(s, a);
    SameSupply(s, GetObject(s, a).0);
  }

  lemma PriceParts(txn: Txn, baseFee: U256)
    requires PreValidated(txn, baseFee)
    ensures txn.maxFee >= baseFee && PriorityFee(txn, baseFee) <= EffectiveGasPrice(txn, baseFee)
    ensures EffectiveGasPrice(txn, baseFee) - PriorityFee(txn, baseFee) == baseFee
  {
  }

  lemma AccountedSupply(s: Ibs, r: Result)
    requires Bounded(s) && Accounted(s, r)
    ensures Bounded(r.state) && Supply(r.state) + r.burned == Supply(s)
  {
  }

  // Money

  /** Buying gas takes its price from the sender and from nobody else. */
  lemma BoughtMoney(s: Ibs, txn: Txn, baseFee: U256)
    requires Bounded(s) && PreValidated(txn, baseFee) && CanPay(s, txn)
    ensures var t := Bought(s, txn, baseFee);
      && Bounded(t) && Supply(t) + UpFrontCost(txn, baseFee) == Supply(s)
      && forall a: Address :: Balance(t, a) + (if a == txn.sender then UpFrontCost(txn, baseFee) else 0) == Balance(s, a)
  {
    hide Inv, Supply, Balance, Run, Prelude, SubtractBalance, AccessAccount, ClearSubstate, Bounded, CanPay;
    CostCovered(s, txn, baseFee);
    var cost := UpFrontCost(txn, baseFee);
    hide UpFrontCost, PreValidated;
    CleanBounded(s);
    var clean := ClearSubstate(s);
    WarmKeeps(clean, WarmAccount(txn.sender));
    var warm := AccessAccount(clean, txn.sender);
    BoundedInv(warm);
    assert forall a: Address :: Balance(warm, a) == Balance(s, a);
    SubtractExact(warm, txn.sender, cost);
    var paid := SubtractBalance(warm, txn.sender, cost);
    LessBounded(warm, paid);
    PreludeQuiet(txn, baseFee);
    QuietRun(paid, Prelude(txn));
  }

  lemma PreludeQuiet(txn: Txn, baseFee: U256)
    requires PreValidated(txn, baseFee)
    ensures forall op :: op in Prelude(txn) ==> op.WarmAccount? || op.WarmSlot? || op.ChangeNonce?
  {
  }

  lemma {:induction false} QuietRun(s: Ibs, ops: seq<Op>)
    requires Bounded(s) && forall op :: op in ops ==> op.WarmAccount? || op.WarmSlot? || op.ChangeNonce?
    ensures Bounded(Run(s, ops)) && Supply(Run(s, ops)) == Supply(s) && SameBalances(s, Run(s, ops))
    decreases |ops|
  {
    hide Bounded, Supply, Apply, SameBalances;
    AlwaysSame(s);
    if ops != [] {
      assert ops[0] in ops;
      WarmKeeps(s, ops[0]);
      QuietRun(Apply(s, ops[0]), ops[1..]);
      SameTwice(s, Apply(s, ops[0]), Run(s, ops));
    }
  }

  lemma LessBounded(s: Ibs, t: Ibs)
    requires Bounded(s) && Inv(t) && Supply(t) <= Supply(s)
    ensures Bounded(t)
  {
  }

  /** The sender gets back the price of the gas left, the miner the priority fee for the gas used. */
  lemma PayOutMoney(s: Ibs, sender: Address, miner: Address, back: U256, fee: U256, total: nat)
    requires Bounded(s) && Supply(s) + back + fee <= total && 2 * total < U256_RANGE
    ensures var t := PayOut(s, sender, miner, back, fee);
      && Bounded(t) && Supply(t) == Supply(s) + back + fee
      && forall a: Address :: Balance(t, a) == Balance(s, a) + (if a == sender then back else 0) + (if a == miner then fee else 0)
  {
    hide Inv, Supply, Balance, AddBalance, Bounded, OneBalance;
    BoundedInv(s);
    BalanceInSupply(s, sender);
    AddExact(s, sender, back);
    var refunded := AddBalance(s, sender, back);
    BalanceInSupply(refunded, miner);
    AddExact(refunded, miner, fee);
    var t := AddBalance(refunded, miner, fee);
    IsBounded(t, total);
    forall a: Address ensures Balance(t, a) == Balance(s, a) + (if a == sender then back else 0) + (if a == miner then fee else 0) {
      OneBalanceAt(s, refunded, sender, Balance(s, sender) + back, a);
      OneBalanceAt(refunded, t, miner, Balance(refunded, miner) + fee, a);
      OneBalanceAt(s, refunded, sender, Balance(s, sender) + back, miner);
    }
  }

  /** What the payments of a transaction add up to. */
  lemma PaidOutMoney(context: Context, s: Ibs, txn: Txn, e: Execution)
    requires Bounded(s) && PreValidated(txn, context.baseFee) && CanPay(s, txn) && e.gasLeft <= txn.gasLimit
    ensures var r, paid, left := Interpreted(context, s, txn, e), PaidOut(context, s, txn, e), GasLeft(context, s, txn, e);
      && Bounded(paid) && Supply(paid) + (txn.gasLimit - left) * context.baseFee + r.burned == Supply(s)
      && forall a: Address :: Balance(paid, a) == Balance(r.state, a) + Received(context, txn, left, a)
  {
    hide *;
    var bought, left := Bought(s, txn, context.baseFee), GasLeft(context, s, txn, e);
    PriceParts(txn, context.baseFee);
    PaymentsFit(s, txn, context.baseFee, left);
    CostCovered(s, txn, context.baseFee);
    BoughtMoney(s, txn, context.baseFee);
    PerformAccounted(context.rev, bought, TopMessage(txn, e));
    InterpretedIs(context, s, txn, e);
    var r := Interpreted(context, s, txn, e);
    AccountedSupply(bought, r);
    TotalSmall(s);
    PaymentsSum(Supply(r.state), txn, context.baseFee, left, Supply(s));
    PayOutMoney(r.state, txn.sender, context.beneficiary, PaidBack(txn, context.baseFee, left), PaidMiner(txn, context.baseFee, left), Supply(s));
    PaidOutIs(context, s, txn, e);
    forall a: Address ensures Balance(PaidOut(context, s, txn, e), a) == Balance(r.state, a) + Received(context, txn, left, a) {
      ReceivedIs(context, txn, left, a);
    }
  }

  lemma ReceivedIs(context: Context, txn: Txn, left: nat, a: Address)
    requires txn.maxFee >= context.baseFee && left <= txn.gasLimit
    ensures Received(context, txn, left, a) ==
      (if a == txn.sender then PaidBack(txn, context.baseFee, left) else 0)
      + (if a == context.beneficiary then PaidMiner(txn, context.baseFee, left) else 0)
  {
  }

  lemma InterpretedIs(context: Context, s: Ibs, txn: Txn, e: Execution)
    requires PreValidated(txn, context.baseFee) && CanPay(s, txn)
    ensures Interpreted(context, s, txn, e) == Messages.Perform(context.rev, Bought(s, txn, context.baseFee), TopMessage(txn, e))
  {
  }

  lemma PaidOutIs(context: Context, s: Ibs, txn: Txn, e: Execution)
    requires PreValidated(txn, context.baseFee) && CanPay(s, txn) && e.gasLeft <= txn.gasLimit && txn.maxFee >= context.baseFee
    requires PaidBack(txn, context.baseFee, GasLeft(context, s, txn, e)) < U256_RANGE
    requires PaidMiner(txn, context.baseFee, GasLeft(context, s, txn, e)) < U256_RANGE
    ensures var left := GasLeft(context, s, txn, e);
      PaidOut(context, s, txn, e) == PayOut(Interpreted(context, s, txn, e).state, txn.sender, context.beneficiary,
        PaidBack(txn, context.baseFee, left), PaidMiner(txn, context.baseFee, left))
  {
    hide PayOut, Interpreted, GasLeft, PaidBack, PaidMiner;
  }

  lemma PaymentsSum(supply: nat, txn: Txn, baseFee: U256, left: nat, total: nat)
    requires txn.maxFee >= baseFee && left <= txn.gasLimit && supply + UpFrontCost(txn, baseFee) <= total
    ensures supply + PaidBack(txn, baseFee, left) + PaidMiner(txn, baseFee, left) <= total
    ensures PaidBack(txn, baseFee, left) + PaidMiner(txn, baseFee, left) + (txn.gasLimit - left) * baseFee == UpFrontCost(txn, baseFee)
  {
    var price, priority := EffectiveGasPrice(txn, baseFee), PriorityFee(txn, baseFee);
    assert price - priority == baseFee;
    GasMoney(supply, left, txn.gasLimit - left, price, priority, total);
  }

  lemma TotalSmall(s: Ibs)
    requires Bounded(s)
    ensures 2 * Supply(s) < U256_RANGE
  {
  }

  /** The money of a transaction: only the base fees and what was burned are gone. */
  lemma ExecutedMoney(context: Context, s: Ibs, txn: Txn, e: Execution)
    requires Bounded(s) && PreValidated(txn, context.baseFee) && CanPay(s, txn) && e.gasLeft <= txn.gasLimit
    ensures var o := Executed(context, s, txn, e);
      && Bounded(o.state) && o.gasUsed <= txn.gasLimit && Supply(o.state) + o.gasUsed * context.baseFee + o.burned == Supply(s)
  {
    hide Inv, Supply, Bounded, PaidOut, Interpreted, GasLeft, CloseTransaction, Held, PreValidated, CanPay;
    var paid := PaidOut(context, s, txn, e);
    PaidOutMoney(context, s, txn, e);
    EndSupply(context.rev, paid);
    BoundedInv(paid);
    EndInv(context.rev, paid);
    LessBounded(paid, CloseTransaction(context.rev, paid));
  }

  /** Every balance after a transaction. */
  lemma ExecutedBalances(context: Context, s: Ibs, txn: Txn, e: Execution)
    requires Bounded(s) && PreValidated(txn, context.baseFee) && CanPay(s, txn) && e.gasLeft <= txn.gasLimit
    ensures var o, r := Executed(context, s, txn, e), Interpreted(context, s, txn, e);
      && o.state.selfDestructs == r.state.selfDestructs
      && forall a: Address :: Balance(o.state, a) ==
           if a in r.state.selfDestructs then 0 else Balance(r.state, a) + Received(context, txn, txn.gasLimit - o.gasUsed, a)
  {
    hide Inv, Supply, Bounded, Interpreted, GasLeft, CloseTransaction, Held, PreValidated, CanPay, Balance, Received;
    var paid := PaidOut(context, s, txn, e);
    PaidOutMoney(context, s, txn, e);
    EndBalances(context.rev, paid);
    EndSelfDestructs(context.rev, paid);
    PaidOutRecords(context, s, txn, e);
  }

  lemma AddRecords(s: Ibs, a: Address, v: U256)
    ensures AddBalance(s, a, v).selfDestructs == s.selfDestructs
    ensures forall b: Address :: NonceOf(AddBalance(s, a, v), b) == NonceOf(s, b)
  {
    var t := AddBalance(s, a, v);
    assert t.selfDestructs == s.selfDestructs;
    var w := WrappingAdd(Live(EnsureObject(s, a), a).balance, v);
    BalanceSet(s, a, w);
    hide EnsureObject, WriteBalance;
    forall b: Address ensures NonceOf(t, b) == NonceOf(s, b) {
      assert CurrentAccount(t, b) == if b == a then Some(AccountOrEmpty(s, a).(balance := w)) else CurrentAccount(s, b);
    }
  }

  lemma PaidOutRecords(context: Context, s: Ibs, txn: Txn, e: Execution)
    requires PreValidated(txn, context.baseFee) && CanPay(s, txn) && e.gasLeft <= txn.gasLimit
    ensures PaidOut(context, s, txn, e).selfDestructs == Interpreted(context, s, txn, e).state.selfDestructs
    ensures forall a: Address :: NonceOf(PaidOut(context, s, txn, e), a) == NonceOf(Interpreted(context, s, txn, e).state, a)
  {
    var left := GasLeft(context, s, txn, e);
    PaymentsFit(s, txn, context.baseFee, left);
    var back: U256, fee: U256 := PaidBack(txn, context.baseFee, left), PaidMiner(txn, context.baseFee, left);
    hide AddBalance, Interpreted, GasLeft, NonceOf, PreValidated, CanPay, PaidBack, PaidMiner;
    PaidOutIs(context, s, txn, e);
    var r := Interpreted(context, s, txn, e).state;
    AddRecords(r, txn.sender, back);
    AddRecords(AddBalance(r, txn.sender, back), context.beneficiary, fee);
  }

  /** Nothing is burned in a transaction in which no account destroys itself. */
  lemma NothingBurned(context: Context, s: Ibs, txn: Txn, e: Execution)
    requires Bounded(s) && PreValidated(txn, context.baseFee) && CanPay(s, txn) && e.gasLeft <= txn.gasLimit
    ensures Executed(context, s, txn, e).state.selfDestructs == {} ==> Executed(context, s, txn, e).burned == 0
  {
    hide Inv, Supply, Bounded, GasLeft, CloseTransaction, Held, PreValidated, CanPay, Balance, Messages.Perform, Bought, PaidOut, Onward;
    var bought := Bought(s, txn, context.baseFee);
    BoughtMoney(s, txn, context.baseFee);
    PerformRecorded(context.rev, bought, TopMessage(txn, e));
    PaidOutRecords(context, s, txn, e);
    EndSelfDestructs(context.rev, PaidOut(context, s, txn, e));
    HeldNothing(PaidOut(context, s, txn, e));
  }

  /** The slots of an account that a list of operations warms. */
  function WarmedKeys(ops: seq<Op>, a: Address): set<U256> {
    set op | op in ops && op.WarmSlot? && op.address == a :: op.key
  }

  function WarmedAddresses(ops: seq<Op>): set<Address> {
    set op | op in ops && op.WarmAccount? :: op.address
  }

  /** When the interpreter starts, exactly what was named is warm, and the nonce of a sender that calls is the next one. */
  lemma BoughtWarm(s: Ibs, txn: Txn, baseFee: U256)
    requires PreValidated(txn, baseFee) && CanPay(s, txn)
    ensures var t := Bought(s, txn, baseFee);
      && t.accessedAddresses == {txn.sender} + (if txn.action.CallTo? then {txn.action.to} else {}) + WarmedAddresses(txn.accessList)
      && (forall a: Address :: Keys(t, a) == WarmedKeys(txn.accessList, a))
      && (forall a: Address :: NonceOf(t, a) == if txn.action.CallTo? && a == txn.sender then txn.nonce + 1 else NonceOf(s, a))
  {
    hide *;
    CostCovered(s, txn, baseFee);
    PaidWarm(s, txn, baseFee);
    var paid := PaidState(s, txn, baseFee);
    BoughtInTurn(s, txn, baseFee);
    if txn.action.CallTo? {
      var ops := [WarmAccount(txn.action.to), ChangeNonce(txn.sender, txn.nonce + 1)];
      PreludeIs(txn);
      RunTwoOps(paid, ops[0], ops[1]);
      CalledWarm(paid, txn);
      RunsInTurn(paid, ops, txn.accessList);
      ListWarm(Run(paid, ops), txn.accessList);
    } else {
      PreludeIs(txn);
      ListWarm(paid, txn.accessList);
    }
  }

  lemma PreludeIs(txn: Txn)
    ensures Prelude(txn) ==
      if txn.action.CallTo? then [WarmAccount(txn.action.to), ChangeNonce(txn.sender, txn.nonce + 1)] + txn.accessList else txn.accessList
  {
  }

  /** The sender has paid, and nothing but the sender is warm. */
  function PaidState(s: Ibs, txn: Txn, baseFee: U256): Ibs
    requires PreValidated(txn, baseFee) && CanPay(s, txn)
  {
    CostCovered(s, txn, baseFee);
    SubtractBalance(AccessAccount(ClearSubstate(s), txn.sender), txn.sender, UpFrontCost(txn, baseFee))
  }

  lemma BoughtInTurn(s: Ibs, txn: Txn, baseFee: U256)
    requires PreValidated(txn, baseFee) && CanPay(s, txn)
    ensures Bought(s, txn, baseFee) == Run(PaidState(s, txn, baseFee), Prelude(txn))
  {
    hide SubtractBalance, AccessAccount, ClearSubstate, Run, Prelude, UpFrontCost;
    CostCovered(s, txn, baseFee);
  }

  lemma PaidWarm(s: Ibs, txn: Txn, baseFee: U256)
    requires PreValidated(txn, baseFee) && CanPay(s, txn)
    ensures var t := PaidState(s, txn, baseFee);
      t.accessedAddresses == {txn.sender} && forall a: Address :: Keys(t, a) == {} && NonceOf(t, a) == NonceOf(s, a)
  {
    CostCovered(s, txn, baseFee);
    var clean := ClearSubstate(s);
    assert clean.accessedAddresses == {} && forall a: Address :: Keys(clean, a) == {};
    SameNonces(s, clean);
    hide UpFrontCost, PreValidated, CanPay, SubtractBalance, NonceOf, Keys, ClearSubstate;
    var warm := AccessAccount(clean, txn.sender);
    OneWarm(clean, WarmAccount(txn.sender));
    SubtractRecords(warm, txn.sender, UpFrontCost(txn, baseFee));
    forall a: Address ensures Keys(PaidState(s, txn, baseFee), a) == {} && NonceOf(PaidState(s, txn, baseFee), a) == NonceOf(s, a) {
      assert NonceOf(warm, a) == NonceOf(clean, a) && Keys(warm, a) == Keys(clean, a);
    }
  }

  lemma SameNonces(s: Ibs, t: Ibs)
    requires t.objects == s.objects && t.db == s.db
    ensures forall a: Address :: NonceOf(t, a) == NonceOf(s, a)
  {
  }

  lemma SubtractRecords(s: Ibs, a: Address, v: U256)
    ensures var t := SubtractBalance(s, a, v);
      && t.accessedAddresses == s.accessedAddresses && forall b: Address :: Keys(t, b) == Keys(s, b) && NonceOf(t, b) == NonceOf(s, b)
  {
    hide NonceOf, CurrentAccount, AccountOrEmpty, Keys, WriteBalance, EnsureObject, Live;
    var w := WrappingSub(Live(EnsureObject(s, a), a).balance, v);
    var t := SubtractBalance(s, a, v);
    BalanceSet(s, a, w);
    SubstateMoves(s, SubtractFromBalance(a, v));
    forall b: Address ensures NonceOf(t, b) == NonceOf(s, b) {
      NonceIn(s, b);
      NonceIn(t, b);
      assert CurrentAccount(t, b) == if b == a then Some(AccountOrEmpty(s, a).(balance := w)) else CurrentAccount(s, b);
    }
  }

  lemma NonceIn(s: Ibs, a: Address)
    ensures NonceOf(s, a) == AccountOrEmpty(s, a).nonce
    ensures AccountOrEmpty(s, a) == if CurrentAccount(s, a).Some? then CurrentAccount(s, a).value else EMPTY_ACCOUNT
  {
  }

  lemma CalledWarm(s: Ibs, txn: Txn)
    requires txn.action.CallTo?
    ensures var t := Apply(Apply(s, WarmAccount(txn.action.to)), ChangeNonce(txn.sender, txn.nonce + 1));
      && t.accessedAddresses == s.accessedAddresses + {txn.action.to} && (forall a: Address :: Keys(t, a) == Keys(s, a))
      && forall a: Address :: NonceOf(t, a) == if a == txn.sender then txn.nonce + 1 else NonceOf(s, a)
  {
    hide NonceOf, CurrentAccount, AccountOrEmpty, Keys, SetNonce;
    var warm := AccessAccount(s, txn.action.to);
    OneWarm(s, WarmAccount(txn.action.to));
    SubstateMoves(warm, ChangeNonce(txn.sender, txn.nonce + 1));
    NonceSet(warm, txn.sender, txn.nonce + 1);
    var t := SetNonce(warm, txn.sender, txn.nonce + 1);
    forall a: Address ensures NonceOf(t, a) == if a == txn.sender then txn.nonce + 1 else NonceOf(s, a) {
      NonceIn(warm, a);
      NonceIn(t, a);
      assert CurrentAccount(t, a) == if a == txn.sender then Some(AccountOrEmpty(warm, a).(nonce := txn.nonce + 1)) else CurrentAccount(warm, a);
    }
  }

  lemma {:induction false} RunsInTurn(s: Ibs, first: seq<Op>, last: seq<Op>)
    ensures Run(s, first + last) == Run(Run(s, first), last)
    decreases |first|
  {
    hide Apply;
    if first == [] {
      assert first + last == last;
    } else {
      assert (first + last)[1..] == first[1..] + last;
      RunsInTurn(Apply(s, first[0]), first[1..], last);
    }
  }

  lemma {:induction false} ListWarm(s: Ibs, ops: seq<Op>)
    requires forall op :: op in ops ==> op.WarmAccount? || op.WarmSlot?
    ensures var t := Run(s, ops);
      && t.accessedAddresses == s.accessedAddresses + WarmedAddresses(ops)
      && forall a: Address :: Keys(t, a) == Keys(s, a) + WarmedKeys(ops, a) && NonceOf(t, a) == NonceOf(s, a)
    decreases |ops|
  {
    hide Apply, Keys, NonceOf;
    if ops != [] {
      assert ops[0] in ops;
      OneWarm(s, ops[0]);
      var t := Apply(s, ops[0]);
      ListWarm(t, ops[1..]);
      assert ops == [ops[0]] + ops[1..];
      assert WarmedAddresses(ops) == (if ops[0].WarmAccount? then {ops[0].address} else {}) + WarmedAddresses(ops[1..]);
      forall a: Address ensures Keys(Run(s, ops), a) == Keys(s, a) + WarmedKeys(ops, a) && NonceOf(Run(s, ops), a) == NonceOf(s, a) {
        assert WarmedKeys(ops, a) == (if ops[0].WarmSlot? && ops[0].address == a then {ops[0].key} else {}) + WarmedKeys(ops[1..], a);
        assert NonceOf(t, a) == NonceOf(s, a) && Keys(t, a) == Keys(s, a) + if ops[0].WarmSlot? && ops[0].address == a then {ops[0].key} else {};
      }
    }
  }

  lemma OneWarm(s: Ibs, op: Op)
    requires op.WarmAccount? || op.WarmSlot?
    ensures var t := Apply(s, op);
      && t.accessedAddresses == s.accessedAddresses + (if op.WarmAccount? then {op.address} else {})
      && forall a: Address ::
           Keys(t, a) == Keys(s, a) + (if op.WarmSlot? && op.address == a then {op.key} else {}) && NonceOf(t, a) == NonceOf(s, a)
  {
  }

  /** The nonce that validation asked for cannot be used again, unless the sender is a contract that destroyed itself. */
  lemma NonceRaised(context: Context, s: Ibs, txn: Txn, e: Execution)
    requires Bounded(s) && PreValidated(txn, context.baseFee) && CanPay(s, txn) && e.gasLeft <= txn.gasLimit
    requires NonceOf(s, txn.sender) == txn.nonce
    ensures var o := Executed(context, s, txn, e); txn.sender in o.state.selfDestructs || NonceOf(o.state, txn.sender) > txn.nonce
  {
    var zero: U256 := 0;
    CostCovered(s, txn, context.baseFee);
    StillOwns(s, txn, context.baseFee);
    hide Inv, Supply, Bounded, GasLeft, CloseTransaction, Held, PreValidated, CanPay, Balance, Messages.Perform, Bought, PaidOut, Onward, NonceOf,
      UpFrontCost, CurrentAccount;
    var bought, m := Bought(s, txn, context.baseFee), TopMessage(txn, e);
    BoughtMoney(s, txn, context.baseFee);
    BoughtWarm(s, txn, context.baseFee);
    PerformRecorded(context.rev, bought, m);
    if txn.action.CreateAt? {
      CreationRecorded(context.rev, bought, m);
    }
    SameNonceAt(bought, Messages.Perform(context.rev, bought, m).state, txn.sender);
    var paid := PaidOut(context, s, txn, e);
    PaidOutRecords(context, s, txn, e);
    EndSelfDestructs(context.rev, paid);
    EndAnswers(context.rev, paid, txn.sender, zero, false);
    NonceKept(context.rev, paid, txn.sender);
  }

  lemma StillOwns(s: Ibs, txn: Txn, baseFee: U256)
    requires PreValidated(txn, baseFee) && CanPay(s, txn)
    ensures UpFrontCost(txn, baseFee) + txn.value <= Balance(s, txn.sender)
  {
    ProductLe(EffectiveGasPrice(txn, baseFee), txn.maxFee, txn.gasLimit);
  }

  lemma NonceKept(rev: Revision, s: Ibs, a: Address)
    requires NonceOf(s, a) > 0
    requires CurrentAccount(CloseTransaction(rev, s), a) == if Removed(rev, s, a) then None else CurrentAccount(s, a)
    ensures a in s.selfDestructs || NonceOf(CloseTransaction(rev, s), a) == NonceOf(s, a)
  {
    hide CloseTransaction;
  }

  // Blocks

  /** What has become of a block so far. */
  datatype Total = Total(state: Ibs, gas: nat, burned: nat)

  /** The transaction is valid on the state, fits in the block, and pays for its own size. */
  predicate Acceptable(context: Context, s: Ibs, txn: Txn, e: Execution, gas: nat) {
    && CodeHashOf(s, txn.sender) == EMPTY_HASH && NonceOf(s, txn.sender) == txn.nonce
    && CanPay(s, txn) && gas + txn.gasLimit <= context.gasLimit && e.intrinsicGas <= txn.gasLimit
  }

  /** Transactions that were checked before, with executions that never return more gas than they were given. */
  predicate Runnable(context: Context, txns: seq<Txn>, executions: seq<Execution>) {
    && |executions| == |txns| && (forall i :: 0 <= i < |txns| ==> PreValidated(txns[i], context.baseFee))
    && forall i :: 0 <= i < |txns| && executions[i].intrinsicGas <= txns[i].gasLimit ==>
         executions[i].intrinsicGas + executions[i].gasLeft <= txns[i].gasLimit
  }

  /** The block after `n` transactions, if they were all acceptable. */
  ghost function AfterTxns(context: Context, s: Ibs, txns: seq<Txn>, executions: seq<Execution>, n: nat): Option<Total>
    requires Runnable(context, txns, executions) && n <= |txns|
    decreases n
  {
    if n == 0 then Some(Total(s, 0, 0))
    else
      match AfterTxns(context, s, txns, executions, n - 1)
      case None => None
      case Some(before) => NextTxn(context, before, txns[n - 1], executions[n - 1])
  }

  ghost function NextTxn(context: Context, before: Total, txn: Txn, e: Execution): Option<Total>
    requires PreValidated(txn, context.baseFee) && (e.intrinsicGas <= txn.gasLimit ==> e.intrinsicGas + e.gasLeft <= txn.gasLimit)
  {
    var seen := GetObject(before.state, txn.sender).0;
    if Acceptable(context, seen, txn, e, before.gas) then
      var o := Executed(context, seen, txn, e);
      Some(Total(o.state, before.gas + o.gasUsed, before.burned + o.burned))
    else None
  }

  lemma NextMoney(context: Context, before: Total, txn: Txn, e: Execution)
    requires PreValidated(txn, context.baseFee) && (e.intrinsicGas <= txn.gasLimit ==> e.intrinsicGas + e.gasLeft <= txn.gasLimit)
    requires Bounded(before.state) && NextTxn(context, before, txn, e).Some?
    ensures var after := NextTxn(context, before, txn, e).value;
      && Bounded(after.state) && before.gas <= after.gas <= context.gasLimit
      && Supply(after.state) + after.gas * context.baseFee + after.burned == Supply(before.state) + before.gas * context.baseFee + before.burned
  {
    hide Inv, Supply, Bounded, Executed, GetObject, PreValidated, CanPay;
    var seen := GetObject(before.state, txn.sender).0;
    LookUpKeeps(before.state, txn.sender);
    ExecutedMoney(context, seen, txn, e);
    Fees(before.gas, Executed(context, seen, txn, e).gasUsed, context.baseFee);
  }

  lemma Fees(before: nat, used: nat, baseFee: nat)
    ensures (before + used) * baseFee == before * baseFee + used * baseFee
  {
  }

  /** Gas only grows and stays within the limit of the block, and all money is accounted for. */
  lemma {:induction false} AfterTxnsMoney(context: Context, s: Ibs, txns: seq<Txn>, executions: seq<Execution>, n: nat)
    requires Runnable(context, txns, executions) && n <= |txns| && Bounded(s) && AfterTxns(context, s, txns, executions, n).Some?
    ensures var t := AfterTxns(context, s, txns, executions, n).value;
      Bounded(t.state) && t.gas <= context.gasLimit && Supply(t.state) + t.gas * context.baseFee + t.burned == Supply(s)
    ensures forall m :: 0 <= m <= n ==>
      var part := AfterTxns(context, s, txns, executions, m);
      part.Some? && part.value.gas <= AfterTxns(context, s, txns, executions, n).value.gas
    decreases n
  {
    hide Bounded, Supply, NextTxn;
    if n > 0 {
      AfterTxnsMoney(context, s, txns, executions, n - 1);
      NextMoney(context, AfterTxns(context, s, txns, executions, n - 1).value, txns[n - 1], executions[n - 1]);
    }
  }

  // Rewards

  type Rewards = seq<(Address, U256)>

  function Rewarded(s: Ibs, rewards: Rewards): Ibs {
    if rewards == [] then s
    else AddBalance(Rewarded(s, rewards[..|rewards| - 1]), rewards[|rewards| - 1].0, rewards[|rewards| - 1].1)
  }

  function RewardSum(rewards: Rewards): nat {
    if rewards == [] then 0 else RewardSum(rewards[..|rewards| - 1]) + rewards[|rewards| - 1].1
  }

  /** What one address is paid in all. */
  function RewardFor(rewards: Rewards, a: Address): nat {
    if rewards == [] then 0
    else RewardFor(rewards[..|rewards| - 1], a) + if rewards[|rewards| - 1].0 == a then rewards[|rewards| - 1].1 else 0
  }

  /** Every address gets what it is paid, and the supply grows by the sum. */
  lemma {:induction false} RewardedMoney(s: Ibs, rewards: Rewards)
    requires Bounded(s) && 2 * (Supply(s) + RewardSum(rewards)) < U256_RANGE
    ensures Bounded(Rewarded(s, rewards)) && Supply(Rewarded(s, rewards)) == Supply(s) + RewardSum(rewards)
    ensures forall a: Address :: Balance(Rewarded(s, rewards), a) == Balance(s, a) + RewardFor(rewards, a)
    decreases |rewards|
  {
    hide Inv, Supply, Bounded, Balance, AddBalance, OneBalance;
    if rewards != [] {
      var front, last := rewards[..|rewards| - 1], rewards[|rewards| - 1];
      RewardedMoney(s, front);
      var before, after := Rewarded(s, front), Rewarded(s, rewards);
      BoundedInv(before);
      BalanceInSupply(before, last.0);
      AddExact(before, last.0, last.1);
      IsBounded(after, Supply(s) + RewardSum(rewards));
      forall a: Address ensures Balance(after, a) == Balance(s, a) + RewardFor(rewards, a) {
        OneBalanceAt(before, after, last.0, Balance(before, last.0) + last.1, a);
      }
    }
  }
}
