/** Executing the transactions of a block, step by step: gas is bought, used, refunded and paid out, and accounts are removed. */
module Processor {
  import opened Basics
  import opened StateTypes
  import opened Journal
  import opened Undoing
  import opened Transactions
  import opened BlockEnd
  import opened Refunds
  import opened Balances
  import opened Messages
  import opened Removals
  import opened Outcomes
  import opened RefundBlocks
  import opened Metering

  datatype Error = SenderNoEOA | WrongNonce | InsufficientFunds | BlockGasLimitExceeded

  method BuyGas(s: Ibs, txn: Txn, baseFee: U256) returns (t: Ibs)
    requires PreValidated(txn, baseFee) && CanPay(s, txn)
    ensures t == Bought(s, txn, baseFee)
  {
    hide Run, SubtractBalance, Prelude, ClearSubstate, AccessAccount, CanPay, PreValidated;
    CostCovered(s, txn, baseFee);
    t := ClearSubstate(s);
    t := AccessAccount(t, txn.sender);
    t := SubtractBalance(t, txn.sender, UpFrontCost(txn, baseFee));
    t := WarmUp(t, txn);
  }

  method WarmUp(s: Ibs, txn: Txn) returns (t: Ibs)
    ensures t == Run(s, Prelude(txn))
  {
    hide Apply, Run;
    t := s;
    ghost var ops: seq<Op> := [];
    if txn.action.CallTo? {
      ops := [WarmAccount(txn.action.to), ChangeNonce(txn.sender, txn.nonce + 1)];
      RunTwoOps(s, ops[0], ops[1]);
      assert ops == [ops[0], ops[1]];
      ApplyIs(t, ops[0]);
      t := AccessAccount(t, txn.action.to);
      ApplyIs(t, ops[1]);
      t := SetNonce(t, txn.sender, txn.nonce + 1);
    } else {
      RunNone(s);
    }
    assert ops + txn.accessList[..0] == ops;
    for i := 0 to |txn.accessList|
      invariant t == Run(s, ops + txn.accessList[..i])
    {
      RunMore(s, ops + txn.accessList[..i], txn.accessList[i]);
      assert ops + txn.accessList[..i] + [txn.accessList[i]] == ops + txn.accessList[..i + 1];
      t := Apply(t, txn.accessList[i]);
    }
    assert ops + txn.accessList[..|txn.accessList|] == Prelude(txn);
  }

  /** Pays back the gas that is left and pays the miner for the gas that was used. */
  method PayGas(s: Ibs, txn: Txn, context: Context, left: nat) returns (t: Ibs)
    requires txn.maxFee >= context.baseFee && left <= txn.gasLimit
    requires PaidBack(txn, context.baseFee, left) < U256_RANGE && PaidMiner(txn, context.baseFee, left) < U256_RANGE
    ensures t == PayOut(s, txn.sender, context.beneficiary, PaidBack(txn, context.baseFee, left), PaidMiner(txn, context.baseFee, left))
  {
    hide AddBalance;
    t := AddBalance(s, txn.sender, left * EffectiveGasPrice(txn, context.baseFee));
    t := AddBalance(t, context.beneficiary, (txn.gasLimit - left) * PriorityFee(txn, context.baseFee));
  }

  /** Removes the accounts that destroyed themselves, in whatever order. */
  method DestructSelfdestructs(s: Ibs) returns (t: Ibs)
    ensures t == DestructSet(s, s.selfDestructs)
  {
    hide *;
    DestructNone(s);
    t := s;
    var rest, done: set<Address> := s.selfDestructs, {};
    while rest != {}
      invariant rest !! done && rest + done == s.selfDestructs && t == DestructSet(s, done)
      decreases |rest|
    {
      var a :| a in rest;
      DestructMore(s, done, a);
      t := Destruct(t, a);
      rest, done := rest - {a}, done + {a};
    }
  }

  /** Removes touched accounts that count as empty, in whatever order. */
  method DestructTouchedDead(s: Ibs) returns (t: Ibs)
    ensures t == RemoveDead(s, s.touched)
  {
    hide *;
    RemoveDeadNone(s);
    t := s;
    var rest, done: set<Address> := s.touched, {};
    while rest != {}
      invariant rest !! done && rest + done == s.touched && t == RemoveDead(s, done)
      decreases |rest|
    {
      var a :| a in rest;
      RemoveDeadMore(s, done, a);
      t := GetObject(t, a).0;
      if Dead(t, a) {
        t := Destruct(t, a);
      }
      rest, done := rest - {a}, done + {a};
    }
  }

  method PayRewards(s: Ibs, rewards: Rewards) returns (t: Ibs)
    ensures t == Rewarded(s, rewards)
  {
    hide AddBalance;
    t := s;
    for i := 0 to |rewards|
      invariant t == Rewarded(s, rewards[..i])
    {
      assert rewards[..i + 1][..i] == rewards[..i];
      t := AddBalance(t, rewards[i].0, rewards[i].1);
    }
    assert rewards[..|rewards|] == rewards;
  }

  class ExecutionProcessor {
    const context: Context
    var state: Ibs
    var cumulativeGasUsed: nat
    /** What self-destructs destroyed. */
    ghost var burned: nat

    constructor (context: Context, state: Ibs)
      ensures this.context == context && this.state == state && cumulativeGasUsed == 0 && burned == 0
    {
      this.context, this.state, cumulativeGasUsed, burned := context, state, 0, 0;
    }

    /** Looks the sender up and says which check fails first, if any. */
    method ValidateTransaction(txn: Txn) returns (error: Option<Error>)
      requires PreValidated(txn, context.baseFee) && cumulativeGasUsed <= context.gasLimit
      modifies this`state
      ensures state == GetObject(old(state), txn.sender).0
      ensures error.None? <==>
        && CodeHashOf(old(state), txn.sender) == EMPTY_HASH && NonceOf(old(state), txn.sender) == txn.nonce
        && CanPay(old(state), txn) && cumulativeGasUsed + txn.gasLimit <= context.gasLimit
      ensures error.None? <==>
        && CodeHashOf(state, txn.sender) == EMPTY_HASH && NonceOf(state, txn.sender) == txn.nonce
        && CanPay(state, txn) && cumulativeGasUsed + txn.gasLimit <= context.gasLimit
      ensures error == Some(SenderNoEOA) <==> CodeHashOf(state, txn.sender) != EMPTY_HASH
      ensures error == Some(WrongNonce) <==> CodeHashOf(state, txn.sender) == EMPTY_HASH && NonceOf(state, txn.sender) != txn.nonce
      ensures error == Some(InsufficientFunds) <==>
        && CodeHashOf(state, txn.sender) == EMPTY_HASH && NonceOf(state, txn.sender) == txn.nonce
        && Balance(state, txn.sender) < txn.gasLimit * txn.maxFee + txn.value
      ensures error in {None, Some(SenderNoEOA), Some(WrongNonce), Some(InsufficientFunds), Some(BlockGasLimitExceeded)}
    {
      LookedUp(state, txn.sender);
      hide GetObject, Balance, CodeHashOf, NonceOf, PreValidated;
      state := GetObject(state, txn.sender).0;
      if CodeHashOf(state, txn.sender) != EMPTY_HASH {
        return Some(SenderNoEOA);
      }
      if NonceOf(state, txn.sender) != txn.nonce {
        return Some(WrongNonce);
      }
      if Balance(state, txn.sender) < txn.gasLimit * txn.maxFee + txn.value {
        return Some(InsufficientFunds);
      }
      if context.gasLimit - cumulativeGasUsed < txn.gasLimit {
        return Some(BlockGasLimitExceeded);
      }
      return None;
    }

    /** Runs a valid transaction. Without enough gas for its own size it is an error, found after the gas was bought. */
    method ExecuteTransaction(txn: Txn, e: Execution) returns (gasUsed: Option<nat>)
      requires PreValidated(txn, context.baseFee) && CanPay(state, txn) && cumulativeGasUsed + txn.gasLimit <= context.gasLimit
      requires e.intrinsicGas <= txn.gasLimit ==> e.intrinsicGas + e.gasLeft <= txn.gasLimit
      modifies this
      ensures gasUsed.None? <==> txn.gasLimit < e.intrinsicGas
      ensures gasUsed.None? ==>
        state == Bought(old(state), txn, context.baseFee) && cumulativeGasUsed == old(cumulativeGasUsed) && burned == old(burned)
      ensures gasUsed.Some? ==>
        && burned >= old(burned) && Outcome(state, gasUsed.value, burned - old(burned)) == Executed(context, old(state), txn, e)
        && cumulativeGasUsed == old(cumulativeGasUsed) + gasUsed.value <= context.gasLimit
      ensures gasUsed.Some? && Bounded(old(state)) ==>
        && Bounded(state) && Supply(state) + gasUsed.value * context.baseFee + (burned - old(burned)) == Supply(old(state))
        && (state.selfDestructs == {} ==> burned == old(burned))
        && (NonceOf(old(state), txn.sender) == txn.nonce && txn.sender !in state.selfDestructs ==> NonceOf(state, txn.sender) > txn.nonce)
    {
      ghost var start := state;
      hide Bought, CanPay, PreValidated, Messages.Perform, RefundGas, PayOut, DestructSet, RemoveDead, Finalize, Held, Bounded, Supply, NonceOf;
      var s := BuyGas(state, txn, context.baseFee);
      if txn.gasLimit < e.intrinsicGas {
        state := s;
        return None;
      }
      if Bounded(start) {
        ExecutedMoney(context, start, txn, e);
        NothingBurned(context, start, txn, e);
        if NonceOf(start, txn.sender) == txn.nonce {
          NonceRaised(context, start, txn, e);
        }
      }
      CostCovered(start, txn, context.baseFee);
      var r := Messages.Perform(context.rev, s, TopMessage(txn, e));
      var left := RefundGas(context.rev, txn, e.gasLeft, r.state.refund, |r.state.selfDestructs|);
      PaymentsFit(start, txn, context.baseFee, left);
      s := PayGas(r.state, txn, context, left);
      burned := burned + r.burned + Held(s, s.selfDestructs);
      s := DestructSelfdestructs(s);
      if context.rev.AtLeast(Spurious) {
        s := DestructTouchedDead(s);
      }
      state := Finalize(s);
      cumulativeGasUsed := cumulativeGasUsed + (txn.gasLimit - left);
      gasUsed := Some(txn.gasLimit - left);
    }

    /**
     Runs the transactions of a block and pays the rewards; an error when one of them is not acceptable where it stands.
     The receipts say how the gas adds up.
     */
    method ExecuteBlock(txns: seq<Txn>, executions: seq<Execution>, rewards: Rewards) returns (receipts: Option<seq<nat>>)
      requires Runnable(context, txns, executions) && cumulativeGasUsed == 0 && burned == 0
      modifies this
      ensures receipts.Some? <==> AfterTxns(context, old(state), txns, executions, |txns|).Some?
      ensures receipts.Some? ==> var total := AfterTxns(context, old(state), txns, executions, |txns|).value;
        && state == Rewarded(total.state, rewards) && cumulativeGasUsed == total.gas && burned == total.burned
        && |receipts.value| == |txns|
        && forall i :: 0 <= i < |txns| ==> IsReceipt(context, old(state), txns, executions, i, receipts.value[i])
      ensures receipts.Some? && Bounded(old(state)) && 2 * (Supply(old(state)) + RewardSum(rewards)) < U256_RANGE ==>
        && Bounded(state) && cumulativeGasUsed <= context.gasLimit
        && (forall i, j :: 0 <= i < j < |txns| ==> receipts.value[i] <= receipts.value[j])
        && Supply(state) + cumulativeGasUsed * context.baseFee + burned == Supply(old(state)) + RewardSum(rewards)
      ensures receipts.Some? && Bounded(old(state)) && Between(old(state)) && ProperBlock(txns, executions) ==>
        forall i :: 0 <= i < |txns| ==> MeteredAt(context, old(state), txns, executions, i)
    {
      hide *;
      ghost var start := state;
      var gas := [];
      NoTxns(context, start, txns, executions);
      for i := 0 to |txns|
        invariant |gas| == i && AfterTxns(context, start, txns, executions, i) == Some(Total(state, cumulativeGasUsed, burned))
        invariant cumulativeGasUsed <= context.gasLimit || i == 0
        invariant i == 0 ==> cumulativeGasUsed == 0
        invariant forall j :: 0 <= j < i ==> IsReceipt(context, start, txns, executions, j, gas[j])
      {
        ghost var before := Total(state, cumulativeGasUsed, burned);
        RunnableAt(context, txns, executions, i);
        NextIs(context, start, txns, executions, i, before);
        var error := ValidateTransaction(txns[i]);
        AcceptableIs(context, state, txns[i], executions[i], cumulativeGasUsed);
        if error.Some? {
          StaysNone(context, start, txns, executions, i + 1, |txns|);
          return None;
        }
        var used := ExecuteTransaction(txns[i], executions[i]);
        if used.None? {
          StaysNone(context, start, txns, executions, i + 1, |txns|);
          return None;
        }
        gas := gas + [cumulativeGasUsed];
        assert AfterTxns(context, start, txns, executions, i + 1) == Some(Total(state, cumulativeGasUsed, burned));
        ReceiptIs(context, start, txns, executions, i, cumulativeGasUsed);
      }
      ghost var total := Total(state, cumulativeGasUsed, burned);
      BlockMoney(context, start, txns, executions, gas, rewards);
      if Bounded(start) && Between(start) && ProperBlock(txns, executions) {
        BlockMetered(context, start, txns, executions, |txns|);
      }
      var s := PayRewards(state, rewards);
      state := s;
      return Some(gas);
    }
  }

  lemma NoTxns(context: Context, s: Ibs, txns: seq<Txn>, executions: seq<Execution>)
    requires Runnable(context, txns, executions)
    ensures AfterTxns(context, s, txns, executions, 0) == Some(Total(s, 0, 0))
  {
  }

  /** A receipt says the gas used up to its transaction, this one included. */
  ghost predicate IsReceipt(context: Context, s: Ibs, txns: seq<Txn>, executions: seq<Execution>, i: nat, gas: nat)
    requires Runnable(context, txns, executions)
  {
    i < |txns| && AfterTxns(context, s, txns, executions, i + 1).Some? && gas == AfterTxns(context, s, txns, executions, i + 1).value.gas
  }

  lemma ReceiptIs(context: Context, s: Ibs, txns: seq<Txn>, executions: seq<Execution>, i: nat, gas: nat)
    requires Runnable(context, txns, executions) && i < |txns|
    requires AfterTxns(context, s, txns, executions, i + 1).Some? && gas == AfterTxns(context, s, txns, executions, i + 1).value.gas
    ensures IsReceipt(context, s, txns, executions, i, gas)
  {
  }

  lemma RunnableAt(context: Context, txns: seq<Txn>, executions: seq<Execution>, i: nat)
    requires Runnable(context, txns, executions) && i < |txns|
    ensures |executions| == |txns| && PreValidated(txns[i], context.baseFee)
    ensures executions[i].intrinsicGas <= txns[i].gasLimit ==> executions[i].intrinsicGas + executions[i].gasLeft <= txns[i].gasLimit
  {
  }

  /** One transaction more. */
  lemma NextIs(context: Context, s: Ibs, txns: seq<Txn>, executions: seq<Execution>, i: nat, before: Total)
    requires Runnable(context, txns, executions) && i < |txns| && AfterTxns(context, s, txns, executions, i) == Some(before)
    ensures PreValidated(txns[i], context.baseFee)
    ensures var seen, after := GetObject(before.state, txns[i].sender).0, AfterTxns(context, s, txns, executions, i + 1);
      && (after.Some? <==> Acceptable(context, seen, txns[i], executions[i], before.gas))
      && (after.Some? ==>
            && CanPay(seen, txns[i]) && executions[i].gasLeft <= txns[i].gasLimit
            && var o := Executed(context, seen, txns[i], executions[i]);
               after.value == Total(o.state, before.gas + o.gasUsed, before.burned + o.burned))
  {
    hide Executed, GetObject, PreValidated, CanPay;
  }

  lemma AcceptableIs(context: Context, s: Ibs, txn: Txn, e: Execution, gas: nat)
    ensures Acceptable(context, s, txn, e, gas) <==>
      && CodeHashOf(s, txn.sender) == EMPTY_HASH && NonceOf(s, txn.sender) == txn.nonce
      && CanPay(s, txn) && gas + txn.gasLimit <= context.gasLimit && e.intrinsicGas <= txn.gasLimit
  {
  }

  lemma {:induction false} StaysNone(context: Context, s: Ibs, txns: seq<Txn>, executions: seq<Execution>, i: nat, n: nat)
    requires Runnable(context, txns, executions) && i <= n <= |txns| && AfterTxns(context, s, txns, executions, i).None?
    ensures AfterTxns(context, s, txns, executions, n).None?
    decreases n - i
  {
    hide NextTxn, Runnable;
    if i < n {
      StaysNone(context, s, txns, executions, i, n - 1);
    }
  }

  lemma BlockMoney(context: Context, s: Ibs, txns: seq<Txn>, executions: seq<Execution>, gas: seq<nat>, rewards: Rewards)
    requires Runnable(context, txns, executions) && AfterTxns(context, s, txns, executions, |txns|).Some? && |gas| == |txns|
    requires forall j :: 0 <= j < |txns| ==> IsReceipt(context, s, txns, executions, j, gas[j])
    ensures var total := AfterTxns(context, s, txns, executions, |txns|).value;
      Bounded(s) && 2 * (Supply(s) + RewardSum(rewards)) < U256_RANGE ==>
        && Bounded(Rewarded(total.state, rewards)) && total.gas <= context.gasLimit
        && (forall i, j :: 0 <= i < j < |txns| ==> gas[i] <= gas[j])
        && Supply(Rewarded(total.state, rewards)) + total.gas * context.baseFee + total.burned == Supply(s) + RewardSum(rewards)
  {
    hide Bounded, Supply, AfterTxns, Rewarded, Runnable;
    if Bounded(s) && 2 * (Supply(s) + RewardSum(rewards)) < U256_RANGE {
      AfterTxnsMoney(context, s, txns, executions, |txns|);
      RewardedMoney(AfterTxns(context, s, txns, executions, |txns|).value.state, rewards);
      forall i, j | 0 <= i < j < |txns| ensures gas[i] <= gas[j] {
        assert IsReceipt(context, s, txns, executions, i, gas[i]) && IsReceipt(context, s, txns, executions, j, gas[j]);
        AfterTxnsMoney(context, s, txns, executions, j + 1);
      }
    }
  }

  lemma LookedUp(s: Ibs, a: Address)
    ensures var t := GetObject(s, a).0; CodeHashOf(t, a) == CodeHashOf(s, a) && NonceOf(t, a) == NonceOf(s, a) && Balance(t, a) == Balance(s, a)
  {
  }
}
