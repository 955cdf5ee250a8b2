/** The refund counter over the transactions of a block, from its first state on. */
module RefundBlocks {
  import opened StateTypes
  import opened Journal
  import opened Undoing
  import opened Transactions
  import opened BlockEnd
  import opened Refunds

  /** What a transaction does to the state, and the accounts that are removed at its end. */
  datatype ActionTxn = ActionTxn(actions: seq<Action>, removals: seq<Address>)

  function DestructEach(s: Ibs, removals: seq<Address>): Ibs
    decreases |removals|
  {
    if removals == [] then s else DestructEach(Destruct(s, removals[0]), removals[1..])
  }

  function RunTxn(rev: Revision, s: Ibs, txn: ActionTxn): Ibs {
    Finalize(DestructEach(ActAll(rev, ClearSubstate(s), txn.actions), txn.removals))
  }

  function RunTxns(rev: Revision, s: Ibs, txns: seq<ActionTxn>): Ibs {
    if txns == [] then s else RunTxn(rev, RunTxns(rev, s, txns[..|txns| - 1]), txns[|txns| - 1])
  }

  /** Between two transactions nothing is pending, and there is no storage without an account. */
  ghost predicate Between(s: Ibs) {
    Inv(s) && AbsentZero(s) && forall a :: a in s.storage ==> s.storage[a].current == map[]
  }

  lemma FreshBetween(db: Db)
    ensures Between(Fresh(db))
  {
    FreshInv(db);
  }

  /** At the start of a transaction nothing is cleared yet, and the counter is zero. */
  lemma StartsCovered(rev: Revision, s: Ibs)
    requires Between(s)
    ensures Covered(rev, ClearSubstate(s))
  {
    var t := ClearSubstate(s);
    hide Inv;
    ClearSubstateInv(s);
    forall a: Address, k: U256 | !Exists(t, a) ensures ZeroAt(t, a, k) {
      assert ZeroAt(s, a, k);
    }
    StartCovered(rev, t);
  }

  lemma DestructAbsent(s: Ibs, a: Address)
    requires Inv(s) && AbsentZero(s)
    ensures Inv(Destruct(s, a)) && AbsentZero(Destruct(s, a))
  {
    DestructInv(s, a);
    hide Inv;
    var t := Destruct(s, a);
    forall b: Address, k: U256 | !Exists(t, b) ensures ZeroAt(t, b, k) {
      assert b != a ==> ZeroAt(s, b, k);
    }
  }

  lemma {:induction false} DestructEachAbsent(s: Ibs, removals: seq<Address>)
    requires Inv(s) && AbsentZero(s)
    ensures Inv(DestructEach(s, removals)) && AbsentZero(DestructEach(s, removals))
    decreases |removals|
  {
    hide Inv, AbsentZero, Destruct;
    if removals != [] {
      DestructAbsent(s, removals[0]);
      DestructEachAbsent(Destruct(s, removals[0]), removals[1..]);
    }
  }

  lemma FinalizeBetween(s: Ibs)
    requires Inv(s) && AbsentZero(s)
    ensures Between(Finalize(s))
  {
    FinalizeInv(s);
    hide Inv;
    var t := Finalize(s);
    forall a: Address, k: U256 | !Exists(t, a) ensures ZeroAt(t, a, k) {
      assert ZeroAt(s, a, k);
    }
  }

  lemma TxnBetween(rev: Revision, s: Ibs, txn: ActionTxn)
    requires Between(s)
    ensures Between(RunTxn(rev, s, txn)) && NoUnderflow(rev, ClearSubstate(s), txn.actions)
  {
    hide Between, Covered, Finalize, ActAll, NoUnderflow, DestructEach, Step, ClearSubstate, Inv, AbsentZero;
    StartsCovered(rev, s);
    RefundNeverUnderflows(rev, ClearSubstate(s), txn.actions);
    CoveredParts(rev, ActAll(rev, ClearSubstate(s), txn.actions));
    DestructEachAbsent(ActAll(rev, ClearSubstate(s), txn.actions), txn.removals);
    FinalizeBetween(DestructEach(ActAll(rev, ClearSubstate(s), txn.actions), txn.removals));
  }

  /** Over any block on any state, in no transaction does a subtraction from the counter underflow. */
  lemma {:induction false} BlockNeverUnderflows(rev: Revision, db: Db, txns: seq<ActionTxn>)
    ensures Between(RunTxns(rev, Fresh(db), txns))
    ensures forall i :: 0 <= i < |txns| ==>
      var s := ClearSubstate(RunTxns(rev, Fresh(db), txns[..i])); Covered(rev, s) && NoUnderflow(rev, s, txns[i].actions)
  {
    hide Between, Covered, RunTxn, NoUnderflow, ClearSubstate;
    if txns == [] {
      FreshBetween(db);
    } else {
      var n := |txns| - 1;
      BlockNeverUnderflows(rev, db, txns[..n]);
      var before := RunTxns(rev, Fresh(db), txns[..n]);
      TxnBetween(rev, before, txns[n]);
      StartsCovered(rev, before);
      forall i | 0 <= i < |txns|
        ensures var s := ClearSubstate(RunTxns(rev, Fresh(db), txns[..i])); Covered(rev, s) && NoUnderflow(rev, s, txns[i].actions)
      {
        if i < n {
          assert txns[..n][..i] == txns[..i] && txns[..n][i] == txns[i];
        }
      }
    }
  }
}
