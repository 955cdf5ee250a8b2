/** What calls and creations leave behind: what a failed one leaves, what a successful one starts from, and what it keeps. */
module CallResults {
  import opened Basics
  import opened StateTypes
  import opened Journal
  import opened Undoing
  import opened Transactions
  import opened Refunds
  import opened Balances
  import opened Effects
  import opened Messages
  import opened Records
  import opened Metering
  import opened RefundLaw

  // Where calls and creations start

  /** The code of a call runs unless the caller cannot pay, or there is neither value nor account nor precompiled code. */
  predicate CallRuns(rev: Revision, s: Ibs, m: Message)
    requires m.Call?
  {
    && (m.kind == DelegateCall || m.value <= Balance(s, m.caller))
    && (m.value != 0 || rev in {Frontier, Homestead, Tangerine} || m.precompiled || Exists(s, m.codeAddress))
  }

  /** The code of a creation runs if the creator can pay and there is neither nonce nor code at the address. */
  predicate CreationRuns(s: Ibs, m: Message)
    requires m.Creation?
  {
    && m.endowment <= Balance(s, m.creator) && m.contract != m.creator
    && NonceOf(s, m.contract) == 0 && CodeHashOf(s, m.contract) == EMPTY_HASH
  }

  /** All accounts and slots answer alike. */
  ghost predicate SameReads(s: Ibs, t: Ibs) {
    && (forall b: Address :: CurrentAccount(t, b) == CurrentAccount(s, b))
    && (forall b: Address, k: U256, original: bool :: ReadSlot(t, b, k, original) == ReadSlot(s, b, k, original))
  }

  /** Balances have moved, and nothing else about accounts and slots that were there. */
  ghost predicate Moved(s: Ibs, t: Ibs, from: Address, to: Address, v: U256) {
    && (forall b: Address :: Balance(t, b) + (if b == from then v else 0) == Balance(s, b) + (if b == to then v else 0))
    && (forall b: Address :: CurrentAccount(t, b) == if b == from || b == to then Some(AccountOrEmpty(s, b).(balance := Balance(t, b))) else CurrentAccount(s, b))
    && (forall b: Address, k: U256, original: bool :: Exists(s, b) ==> ReadSlot(t, b, k, original) == ReadSlot(s, b, k, original))
    && SameSubstate(s, t) && t.touched == s.touched + {from, to}
  }

  lemma BalanceWritten(s: Ibs, a: Address, v: U256)
    ensures var t := WriteBalance(s, a, v);
      && (forall b: Address, k: U256, original: bool :: Exists(s, b) ==> ReadSlot(t, b, k, original) == ReadSlot(s, b, k, original))
      && (forall b: Address :: Exists(s, b) ==> Exists(t, b))
      && (forall b: Address :: CurrentAccount(t, b) == if b == a then Some(AccountOrEmpty(s, a).(balance := v)) else CurrentAccount(s, b))
      && SameSubstate(s, t) && t.touched == s.touched + {a}
  {
    EnsureEffect(s, a);
    var s1, t := EnsureObject(s, a), WriteBalance(s, a, v);
    assert t.storage == s.storage && t.incarnations == s.incarnations && t.db == s.db;
    BalanceSet(s, a, v);
    TouchesOne(s, a, v);
    forall k: U256, original: bool ensures Exists(s, a) ==> ReadSlot(t, a, k, original) == ReadSlot(s, a, k, original) {
      assert Exists(s, a) ==> Obj(t, a).value.initial == Obj(s, a).value.initial;
    }
    hide WriteBalance, EnsureObject, ReadSlot;
    assert forall b: Address :: Exists(s, b) ==> CurrentAccount(t, b).Some?;
  }

  lemma BalanceIn(s: Ibs, a: Address)
    ensures Balance(s, a) == AccountOrEmpty(s, a).balance
    ensures CurrentAccount(s, a).Some? ==> CurrentAccount(s, a).value == AccountOrEmpty(s, a)
    ensures CurrentAccount(s, a).Some? <==> Exists(s, a)
    ensures CurrentAccount(s, a).None? ==> AccountOrEmpty(s, a) == EMPTY_ACCOUNT
    ensures NonceOf(s, a) == AccountOrEmpty(s, a).nonce && CodeHashOf(s, a) == AccountOrEmpty(s, a).codeHash
  {
  }

  /** The whole effect of a transfer. */
  lemma TransferEffect(s: Ibs, from: Address, to: Address, v: U256)
    requires Bounded(s) && v <= Balance(s, from)
    ensures Moved(s, Transfer(s, from, to, v).state, from, to, v)
  {
    hide WriteBalance, ReadSlot, Exists, CurrentAccount, AccountOrEmpty, Balance, SameSubstate, Bounded, EnsureObject, Live;
    TransferMoves(s, from, to, v);
    var s1 := SubtractBalance(s, from, v);
    var t := AddBalance(s1, to, v);
    BalanceWritten(s, from, WrappingSub(Live(EnsureObject(s, from), from).balance, v));
    BalanceWritten(s1, to, WrappingAdd(Live(EnsureObject(s1, to), to).balance, v));
    SubstateTwice(s, s1, t);
    forall b: Address ensures CurrentAccount(t, b) == if b == from || b == to then Some(AccountOrEmpty(s, b).(balance := Balance(t, b))) else CurrentAccount(s, b) {
      BalanceIn(s, b);
      BalanceIn(s1, b);
      BalanceIn(t, b);
    }
  }

  lemma SubstateTwice(s: Ibs, t: Ibs, u: Ibs)
    requires SameSubstate(s, t) && SameSubstate(t, u)
    ensures SameSubstate(s, u)
  {
    hide Keys;
    forall b: Address ensures Keys(u, b) == Keys(s, b) {
      assert Keys(t, b) == Keys(s, b);
    }
  }

  /** Where the code of a call starts: with the value moved, or with a touched recipient, or with nothing changed. */
  lemma CallStart(rev: Revision, s: Ibs, m: Message)
    requires Bounded(s) && m.Call?
    ensures Entered(rev, s, m).Some? <==> CallRuns(rev, s, m)
    ensures CallRuns(rev, s, m) ==> var t := Entered(rev, s, m).value;
      if m.kind == CallOp && !m.isStatic then Moved(s, t, m.caller, m.recipient, m.value)
      else
        && SameReads(s, t) && SameSubstate(s, t)
        && t.touched == s.touched + (if m.kind == CallOp then {m.recipient} else {})
  {
    hide Transfer, ReadSlot, Exists, CurrentAccount, Balance, Bounded, Moved, GetObject, TouchAddress, SameReads;
    var s1 := GetObject(s, m.caller).0;
    LookedUp(s, m.caller);
    if CallRuns(rev, s, m) {
      if m.kind == CallOp && !m.isStatic {
        TransferEffect(s1, m.caller, m.recipient, m.value);
        MovedAfterLook(s, s1, Transfer(s1, m.caller, m.recipient, m.value).state, m.caller, m.recipient, m.value);
      } else if m.kind == CallOp {
        TouchEffect(s1, m.recipient);
        ReadsTwice(s, s1, TouchAddress(s1, m.recipient));
      }
    }
  }

  lemma TouchEffect(s: Ibs, a: Address)
    ensures var t := TouchAddress(s, a); SameReads(s, t) && SameSubstate(s, t) && t.touched == s.touched + {a}
  {
    hide ReadSlot, CurrentAccount, Keys;
    SubstateMoves(s, TouchOp(a));
    OnlySubstate(s, TouchOp(a));
  }

  lemma LookedUp(s: Ibs, a: Address)
    ensures var s1 := GetObject(s, a).0;
      && SameReads(s, s1) && SameSubstate(s, s1) && s1.touched == s.touched && Balance(s1, a) == Balance(s, a)
      && (forall b: Address :: Exists(s1, b) == Exists(s, b)) && (Bounded(s) ==> Bounded(s1))
  {
    hide GetObject, ReadSlot, Balance, Exists, CurrentAccount, Bounded, AccountOrEmpty;
    var zero: U256 := 0;
    CacheOnly(s, a, zero, false);
    OnlySubstate(s, ReadAccount(a));
    ReadKeepsBalance(s, a);
    var s1 := GetObject(s, a).0;
    if Bounded(s) {
      BoundedInv(s);
      QuietAccounted(s, ReadAccount(a));
      AccountedBounded(s, Result(s1, 0, true));
    }
    forall b: Address ensures Exists(s1, b) == Exists(s, b) {
      BalanceIn(s, b);
      BalanceIn(s1, b);
    }
  }

  lemma ReadsTwice(s: Ibs, t: Ibs, u: Ibs)
    requires SameReads(s, t) && SameReads(t, u) && SameSubstate(s, t) && SameSubstate(t, u)
    ensures SameReads(s, u) && SameSubstate(s, u)
  {
    hide ReadSlot, CurrentAccount, Keys;
    forall b: Address ensures Keys(u, b) == Keys(s, b) {
      assert Keys(t, b) == Keys(s, b);
    }
    forall b: Address ensures CurrentAccount(u, b) == CurrentAccount(s, b) {
      assert CurrentAccount(t, b) == CurrentAccount(s, b);
    }
    forall b: Address, k: U256, original: bool ensures ReadSlot(u, b, k, original) == ReadSlot(s, b, k, original) {
      assert ReadSlot(t, b, k, original) == ReadSlot(s, b, k, original);
    }
  }

  lemma MovedAfterLook(s: Ibs, s1: Ibs, t: Ibs, from: Address, to: Address, v: U256)
    requires SameReads(s, s1) && SameSubstate(s, s1) && s1.touched == s.touched && Moved(s1, t, from, to, v)
    ensures Moved(s, t, from, to, v)
  {
    hide ReadSlot, CurrentAccount, Balance, AccountOrEmpty, SameSubstate, Exists;
    SubstateTwice(s, s1, t);
    forall b: Address
      ensures Balance(s1, b) == Balance(s, b) && Exists(s1, b) == Exists(s, b) && AccountOrEmpty(s1, b) == AccountOrEmpty(s, b)
      ensures CurrentAccount(s1, b) == CurrentAccount(s, b)
    {
      BalanceIn(s, b);
      BalanceIn(s1, b);
    }
    assert forall b: Address, k: U256, original: bool :: ReadSlot(s1, b, k, original) == ReadSlot(s, b, k, original);
  }

  // What calls leave

  lemma PerformCall(rev: Revision, s: Ibs, m: Message)
    requires m.Call?
    ensures var r, start, entered := Perform(rev, s, m), GetObject(s, m.caller).0, Entered(rev, s, m);
      if entered.None? then r.burned == 0 && (r.state == start || r.state == GetObject(start, m.codeAddress).0)
      else
        var done := PerformAll(rev, entered.value, m.body);
        if m.success then r.state == done.state && r.burned == done.burned
        else r.state == RevertToSnapshot(done.state, TakeSnapshot(start)) && r.burned == 0
  {
    hide Transfer, GetObject, TouchAddress, PerformAll, RevertToSnapshot, Balance, Exists;
  }

  lemma CallStepped(rev: Revision, s: Ibs, m: Message)
    requires Bounded(s) && m.Call? && Entered(rev, s, m).Some?
    ensures var start, t := GetObject(s, m.caller).0, Entered(rev, s, m).value;
      && Inv(start) && Accounted(start, Result(t, 0, true)) && Bounded(t)
  {
    hide Accounted, Inv, Transfer, TouchAddress, GetObject, Balance, Exists, Bounded;
    var start := GetObject(s, m.caller).0;
    LookedUp(s, m.caller);
    BoundedInv(start);
    if m.kind != CallOp {
      Nothing(start);
    } else if m.isStatic {
      QuietAccounted(start, TouchOp(m.recipient));
    } else {
      TransferAccounted(start, m.caller, m.recipient, m.value);
      ExactlyAccounted(start, m.caller, m.recipient, m.value);
    }
    AccountedBounded(start, Result(Entered(rev, s, m).value, 0, true));
  }

  lemma ExactlyAccounted(s: Ibs, from: Address, to: Address, v: U256)
    requires Accounted(s, Transfer(s, from, to, v))
    ensures Accounted(s, Result(Transfer(s, from, to, v).state, 0, true))
  {
    hide Inv, Step, Supply, SubtractBalance, AddBalance;
    TransferBurnsNothing(s, from, to, v);
  }

  /** A frame that is taken back ends as it began, up to what reads have cached. */
  lemma FrameTakenBack(rev: Revision, start: Ibs, entered: Ibs, after: Ibs)
    requires Inv(start) && Step(start, entered) && Step(entered, after)
    ensures var r := RevertToSnapshot(after, TakeSnapshot(start)); Refines(r, start) && r.logs == start.logs && r.refund == start.refund
  {
    hide Inv, Step, Refines, Undoable, RevertToSnapshot;
    StepsCompose(start, entered, after);
    RevertRestores(start, after);
  }

  lemma AccountedSteps(s: Ibs, r: Result)
    requires Accounted(s, r)
    ensures Step(s, r.state)
  {
  }

  /** A call that is refused, that has nothing to run, or that fails, leaves all answers as they were; only 0x03 may be touched. */
  lemma CallUndone(rev: Revision, s: Ibs, m: Message)
    requires Bounded(s) && m.Call? && !(CallRuns(rev, s, m) && m.success)
    ensures SameAnswers(Perform(rev, s, m).state, s) && Perform(rev, s, m).burned == 0
  {
    hide Accounted, Inv, Step, Refines, Bounded, Entered, CallRuns, Perform, PerformAll, GetObject, RevertToSnapshot, SameAnswers, Moved, SameReads;
    var start, r := GetObject(s, m.caller).0, Perform(rev, s, m);
    CallStart(rev, s, m);
    PerformCall(rev, s, m);
    LookRefines(s, m.caller);
    LookRefines(start, m.codeAddress);
    if Entered(rev, s, m).Some? {
      var t := Entered(rev, s, m).value;
      CallStepped(rev, s, m);
      AllAccounted(rev, t, m.body);
      AccountedSteps(start, Result(t, 0, true));
      AccountedSteps(t, PerformAll(rev, t, m.body));
      FrameTakenBack(rev, start, t, PerformAll(rev, t, m.body).state);
    }
    if r.state != start {
      RefinesTransitive(r.state, start, s);
    }
    RefinesAnswers(r.state, s);
  }

  lemma LookRefines(s: Ibs, a: Address)
    ensures var t := GetObject(s, a).0; Refines(t, s) && t.logs == s.logs && t.refund == s.refund
  {
    GetObjectStep(s, a);
    hide Refines;
  }

  /** A call that runs and succeeds leaves what its code leaves, from where `CallStart` says that it starts. */
  lemma CallKept(rev: Revision, s: Ibs, m: Message)
    requires m.Call? && CallRuns(rev, s, m) && m.success && Bounded(s)
    ensures Entered(rev, s, m).Some?
    ensures Perform(rev, s, m).state == PerformAll(rev, Entered(rev, s, m).value, m.body).state
    ensures Perform(rev, s, m).burned == PerformAll(rev, Entered(rev, s, m).value, m.body).burned
  {
    hide Perform, PerformAll, Bounded, Entered, CallRuns, Moved, SameReads;
    CallStart(rev, s, m);
    PerformCall(rev, s, m);
  }

  /** A plain payment: exactly the value moves from the caller to the recipient. */
  lemma PaymentMoves(rev: Revision, s: Ibs, m: Message)
    requires Bounded(s) && m.Call? && m.kind == CallOp && !m.isStatic && m.body == [] && m.success && CallRuns(rev, s, m)
    ensures Moved(s, Perform(rev, s, m).state, m.caller, m.recipient, m.value) && Perform(rev, s, m).burned == 0
  {
    hide Perform, Bounded, Entered, CallRuns, Moved, SameReads;
    CallStart(rev, s, m);
    CallKept(rev, s, m);
  }

  // What creations leave

  /** The creator has used up a nonce and the address of the contract is warm; nothing else has changed. */
  ghost predicate OnlyBumped(s: Ibs, t: Ibs, creator: Address, contract: Address) {
    && OneAccount(s, t, creator, Some(AccountOrEmpty(s, creator).(nonce := NonceOf(s, creator) + 1)))
    && (forall b: Address, k: U256, original: bool :: Exists(s, b) || b != creator ==> ReadSlot(t, b, k, original) == ReadSlot(s, b, k, original))
    && t.selfDestructs == s.selfDestructs && t.accessedAddresses == s.accessedAddresses + {contract} && t.logs == s.logs && t.refund == s.refund
    && (forall b: Address :: Keys(t, b) == Keys(s, b))
    && (forall b: Address :: b != RIPEMD_ADDRESS ==> (b in t.touched <==> b in s.touched))
  }

  /** After the nonce has been counted, before the contract is looked at. */
  function BumpedState(s: Ibs, creator: Address, contract: Address): Ibs {
    AccessAccount(SetNonce(GetObject(s, creator).0, creator, NonceOf(s, creator) + 1), contract)
  }

  lemma NonceWritten(s: Ibs, a: Address, nonce: nat)
    ensures var t := SetNonce(s, a, nonce);
      && OneAccount(s, t, a, Some(AccountOrEmpty(s, a).(nonce := nonce)))
      && (forall b: Address, k: U256, original: bool :: Exists(s, b) || b != a ==> ReadSlot(t, b, k, original) == ReadSlot(s, b, k, original))
      && SameSubstate(s, t) && t.touched == s.touched
  {
    EnsureEffect(s, a);
    var s1, t := EnsureObject(s, a), SetNonce(s, a, nonce);
    assert t.storage == s.storage && t.incarnations == s.incarnations && t.db == s.db;
    NonceSet(s, a, nonce);
    var zero: U256 := 0;
    TouchesNothing(s, a, Live(s1, a).(nonce := nonce), zero, zero);
    forall k: U256, original: bool ensures Exists(s, a) ==> ReadSlot(t, a, k, original) == ReadSlot(s, a, k, original) {
      assert Exists(s, a) ==> Obj(t, a).value.initial == Obj(s, a).value.initial;
    }
  }

  lemma BumpedEffect(s: Ibs, creator: Address, contract: Address)
    ensures OnlyBumped(s, BumpedState(s, creator, contract), creator, contract)
    ensures BumpedState(s, creator, contract).touched == s.touched
  {
    hide GetObject, SetNonce, AccessAccount, ReadSlot, CurrentAccount, Exists, AccountOrEmpty, NonceOf, Keys;
    var s0 := GetObject(s, creator).0;
    LookedUp(s, creator);
    var s1 := SetNonce(s0, creator, NonceOf(s, creator) + 1);
    NonceWritten(s0, creator, NonceOf(s, creator) + 1);
    var t := AccessAccount(s1, contract);
    SubstateMoves(s1, WarmAccount(contract));
    OnlySubstate(s1, WarmAccount(contract));
    BalanceIn(s, creator);
    BalanceIn(s0, creator);
    forall b: Address ensures CurrentAccount(t, b) == if b == creator then Some(AccountOrEmpty(s, creator).(nonce := NonceOf(s, creator) + 1)) else CurrentAccount(s, b) {
      assert CurrentAccount(s0, b) == CurrentAccount(s, b);
      assert CurrentAccount(t, b) == CurrentAccount(s1, b);
    }
    forall b: Address, k: U256, original: bool ensures Exists(s, b) || b != creator ==> ReadSlot(t, b, k, original) == ReadSlot(s, b, k, original) {
      assert ReadSlot(s0, b, k, original) == ReadSlot(s, b, k, original) && Exists(s0, b) == Exists(s, b);
      assert ReadSlot(t, b, k, original) == ReadSlot(s1, b, k, original);
    }
    forall b: Address ensures Keys(t, b) == Keys(s, b) {
      assert Keys(s0, b) == Keys(s, b) && Keys(s1, b) == Keys(s0, b);
    }
  }

  lemma NewAccountEffect(rev: Revision, s: Ibs, contract: Address)
    ensures var t := NewAccount(rev, s, contract);
      && OneAccount(s, t, contract, Some(Account(if rev in {Frontier, Homestead, Tangerine} then 0 else 1, Balance(s, contract), EMPTY_HASH)))
      && OtherSlots(s, t, contract) && (forall k: U256, original: bool :: ReadSlot(t, contract, k, original) == 0)
      && SameSubstate(s, t) && t.touched == s.touched
  {
    hide CreateContract, SetNonce, ReadSlot, Balance, AccountOrEmpty, Keys, Exists;
    var zero: U256 := 0;
    var created := CreateContract(s, contract);
    ContractCreated(s, contract);
    TouchesNothing(s, contract, EMPTY_ACCOUNT, zero, zero);
    BalanceIn(s, contract);
    BalanceIn(created, contract);
    NonceWritten(created, contract, 1);
    var t := NewAccount(rev, s, contract);
    if rev.AtLeast(Spurious) {
      SubstateTwice(s, created, t);
      assert forall b: Address :: CurrentAccount(t, b) == if b == contract then Some(AccountOrEmpty(created, contract).(nonce := 1)) else CurrentAccount(created, b);
      forall b: Address, k: U256, original: bool ensures ReadSlot(t, b, k, original) == ReadSlot(created, b, k, original) {
      }
    }
  }

  /** Where the code of a creation starts. */
  ghost predicate Born(rev: Revision, s: Ibs, t: Ibs, creator: Address, contract: Address, endowment: U256) {
    && (forall b: Address :: Balance(t, b) + (if b == creator then endowment else 0) == Balance(s, b) + (if b == contract then endowment else 0))
    && (forall b: Address :: CurrentAccount(t, b) ==
          if b == contract then Some(Account(if rev in {Frontier, Homestead, Tangerine} then 0 else 1, Balance(t, b), EMPTY_HASH))
          else if b == creator then Some(AccountOrEmpty(s, b).(nonce := NonceOf(s, b) + 1, balance := Balance(t, b)))
          else CurrentAccount(s, b))
    && (forall k: U256, original: bool :: ReadSlot(t, contract, k, original) == 0)
    && (forall b: Address, k: U256, original: bool :: Exists(s, b) && b != contract ==> ReadSlot(t, b, k, original) == ReadSlot(s, b, k, original))
    && t.selfDestructs == s.selfDestructs && t.accessedAddresses == s.accessedAddresses + {contract} && t.logs == s.logs && t.refund == s.refund
    && (forall b: Address :: Keys(t, b) == Keys(s, b)) && t.touched == s.touched + {creator, contract}
  }

  lemma CreationStart(rev: Revision, s: Ibs, m: Message)
    requires Bounded(s) && m.Creation?
    ensures Entered(rev, s, m).Some? <==> CreationRuns(s, m)
    ensures CreationRuns(s, m) ==> Born(rev, s, Entered(rev, s, m).value, m.creator, m.contract, m.endowment)
  {
    hide Transfer, ReadSlot, Exists, CurrentAccount, Balance, Bounded, Moved, GetObject, AccessAccount, SetNonce, NewAccount, Keys, AccountOrEmpty,
      NonceOf, CodeHashOf, Born;
    var s1 := BumpedState(s, m.creator, m.contract);
    BumpedEffect(s, m.creator, m.contract);
    assert CurrentAccount(s1, m.contract) ==
      if m.contract == m.creator then Some(AccountOrEmpty(s, m.creator).(nonce := NonceOf(s, m.creator) + 1)) else CurrentAccount(s, m.contract);
    BalanceIn(s, m.contract);
    BalanceIn(s1, m.contract);
    if CreationRuns(s, m) {
      CreationBorn(rev, s, m);
    }
  }

  lemma CreationBorn(rev: Revision, s: Ibs, m: Message)
    requires Bounded(s) && m.Creation? && CreationRuns(s, m)
    ensures var t := Transfer(NewAccount(rev, BumpedState(s, m.creator, m.contract), m.contract), m.creator, m.contract, m.endowment).state;
      Born(rev, s, t, m.creator, m.contract, m.endowment)
  {
    hide Transfer, ReadSlot, Exists, CurrentAccount, Balance, Bounded, Moved, GetObject, AccessAccount, SetNonce, NewAccount, Keys, AccountOrEmpty,
      NonceOf, CodeHashOf, Born, OnlyBumped, BumpedState, OneAccount, OtherSlots, SameSubstate;
    var s1 := BumpedState(s, m.creator, m.contract);
    BumpedEffect(s, m.creator, m.contract);
    var s3 := NewAccount(rev, s1, m.contract);
    NewAccountEffect(rev, s1, m.contract);
    ReadyToMove(rev, s, m.creator, m.contract);
    TransferEffect(s3, m.creator, m.contract, m.endowment);
    BornOf(rev, s, s1, s3, Transfer(s3, m.creator, m.contract, m.endowment).state, m.creator, m.contract, m.endowment);
  }

  /** The new account is there, no balance has changed, and there is no more money than before. */
  lemma ReadyToMove(rev: Revision, s: Ibs, creator: Address, contract: Address)
    requires Bounded(s)
    ensures var s1 := BumpedState(s, creator, contract);
      && Bounded(s1) && Accounted(s, Result(s1, 0, true)) && Inv(s1)
      && Bounded(NewAccount(rev, s1, contract)) && Accounted(s1, Result(NewAccount(rev, s1, contract), 0, true))
    ensures Balance(NewAccount(rev, BumpedState(s, creator, contract), contract), creator) == Balance(s, creator)
  {
    hide Accounted, Inv, NewAccount, AccessAccount, SetNonce, GetObject, Balance, Bounded, NonceOf;
    var s1 := BumpedState(s, creator, contract);
    SameNonce(s, creator);
    BumpAccounted(s, creator, contract);
    AccountedBounded(s, Result(s1, 0, true));
    BoundedInv(s1);
    NewAccountAccounted(rev, s1, contract);
    AccountedBounded(s1, Result(NewAccount(rev, s1, contract), 0, true));
    BumpedBalance(rev, s, creator, contract);
  }

  lemma BornOf(rev: Revision, s: Ibs, s1: Ibs, s3: Ibs, t: Ibs, creator: Address, contract: Address, endowment: U256)
    requires creator != contract && OnlyBumped(s, s1, creator, contract) && s1.touched == s.touched
    requires OneAccount(s1, s3, contract, Some(Account(if rev in {Frontier, Homestead, Tangerine} then 0 else 1, Balance(s1, contract), EMPTY_HASH)))
    requires OtherSlots(s1, s3, contract) && forall k: U256, original: bool :: ReadSlot(s3, contract, k, original) == 0
    requires SameSubstate(s1, s3) && s3.touched == s1.touched
    requires Moved(s3, t, creator, contract, endowment)
    ensures Born(rev, s, t, creator, contract, endowment)
  {
    hide ReadSlot, Exists, CurrentAccount, Balance, Keys, AccountOrEmpty, NonceOf;
    forall b: Address
      ensures Balance(s3, b) == Balance(s, b) && Keys(t, b) == Keys(s, b)
      ensures b != contract ==> CurrentAccount(s3, b) == CurrentAccount(s1, b)
      ensures b != contract && b != creator ==> CurrentAccount(s3, b) == CurrentAccount(s, b)
      ensures AccountOrEmpty(s3, contract).balance == Balance(s3, contract)
      ensures Exists(s, b) ==> Exists(s3, b)
      ensures Exists(s3, contract)
    {
      BalanceIn(s, b);
      BalanceIn(s1, b);
      BalanceIn(s3, b);
      BalanceIn(s3, contract);
      assert CurrentAccount(s3, contract).Some?;
      assert Keys(s1, b) == Keys(s, b) && Keys(s3, b) == Keys(s1, b) && Keys(t, b) == Keys(s3, b);
    }
    forall b: Address ensures CurrentAccount(t, b) ==
      (if b == contract then Some(Account(if rev in {Frontier, Homestead, Tangerine} then 0 else 1, Balance(t, b), EMPTY_HASH))
       else if b == creator then Some(AccountOrEmpty(s, b).(nonce := NonceOf(s, b) + 1, balance := Balance(t, b)))
       else CurrentAccount(s, b))
    {
      BalanceIn(s3, b);
    }
    forall k: U256, original: bool ensures ReadSlot(t, contract, k, original) == 0 {
      assert ReadSlot(t, contract, k, original) == ReadSlot(s3, contract, k, original);
    }
    forall b: Address, k: U256, original: bool | Exists(s, b) && b != contract ensures ReadSlot(t, b, k, original) == ReadSlot(s, b, k, original) {
      assert ReadSlot(t, b, k, original) == ReadSlot(s3, b, k, original) == ReadSlot(s1, b, k, original);
    }
  }

  lemma PerformCreation(rev: Revision, s: Ibs, m: Message)
    requires m.Creation?
    ensures var r, start, entered := Perform(rev, s, m), BumpedState(s, m.creator, m.contract), Entered(rev, s, m);
      if Balance(s, m.creator) < m.endowment then r == Result(GetObject(s, m.creator).0, 0, true)
      else if entered.None? then r == Result(GetObject(start, m.contract).0, 0, true)
      else
        var done := PerformAll(rev, entered.value, m.body);
        if m.deployed.Some? then r.state == SetCode(done.state, m.contract, m.deployed.value) && r.burned == done.burned
        else r.state == RevertToSnapshot(done.state, TakeSnapshot(start)) && r.burned == 0
  {
    hide Transfer, GetObject, NewAccount, AccessAccount, SetNonce, SetCode, PerformAll, RevertToSnapshot, Balance;
  }

  /** A creation that its creator cannot pay for changes nothing. */
  lemma CreationRefused(rev: Revision, s: Ibs, m: Message)
    requires m.Creation? && Balance(s, m.creator) < m.endowment
    ensures SameAnswers(Perform(rev, s, m).state, s) && Perform(rev, s, m).burned == 0
  {
    hide Perform, SameAnswers, GetObject;
    PerformCreation(rev, s, m);
    LookRefines(s, m.creator);
    RefinesAnswers(GetObject(s, m.creator).0, s);
  }

  /** A creation at an address in use, or one that deploys nothing, leaves only the nonce of the creator and a warm address. */
  lemma CreationUndone(rev: Revision, s: Ibs, m: Message)
    requires Bounded(s) && m.Creation? && Balance(s, m.creator) >= m.endowment && !(CreationRuns(s, m) && m.deployed.Some?)
    ensures OnlyBumped(s, Perform(rev, s, m).state, m.creator, m.contract) && Perform(rev, s, m).burned == 0
  {
    hide Accounted, Inv, Step, Refines, Bounded, Entered, CreationRuns, Perform, PerformAll, GetObject, RevertToSnapshot, SameAnswers, Born, BumpedState;
    var start, r := BumpedState(s, m.creator, m.contract), Perform(rev, s, m);
    CreationStart(rev, s, m);
    PerformCreation(rev, s, m);
    BumpedEffect(s, m.creator, m.contract);
    LookRefines(start, m.contract);
    if Entered(rev, s, m).Some? {
      var t := Entered(rev, s, m).value;
      CreationStepped(rev, s, m);
      AllAccounted(rev, t, m.body);
      AccountedSteps(start, Result(t, 0, true));
      AccountedSteps(t, PerformAll(rev, t, m.body));
      FrameTakenBack(rev, start, t, PerformAll(rev, t, m.body).state);
    }
    RefinesAnswers(r.state, start);
    StillBumped(s, start, r.state, m.creator, m.contract);
  }

  lemma CreationStepped(rev: Revision, s: Ibs, m: Message)
    requires Bounded(s) && m.Creation? && Entered(rev, s, m).Some?
    ensures var start, t := BumpedState(s, m.creator, m.contract), Entered(rev, s, m).value;
      && Inv(start) && Accounted(start, Result(t, 0, true)) && Bounded(t)
  {
    hide Accounted, Inv, Transfer, NewAccount, AccessAccount, SetNonce, GetObject, Balance, Bounded, NonceOf, CodeHashOf;
    var start := BumpedState(s, m.creator, m.contract);
    var s3 := NewAccount(rev, start, m.contract);
    ReadyToMove(rev, s, m.creator, m.contract);
    TransferAccounted(s3, m.creator, m.contract, m.endowment);
    ExactlyAccounted(s3, m.creator, m.contract, m.endowment);
    var moved := Result(Transfer(s3, m.creator, m.contract, m.endowment).state, 0, true);
    Then(start, Result(s3, 0, true), moved);
    AccountedBounded(s3, moved);
  }

  lemma StillBumped(s: Ibs, t: Ibs, u: Ibs, creator: Address, contract: Address)
    requires OnlyBumped(s, t, creator, contract) && SameAnswers(u, t)
    ensures OnlyBumped(s, u, creator, contract)
  {
    hide ReadSlot, Keys, AccountOrEmpty, NonceOf;
    forall b: Address ensures CurrentAccount(u, b) == CurrentAccount(t, b) {
    }
    hide CurrentAccount;
    forall b: Address ensures Keys(u, b) == Keys(s, b) {
      assert Keys(u, b) == Keys(t, b);
    }
    forall b: Address, k: U256, original: bool ensures ReadSlot(u, b, k, original) == ReadSlot(t, b, k, original) {
    }
    forall b: Address ensures CurrentAccount(u, b) ==
      if b == creator then Some(AccountOrEmpty(s, creator).(nonce := NonceOf(s, creator) + 1)) else CurrentAccount(s, b)
    {
      assert CurrentAccount(u, b) == CurrentAccount(t, b);
    }
  }

  /** A creation that deploys code leaves what its code leaves, from where `CreationStart` says that it starts, with that code at the address. */
  lemma CreationKept(rev: Revision, s: Ibs, m: Message)
    requires Bounded(s) && m.Creation? && CreationRuns(s, m) && m.deployed.Some?
    ensures Entered(rev, s, m).Some?
    ensures var done, r := PerformAll(rev, Entered(rev, s, m).value, m.body), Perform(rev, s, m);
      && OneAccount(done.state, r.state, m.contract, Some(AccountOrEmpty(done.state, m.contract).(codeHash := m.deployed.value)))
      && (forall b: Address, k: U256, original: bool :: Exists(done.state, b) || b != m.contract ==>
            ReadSlot(r.state, b, k, original) == ReadSlot(done.state, b, k, original))
      && SameSubstate(done.state, r.state) && r.state.touched == done.state.touched && r.burned == done.burned
      && CodeHashOf(r.state, m.contract) == m.deployed.value
  {
    hide Perform, PerformAll, Bounded, Entered, Born, BumpedState, SetCode, CurrentAccount, ReadSlot, AccountOrEmpty, CodeHashOf, NonceOf;
    CreationStart(rev, s, m);
    PerformCreation(rev, s, m);
    var done := PerformAll(rev, Entered(rev, s, m).value, m.body).state;
    CodeWritten(done, m.contract, m.deployed.value);
    BalanceIn(SetCode(done, m.contract, m.deployed.value), m.contract);
    assert CurrentAccount(SetCode(done, m.contract, m.deployed.value), m.contract) == Some(AccountOrEmpty(done, m.contract).(codeHash := m.deployed.value));
  }

  lemma CodeWritten(s: Ibs, a: Address, hash: CodeHash)
    ensures var t := SetCode(s, a, hash);
      && OneAccount(s, t, a, Some(AccountOrEmpty(s, a).(codeHash := hash)))
      && (forall b: Address, k: U256, original: bool :: Exists(s, b) || b != a ==> ReadSlot(t, b, k, original) == ReadSlot(s, b, k, original))
      && SameSubstate(s, t) && t.touched == s.touched
  {
    EnsureEffect(s, a);
    var s1, t := EnsureObject(s, a), SetCode(s, a, hash);
    assert t.storage == s.storage && t.incarnations == s.incarnations && t.db == s.db;
    CodeSet(s, a, hash);
    var zero: U256 := 0;
    TouchesNothing(s, a, Live(s1, a).(codeHash := hash), zero, zero);
    forall k: U256, original: bool ensures Exists(s, a) ==> ReadSlot(t, a, k, original) == ReadSlot(s, a, k, original) {
      assert Exists(s, a) ==> Obj(t, a).value.initial == Obj(s, a).value.initial;
    }
  }

  // Requests in turn

  /** Requests are served in the order in which they are made, each where the one before has left the state. */
  lemma {:induction false} ServedInTurn(rev: Revision, s: Ibs, first: seq<Message>, m: Message)
    ensures var before := PerformAll(rev, s, first);
      var done := Perform(rev, before.state, m);
      PerformAll(rev, s, first + [m]) == Result(done.state, before.burned + done.burned, before.exact && done.exact)
    decreases |first|
  {
    hide Perform;
    if first == [] {
      assert first + [m] == [m] && [m][1..] == [];
    } else {
      assert (first + [m])[0] == first[0] && (first + [m])[1..] == first[1..] + [m];
      ServedInTurn(rev, Perform(rev, s, first[0]).state, first[1..], m);
    }
  }

  /** What the interpreter reads, warms and logs: accounts and slots stay, and exactly what was asked for is warm or logged. */
  lemma RequestEffect(rev: Revision, s: Ibs, op: Op)
    requires FromInterpreter(op)
    ensures var r := Perform(rev, s, Host(op));
      && r.burned == 0 && SameReads(s, r.state) && r.state.touched == s.touched && r.state.selfDestructs == s.selfDestructs
      && r.state.accessedAddresses == s.accessedAddresses + (if op.WarmAccount? then {op.address} else {})
      && (forall b: Address :: Keys(r.state, b) == Keys(s, b) + (if op.WarmSlot? && op.address == b then {op.key} else {}))
      && r.state.logs == s.logs + (if op.AddLog? then [op.log] else []) && r.state.refund == s.refund
  {
    hide Apply, ReadSlot, CurrentAccount, Keys;
    SubstateMoves(s, op);
    OnlySubstate(s, op);
  }

  /** A store of the account that runs: this slot has the value, all else answers as before. */
  lemma StoreEffect(rev: Revision, s: Ibs, a: Address, k: U256, v: U256)
    requires Covered(rev, s) && Exists(s, a)
    ensures OneSlot(s, Perform(rev, s, SetSlot(a, k, v)).state, a, k, v)
  {
    hide Covered, Exists, OneSlot, Sstore;
    StoreRefund(rev, s, a, k, v);
    PerformStore(rev, s, a, k, v);
  }

  // Self-destructs

  /** The whole effect of a self-destruct: who gets the money, and that the account is recorded; it goes only when the transaction ends. */
  lemma DestroyEffect(s: Ibs, a: Address, beneficiary: Address)
    requires Bounded(s)
    ensures var t := DestroyAccount(s, a, beneficiary).state;
      && (forall b: Address :: Balance(t, b) ==
            if b == a then 0 else if b == beneficiary then Balance(s, b) + Balance(s, a) else Balance(s, b))
      && (forall b: Address :: CurrentAccount(t, b) ==
            if b == a || b == beneficiary then Some(AccountOrEmpty(s, b).(balance := Balance(t, b))) else CurrentAccount(s, b))
      && (forall b: Address, k: U256, original: bool :: Exists(s, b) ==> ReadSlot(t, b, k, original) == ReadSlot(s, b, k, original))
      && t.selfDestructs == s.selfDestructs + {a} && t.touched == s.touched + {a, beneficiary}
      && t.accessedAddresses == s.accessedAddresses && t.logs == s.logs && t.refund == s.refund
  {
    hide RecordSelfdestruct, GetObject, WriteBalance, Balance, CurrentAccount, AccountOrEmpty, Exists, ReadSlot, Bounded, EnsureObject, Live, Keys;
    DestroyMoves(s, a, beneficiary);
    var s0 := RecordSelfdestruct(s, a);
    SubstateMoves(s, SelfDestruct(a));
    OnlySubstate(s, SelfDestruct(a));
    LookedUp(s0, a);
    var s1 := GetObject(s0, a).0;
    var balance := Balance(s1, a);
    BalanceWritten(s1, beneficiary, WrappingAdd(Live(EnsureObject(s1, beneficiary), beneficiary).balance, balance));
    var s2 := AddBalance(s1, beneficiary, balance);
    BalanceWritten(s2, a, 0);
    var t := WriteBalance(s2, a, 0);
    forall b: Address
      ensures CurrentAccount(t, b) == if b == a || b == beneficiary then Some(AccountOrEmpty(s, b).(balance := Balance(t, b))) else CurrentAccount(s, b)
      ensures Exists(s, b) ==> Exists(s1, b)
    {
      BalanceIn(s, b);
      BalanceIn(s0, b);
      BalanceIn(s1, b);
      BalanceIn(s2, b);
      BalanceIn(t, b);
      assert CurrentAccount(s1, b) == CurrentAccount(s0, b) == CurrentAccount(s, b);
    }
    forall b: Address, k: U256, original: bool | Exists(s, b) ensures ReadSlot(t, b, k, original) == ReadSlot(s, b, k, original) {
      assert ReadSlot(s1, b, k, original) == ReadSlot(s0, b, k, original) == ReadSlot(s, b, k, original);
      assert Exists(s1, b);
    }
  }
}
