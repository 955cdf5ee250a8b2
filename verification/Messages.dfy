/** Calls and contract creations on the journaled state: no balance underflows and no money is made. */
module Messages {
  import opened Basics
  import opened StateTypes
  import opened Journal
  import opened Undoing
  import opened Transactions
  import opened BlockEnd
  import opened Refunds
  import opened Balances

  datatype CallKind = CallOp | CallCode | DelegateCall

  /** What the interpreter asks of its host; the interpreter itself is any tree of these. */
  datatype Message =
    | Host(op: Op)
    | SetSlot(address: Address, key: U256, value: U256)
    | Destroy(address: Address, beneficiary: Address)
    | Call(kind: CallKind, isStatic: bool, precompiled: bool, caller: Address, recipient: Address, codeAddress: Address,
        value: U256, body: seq<Message>, success: bool)
    | Creation(creator: Address, contract: Address, endowment: U256, body: seq<Message>, deployed: Option<CodeHash>)

  /** State, money that was destroyed, and whether every subtraction and addition was exact. */
  datatype Result = Result(state: Ibs, burned: nat, exact: bool)

  /** What the interpreter asks of its host besides stores, calls, creations and self-destructs. */
  predicate FromInterpreter(op: Op) {
    op.ReadAccount? || op.ReadStorage? || op.WarmAccount? || op.WarmSlot? || op.AddLog?
  }

  predicate CanAdd(s: Ibs, a: Address, v: U256) {
    Balance(s, a) + v < U256_RANGE
  }

  predicate CanSubtract(s: Ibs, a: Address, v: U256) {
    v <= Balance(s, a)
  }

  /** Moves `v` from one account to another. */
  function Transfer(s: Ibs, from: Address, to: Address, v: U256): (r: Result)
    ensures r.exact <==> v <= Balance(s, from) && Balance(SubtractBalance(s, from, v), to) + v < U256_RANGE
  {
    var s1 := SubtractBalance(s, from, v);
    Result(AddBalance(s1, to, v), 0, CanSubtract(s, from, v) && CanAdd(s1, to, v))
  }

  function DestroyAccount(s: Ibs, a: Address, beneficiary: Address): Result {
    var s1 := GetObject(RecordSelfdestruct(s, a), a).0;
    var balance := Balance(s1, a);
    Result(WriteBalance(AddBalance(s1, beneficiary, balance), a, 0),
      if a == beneficiary then balance else 0,
      CanAdd(s1, beneficiary, balance))
  }

  function NonceOf(s: Ibs, a: Address): nat {
    if Exists(s, a) then Obj(s, a).value.current.value.nonce else 0
  }

  function CodeHashOf(s: Ibs, a: Address): CodeHash {
    if Exists(s, a) then Obj(s, a).value.current.value.codeHash else EMPTY_HASH
  }

  function Perform(rev: Revision, s: Ibs, m: Message): Result
    decreases m, 0
  {
    match m
    case Host(op) => Result(if FromInterpreter(op) then Apply(s, op) else s, 0, true)
    case SetSlot(a, k, v) => Result(Sstore(rev, s, a, k, v), 0, true)
    case Destroy(a, beneficiary) => DestroyAccount(s, a, beneficiary)
    case Call(kind, isStatic, precompiled, caller, recipient, codeAddress, value, body, success) =>
      if kind != DelegateCall && Balance(s, caller) < value then Result(GetObject(s, caller).0, 0, true)
      else
        var s1 := GetObject(s, caller).0;
        if value == 0 && rev.AtLeast(Spurious) && !precompiled && !Exists(s1, codeAddress) then Result(GetObject(s1, codeAddress).0, 0, true)
        else
          var moved :=
            if kind != CallOp then Result(s1, 0, true)
            else if isStatic then Result(TouchAddress(s1, recipient), 0, true)
            else Transfer(s1, caller, recipient, value);
          Settle(s1, moved, PerformAll(rev, moved.state, body), success)
    case Creation(creator, contract, endowment, body, deployed) =>
      if Balance(s, creator) < endowment then Result(GetObject(s, creator).0, 0, true)
      else
        var s1 := AccessAccount(SetNonce(GetObject(s, creator).0, creator, NonceOf(s, creator) + 1), contract);
        if NonceOf(s1, contract) != 0 || CodeHashOf(s1, contract) != EMPTY_HASH then Result(GetObject(s1, contract).0, 0, true)
        else
          var s3 := NewAccount(rev, s1, contract);
          var moved := Transfer(s3, creator, contract, endowment);
          var done := PerformAll(rev, moved.state, body);
          Settle(s1, moved, if deployed.Some? then done.(state := SetCode(done.state, contract, deployed.value)) else done, deployed.Some?)
  }

  /** Keeps what a frame did, or goes back to where it began; what was burned in it then has not been. */
  function Settle(start: Ibs, moved: Result, done: Result, success: bool): (r: Result)
    ensures r.exact <==> moved.exact && done.exact
  {
    Result(if success then done.state else RevertToSnapshot(done.state, TakeSnapshot(start)),
      if success then done.burned else 0,
      moved.exact && done.exact)
  }

  function PerformAll(rev: Revision, s: Ibs, messages: seq<Message>): Result
    decreases messages, 1
  {
    if messages == [] then Result(s, 0, true)
    else
      var first := Perform(rev, s, messages[0]);
      var rest := PerformAll(rev, first.state, messages[1..]);
      Result(rest.state, first.burned + rest.burned, first.exact && rest.exact)
  }

  /** Money is kept or burned, all arithmetic was exact, and the way back has been recorded. */
  ghost predicate Accounted(s: Ibs, r: Result) {
    Inv(r.state) && Step(s, r.state) && r.exact && Supply(r.state) + r.burned == Supply(s)
  }

  /** A state whose money is small enough that no addition can overflow. */
  ghost predicate Bounded(s: Ibs) {
    Inv(s) && 2 * Supply(s) < U256_RANGE
  }

  lemma AccountedBounded(s: Ibs, r: Result)
    requires Bounded(s) && Accounted(s, r)
    ensures Bounded(r.state)
  {
  }

  lemma Then(s: Ibs, r: Result, t: Result)
    requires Accounted(s, r) && Accounted(r.state, t)
    ensures Accounted(s, Result(t.state, r.burned + t.burned, r.exact && t.exact))
  {
    hide Inv, Step, Supply;
    StepsCompose(s, r.state, t.state);
  }

  lemma QuietAccounted(s: Ibs, op: Op)
    requires Inv(s) && Quiet(op)
    ensures Accounted(s, Result(Apply(s, op), 0, true))
  {
    hide Inv, Step, Supply, Apply, SameBalances;
    ApplySteps(s, op);
    QuietBalances(s, op);
    SameSupply(s, Apply(s, op));
  }

  lemma Nothing(s: Ibs)
    requires Inv(s)
    ensures Accounted(s, Result(s, 0, true))
  {
    hide Inv, Refines, Supply;
    RefinesReflexive(s);
    QuietStep(s, s);
  }

  /** Subtracting what is there, and adding to what is there. */
  lemma SubtractExact(s: Ibs, a: Address, v: U256)
    requires Inv(s) && v <= Balance(s, a)
    ensures var t := SubtractBalance(s, a, v);
      Inv(t) && Step(s, t) && Supply(t) + v == Supply(s) && OneBalance(s, t, a, Balance(s, a) - v)
  {
    hide Inv, Step, Supply, EnsureObject, Live, Balance, WriteBalance;
    EnsureBalances(s, a);
    var w: U256 := Balance(s, a) - v;
    Subtracted(Balance(s, a), v);
    WriteBalances(s, a, w);
    SupplyPut(s, WriteBalance(s, a, w), a, w);
    WriteBalanceInv(s, a, w);
    WriteBalanceStep(s, a, w);
  }

  lemma Subtracted(x: U256, v: U256)
    requires v <= x
    ensures WrappingSub(x, v) == x - v
  {
  }

  lemma Added(x: U256, v: U256)
    requires x + v < U256_RANGE
    ensures WrappingAdd(x, v) == x + v
  {
  }

  lemma AddExact(s: Ibs, a: Address, v: U256)
    requires Inv(s) && Balance(s, a) + v < U256_RANGE
    ensures var t := AddBalance(s, a, v);
      Inv(t) && Step(s, t) && Supply(t) == Supply(s) + v && OneBalance(s, t, a, Balance(s, a) + v)
  {
    hide Inv, Step, Supply, EnsureObject, Live, Balance, WriteBalance;
    EnsureBalances(s, a);
    var w: U256 := Balance(s, a) + v;
    Added(Balance(s, a), v);
    WriteBalances(s, a, w);
    SupplyPut(s, WriteBalance(s, a, w), a, w);
    WriteBalanceInv(s, a, w);
    WriteBalanceStep(s, a, w);
  }

  lemma TransferAccounted(s: Ibs, from: Address, to: Address, v: U256)
    requires Bounded(s) && v <= Balance(s, from)
    ensures Accounted(s, Transfer(s, from, to, v))
  {
    hide Inv, Step, Supply, SubtractBalance, AddBalance, OneBalance, Balance;
    SubtractExact(s, from, v);
    var s1 := SubtractBalance(s, from, v);
    BalanceInSupply(s1, to);
    AddExact(s1, to, v);
    StepsCompose(s, s1, AddBalance(s1, to, v));
  }

  /** The value goes from one account to the other, and to no third. */
  lemma TransferMoves(s: Ibs, from: Address, to: Address, v: U256)
    requires Bounded(s) && v <= Balance(s, from)
    ensures var t := Transfer(s, from, to, v).state; forall a: Address ::
      Balance(t, a) + (if a == from then v else 0) == Balance(s, a) + (if a == to then v else 0)
  {
    hide Inv, Step, Supply, SubtractBalance, AddBalance, Balance;
    SubtractExact(s, from, v);
    var s1 := SubtractBalance(s, from, v);
    BalanceInSupply(s1, to);
    AddExact(s1, to, v);
    var t := AddBalance(s1, to, v);
    forall a: Address ensures Balance(t, a) + (if a == from then v else 0) == Balance(s, a) + (if a == to then v else 0) {
      assert Balance(t, a) == if a == to then Balance(s1, to) + v else Balance(s1, a);
      assert Balance(s1, a) == if a == from then Balance(s, from) - v else Balance(s, a);
    }
  }

  /** The account that destroys itself is left with nothing, and another beneficiary gets all it had. */
  lemma DestroyMoves(s: Ibs, a: Address, beneficiary: Address)
    requires Bounded(s)
    ensures var t := DestroyAccount(s, a, beneficiary).state; forall b: Address ::
      Balance(t, b) == if b == a then 0 else if b == beneficiary then Balance(s, b) + Balance(s, a) else Balance(s, b)
  {
    hide Inv, Step, Supply, RecordSelfdestruct, GetObject, AddBalance, WriteBalance, Balance, Accounted;
    var s0 := RecordSelfdestruct(s, a);
    BoundedInv(s);
    QuietAccounted(s, SelfDestruct(a));
    QuietBalances(s, SelfDestruct(a));
    AccountedBounded(s, Result(s0, 0, true));
    BoundedInv(s0);
    QuietAccounted(s0, ReadAccount(a));
    QuietBalances(s0, ReadAccount(a));
    var s1 := GetObject(s0, a).0;
    AccountedBounded(s0, Result(s1, 0, true));
    BoundedInv(s1);
    assert forall b: Address :: Balance(s1, b) == Balance(s, b);
    BalanceInSupply(s1, beneficiary);
    BalanceInSupply(s1, a);
    AddExact(s1, beneficiary, Balance(s1, a));
    WriteBalances(AddBalance(s1, beneficiary, Balance(s1, a)), a, 0);
  }

  lemma DestroyAccounted(s: Ibs, a: Address, beneficiary: Address)
    requires Bounded(s)
    ensures Accounted(s, DestroyAccount(s, a, beneficiary))
  {
    hide Inv, Step, Supply, RecordSelfdestruct, GetObject, AddBalance, WriteBalance, Balance;
    var s0 := RecordSelfdestruct(s, a);
    QuietAccounted(s, SelfDestruct(a));
    QuietAccounted(s0, ReadAccount(a));
    Then(s, Result(s0, 0, true), Result(GetObject(s0, a).0, 0, true));
    var s1 := GetObject(s0, a).0;
    var balance := Balance(s1, a);
    BalanceInSupply(s1, beneficiary);
    BalanceInSupply(s1, a);
    AddExact(s1, beneficiary, balance);
    var s2 := AddBalance(s1, beneficiary, balance);
    WriteBalances(s2, a, 0);
    SupplyPut(s2, WriteBalance(s2, a, 0), a, 0);
    WriteBalanceInv(s2, a, 0);
    WriteBalanceStep(s2, a, 0);
    StepsCompose(s1, s2, WriteBalance(s2, a, 0));
    StepsCompose(s, s1, WriteBalance(s2, a, 0));
  }

  /** A frame is accounted for whether it is kept or taken back. */
  lemma SettleAccounted(start: Ibs, moved: Result, done: Result, success: bool)
    requires Inv(start) && Accounted(start, moved) && Accounted(moved.state, done) && moved.burned == 0
    ensures Accounted(start, Settle(start, moved, done, success))
  {
    hide Inv, Step, Supply, RevertToSnapshot, Refines, Undoable, SameBalances;
    Then(start, moved, done);
    if !success {
      RevertRestores(start, done.state);
      RefinesBalances(RevertToSnapshot(done.state, TakeSnapshot(start)), start);
      SameSupply(RevertToSnapshot(done.state, TakeSnapshot(start)), start);
    }
  }

  /** Whatever the interpreter asks for, nested and taken back in any way. */
  lemma {:induction false} PerformAccounted(rev: Revision, s: Ibs, m: Message)
    requires Bounded(s)
    ensures Accounted(s, Perform(rev, s, m))
    decreases m, 1
  {
    hide *;
    BoundedInv(s);
    match m {
      case Host(op) => HostAccounted(rev, s, op);
      case SetSlot(a, k, v) => StoreAccounted(rev, s, a, k, v);
      case Destroy(a, beneficiary) =>
        DestroyAccounted(s, a, beneficiary);
        PerformDestroy(rev, s, a, beneficiary);
      case Call(_, _, _, _, _, _, _, _, _) => CallAccounted(rev, s, m);
      case Creation(_, _, _, _, _) => CreationAccounted(rev, s, m);
    }
  }

  lemma BoundedInv(s: Ibs)
    requires Bounded(s)
    ensures Inv(s)
  {
  }

  lemma HostAccounted(rev: Revision, s: Ibs, op: Op)
    requires Bounded(s)
    ensures Accounted(s, Perform(rev, s, Host(op)))
  {
    hide Accounted, Apply, Inv;
    if FromInterpreter(op) {
      QuietAccounted(s, op);
    } else {
      Nothing(s);
    }
  }

  lemma StoreAccounted(rev: Revision, s: Ibs, a: Address, k: U256, v: U256)
    requires Bounded(s)
    ensures Accounted(s, Perform(rev, s, SetSlot(a, k, v)))
  {
    hide Inv, Step, Supply, SameBalances, Sstore;
    StoreSteps(rev, s, a, k, v);
    StoreBalances(rev, s, a, k, v);
    SameSupply(s, Sstore(rev, s, a, k, v));
  }

  /** A store moves no money. */
  lemma StoreBalances(rev: Revision, s: Ibs, a: Address, k: U256, v: U256)
    ensures SameBalances(s, Sstore(rev, s, a, k, v))
  {
    ReadStorageBalances(s, a, k, false);
    var s1 := GetStorage(s, a, k, false).0;
    WriteStorageBalances(s1, a, k, v);
    var s2 := SetStorage(s1, a, k, v);
    ReadStorageBalances(s2, a, k, true);
    hide GetStorage, SetStorage, RefundAfter;
    assert forall b: Address :: Balance(s1, b) == Balance(s, b);
    assert forall b: Address :: Balance(s2, b) == Balance(s1, b);
  }

  lemma PerformDestroy(rev: Revision, s: Ibs, a: Address, beneficiary: Address)
    ensures Perform(rev, s, Destroy(a, beneficiary)) == DestroyAccount(s, a, beneficiary)
  {
    hide DestroyAccount;
  }

  lemma {:induction false} CallAccounted(rev: Revision, s: Ibs, m: Message)
    requires Bounded(s) && m.Call?
    ensures Accounted(s, Perform(rev, s, m))
    decreases m, 0
  {
    hide Accounted, Inv, Transfer, TouchAddress, GetObject, Settle, Balance, Exists, PerformAll, Bounded;
    BoundedInv(s);
    var s1 := GetObject(s, m.caller).0;
    QuietAccounted(s, ReadAccount(m.caller));
    AccountedBounded(s, Result(s1, 0, true));
    if m.kind == DelegateCall || Balance(s, m.caller) >= m.value {
      if m.value == 0 && rev.AtLeast(Spurious) && !m.precompiled && !Exists(s1, m.codeAddress) {
        BoundedInv(s1);
        QuietAccounted(s1, ReadAccount(m.codeAddress));
        Then(s, Result(s1, 0, true), Result(GetObject(s1, m.codeAddress).0, 0, true));
      } else {
        var moved :=
          if m.kind != CallOp then Result(s1, 0, true)
          else if m.isStatic then Result(TouchAddress(s1, m.recipient), 0, true)
          else Transfer(s1, m.caller, m.recipient, m.value);
        BoundedInv(s1);
        if m.kind != CallOp {
          Nothing(s1);
        } else if m.isStatic {
          QuietAccounted(s1, TouchOp(m.recipient));
        } else {
          ReadKeepsBalance(s, m.caller);
          TransferAccounted(s1, m.caller, m.recipient, m.value);
          TransferBurnsNothing(s1, m.caller, m.recipient, m.value);
        }
        AccountedBounded(s1, moved);
        AllAccounted(rev, moved.state, m.body);
        var done := PerformAll(rev, moved.state, m.body);
        SettleAccounted(s1, moved, done, m.success);
        Then(s, Result(s1, 0, true), Settle(s1, moved, done, m.success));
        ResultParts(Settle(s1, moved, done, m.success));
      }
    }
  }

  lemma ResultParts(r: Result)
    ensures Result(r.state, 0 + r.burned, true && r.exact) == r
  {
  }

  lemma ReadKeepsBalance(s: Ibs, a: Address)
    ensures Balance(GetObject(s, a).0, a) == Balance(s, a)
  {
  }

  lemma TransferBurnsNothing(s: Ibs, from: Address, to: Address, v: U256)
    ensures Transfer(s, from, to, v).burned == 0
  {
  }

  lemma {:induction false} CreationAccounted(rev: Revision, s: Ibs, m: Message)
    requires Bounded(s) && m.Creation?
    ensures Accounted(s, Perform(rev, s, m))
    decreases m, 0
  {
    hide Accounted, Inv, Transfer, AccessAccount, SetNonce, SetCode, CreateContract, GetObject, Settle, Balance, PerformAll, Bounded, NonceOf, CodeHashOf;
    BoundedInv(s);
    var s0 := GetObject(s, m.creator).0;
    QuietAccounted(s, ReadAccount(m.creator));
    if Balance(s, m.creator) >= m.endowment {
      var s1 := AccessAccount(SetNonce(s0, m.creator, NonceOf(s0, m.creator) + 1), m.contract);
      SameNonce(s, m.creator);
      BumpAccounted(s, m.creator, m.contract);
      AccountedBounded(s, Result(s1, 0, true));
      BoundedInv(s1);
      if NonceOf(s1, m.contract) != 0 || CodeHashOf(s1, m.contract) != EMPTY_HASH {
        QuietAccounted(s1, ReadAccount(m.contract));
        Then(s, Result(s1, 0, true), Result(GetObject(s1, m.contract).0, 0, true));
      } else {
        var s3 := NewAccount(rev, s1, m.contract);
        NewAccountAccounted(rev, s1, m.contract);
        AccountedBounded(s1, Result(s3, 0, true));
        var moved := Transfer(s3, m.creator, m.contract, m.endowment);
        BumpedBalance(rev, s, m.creator, m.contract);
        TransferAccounted(s3, m.creator, m.contract, m.endowment);
        TransferBurnsNothing(s3, m.creator, m.contract, m.endowment);
        Then(s1, Result(s3, 0, true), moved);
        AccountedBounded(s3, moved);
        AllAccounted(rev, moved.state, m.body);
        var done := PerformAll(rev, moved.state, m.body);
        var kept := if m.deployed.Some? then done.(state := SetCode(done.state, m.contract, m.deployed.value)) else done;
        DeployAccounted(moved.state, done, m.contract, m.deployed);
        ResultParts(moved);
        SettleAccounted(s1, moved, kept, m.deployed.Some?);
        Then(s, Result(s1, 0, true), Settle(s1, moved, kept, m.deployed.Some?));
        ResultParts(Settle(s1, moved, kept, m.deployed.Some?));
      }
    }
  }

  lemma SameNonce(s: Ibs, a: Address)
    ensures NonceOf(GetObject(s, a).0, a) == NonceOf(s, a)
  {
  }

  /** The nonce of the creator goes up and the address of the contract becomes warm, whatever comes after. */
  lemma BumpAccounted(s: Ibs, creator: Address, contract: Address)
    requires Bounded(s)
    ensures var s0 := GetObject(s, creator).0; var s1 := AccessAccount(SetNonce(s0, creator, NonceOf(s0, creator) + 1), contract);
      Accounted(s, Result(s1, 0, true)) && SameBalances(s, s1)
  {
    hide Accounted, Inv, AccessAccount, SetNonce, GetObject, Balance, NonceOf;
    BoundedInv(s);
    var s0 := GetObject(s, creator).0;
    var bumped := SetNonce(s0, creator, NonceOf(s0, creator) + 1);
    QuietAccounted(s, ReadAccount(creator));
    QuietBalances(s, ReadAccount(creator));
    AccountedInv(s, Result(s0, 0, true));
    QuietAccounted(s0, ChangeNonce(creator, NonceOf(s0, creator) + 1));
    QuietBalances(s0, ChangeNonce(creator, NonceOf(s0, creator) + 1));
    AccountedInv(s0, Result(bumped, 0, true));
    QuietAccounted(bumped, WarmAccount(contract));
    QuietBalances(bumped, WarmAccount(contract));
    Then(s, Result(s0, 0, true), Result(bumped, 0, true));
    Then(s, Result(bumped, 0, true), Result(AccessAccount(bumped, contract), 0, true));
  }

  lemma AccountedInv(s: Ibs, r: Result)
    requires Accounted(s, r)
    ensures Inv(r.state)
  {
  }

  function NewAccount(rev: Revision, s: Ibs, contract: Address): Ibs {
    if rev.AtLeast(Spurious) then SetNonce(CreateContract(s, contract), contract, 1) else CreateContract(s, contract)
  }

  lemma NewAccountAccounted(rev: Revision, s: Ibs, contract: Address)
    requires Inv(s)
    ensures Accounted(s, Result(NewAccount(rev, s, contract), 0, true)) && SameBalances(s, NewAccount(rev, s, contract))
  {
    hide Accounted, Inv, SetNonce, CreateContract, Balance;
    var created := CreateContract(s, contract);
    QuietAccounted(s, NewContract(contract));
    QuietBalances(s, NewContract(contract));
    AccountedInv(s, Result(created, 0, true));
    QuietAccounted(created, ChangeNonce(contract, 1));
    QuietBalances(created, ChangeNonce(contract, 1));
    Then(s, Result(created, 0, true), Result(SetNonce(created, contract, 1), 0, true));
  }

  lemma BumpedBalance(rev: Revision, s: Ibs, creator: Address, contract: Address)
    requires Bounded(s)
    ensures var s0 := GetObject(s, creator).0; var s1 := AccessAccount(SetNonce(s0, creator, NonceOf(s0, creator) + 1), contract);
      Balance(NewAccount(rev, s1, contract), creator) == Balance(s, creator)
  {
    hide Accounted, Inv, AccessAccount, SetNonce, GetObject, Balance, NonceOf, Fresh;
    var s0 := GetObject(s, creator).0;
    var s1 := AccessAccount(SetNonce(s0, creator, NonceOf(s0, creator) + 1), contract);
    BumpAccounted(s, creator, contract);
    AccountedInv(s, Result(s1, 0, true));
    NewAccountAccounted(rev, s1, contract);
  }

  lemma DeployAccounted(s: Ibs, done: Result, contract: Address, deployed: Option<CodeHash>)
    requires Accounted(s, done)
    ensures Accounted(s, if deployed.Some? then done.(state := SetCode(done.state, contract, deployed.value)) else done)
  {
    hide Accounted, Inv, SetCode;
    if deployed.Some? {
      AccountedInv(s, done);
      QuietAccounted(done.state, ChangeCode(contract, deployed.value));
      Then(s, done, Result(SetCode(done.state, contract, deployed.value), 0, true));
    }
  }

  lemma {:induction false} AllAccounted(rev: Revision, s: Ibs, messages: seq<Message>)
    requires Bounded(s)
    ensures Accounted(s, PerformAll(rev, s, messages))
    decreases messages, 2
  {
    hide Accounted, Bounded, Inv, Perform;
    BoundedInv(s);
    if messages == [] {
      Nothing(s);
    } else {
      var first := Perform(rev, s, messages[0]);
      PerformAccounted(rev, s, messages[0]);
      AccountedBounded(s, first);
      AllAccounted(rev, first.state, messages[1..]);
      Then(s, first, PerformAll(rev, first.state, messages[1..]));
    }
  }
}
