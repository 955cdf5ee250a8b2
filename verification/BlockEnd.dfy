/** What the end of a transaction and of a block does to the journaled state, and the writes it sends to a `State`. */
module BlockEnd {
  import opened Basics
  import opened StateTypes
  import opened Journal
  import opened Undoing
  import opened Transactions

  /** Removes an account for good; not recorded, as no snapshot is alive any more. */
  function Destruct(s: Ibs, a: Address): Ibs {
    var s1 := s.(incarnations := s.incarnations[a := (if a in s.incarnations then s.incarnations[a] else 0) + 1], storage := s.storage - {a});
    var (s2, o) := GetObject(s1, a);
    if o.Some? then s2.(objects := s2.objects[a := o.value.(current := None)]) else s2
  }

  /** Pending values become the originals of the next transaction. */
  function Commit(st: Storage): Storage {
    Storage(
      map k | k in st.committed.Keys + st.current.Keys ::
        if k in st.current then Committed(if k in st.committed then st.committed[k].initial else 0, st.current[k])
        else st.committed[k],
      map[])
  }

  /** The committed values when only the keys of `done` have been dealt with. */
  function CommitSome(st: Storage, done: set<U256>): map<U256, Committed>
    requires done <= st.current.Keys
  {
    map k | k in st.committed.Keys + done ::
      if k in done then Committed(if k in st.committed then st.committed[k].initial else 0, st.current[k]) else st.committed[k]
  }

  lemma CommitOne(st: Storage, done: set<U256>, k: U256)
    requires done <= st.current.Keys && k in st.current && k !in done
    ensures var before := if k in st.committed then st.committed[k] else Committed(0, 0);
      CommitSome(st, done + {k}) == CommitSome(st, done)[k := before.(original := st.current[k])]
    ensures k in CommitSome(st, done) <==> k in st.committed
    ensures k in st.committed ==> CommitSome(st, done)[k] == st.committed[k]
  {
  }

  lemma CommitEnds(st: Storage)
    ensures CommitSome(st, {}) == st.committed && Commit(st) == Storage(CommitSome(st, st.current.Keys), map[])
  {
  }

  function Finalize(s: Ibs): Ibs {
    s.(storage := map a | a in s.storage :: Commit(s.storage[a]))
  }

  function ClearSubstate(s: Ibs): Ibs {
    s.(journal := [], selfDestructs := {}, logs := [], touched := {}, refund := 0, accessedAddresses := {}, accessedStorageKeys := map[])
  }

  lemma DestructInv(s: Ibs, a: Address)
    requires Inv(s)
    ensures Inv(Destruct(s, a))
  {
    var s' := Destruct(s, a);
    forall b: Address | b != a ensures Obj(s', b) == Obj(s, b) && St(s', b) == St(s, b) {
    }
    forall b: Address, k: U256 ensures k in St(s', b).committed ==> InitialOf(s', b, k) == Base(s', b, k) {
      assert b != a ==> k in St(s, b).committed ==> InitialOf(s, b, k) == Base(s, b, k);
    }
    forall b: Address, k: U256 ensures k in St(s', b).current ==> Settled(s', b, k) {
      assert b != a ==> k in St(s, b).current ==> Settled(s, b, k);
    }
    forall b: Address, k: U256 ensures !Exists(s', b) ==> Base(s', b, k) == 0 {
      assert b != a ==> !Exists(s, b) ==> Base(s, b, k) == 0;
    }
  }

  lemma FinalizeInv(s: Ibs)
    requires Inv(s)
    ensures Inv(Finalize(s)) && forall a :: a in Finalize(s).storage ==> Finalize(s).storage[a].current == map[]
  {
    var s' := Finalize(s);
    forall a: Address, k: U256 ensures Base(s', a, k) == Base(s, a, k) && (Exists(s', a) <==> Exists(s, a)) {
    }
    forall a: Address, k: U256 ensures k in St(s', a).committed ==> InitialOf(s', a, k) == Base(s', a, k) {
      assert k in St(s, a).committed ==> InitialOf(s, a, k) == Base(s, a, k);
      assert k in St(s, a).current ==> Settled(s, a, k);
    }
    forall a: Address, k: U256 ensures !Exists(s', a) ==> Base(s', a, k) == 0 {
      assert !Exists(s, a) ==> Base(s, a, k) == 0;
    }
  }

  /** What is read as the original of a slot in the next transaction is what was current in this one. */
  lemma FinalizeKeepsCurrent(s: Ibs, a: Address, k: U256)
    ensures ReadSlot(Finalize(s), a, k, true) == ReadSlot(Finalize(s), a, k, false) == ReadSlot(s, a, k, false)
  {
  }

  /** A transaction begins with all accounts and slots as they were, nothing warm or touched, and nothing to take back. */
  lemma CleanSlate(s: Ibs)
    ensures var t := ClearSubstate(s);
      && (forall a: Address :: Obj(t, a) == Obj(s, a))
      && (forall a: Address, k: U256, original: bool :: ReadSlot(t, a, k, original) == ReadSlot(s, a, k, original))
      && (forall a: Address :: Keys(t, a) == {} && a !in t.accessedAddresses && a !in t.touched && a !in t.selfDestructs)
      && TakeSnapshot(t) == Snapshot(0, 0, 0)
  {
  }

  lemma ClearSubstateInv(s: Ibs)
    requires Inv(s)
    ensures Inv(ClearSubstate(s))
  {
    SameCoreInv(s, ClearSubstate(s));
  }

  /** A block: transactions, each a run of operations followed by removals, then the next one. */
  datatype BlockStep = Transaction(ops: seq<Op>) | Removal(address: Address) | EndTransaction

  function Play(s: Ibs, steps: seq<BlockStep>): Ibs
    decreases |steps|
  {
    if steps == [] then s
    else
      var s1 := match steps[0]
        case Transaction(ops) => Run(ClearSubstate(s), ops)
        case Removal(a) => Destruct(s, a)
        case EndTransaction => Finalize(s);
      Play(s1, steps[1..])
  }

  /** Every state a block reaches satisfies the invariant. */
  lemma {:induction false} PlayInv(s: Ibs, steps: seq<BlockStep>)
    requires Inv(s)
    ensures Inv(Play(s, steps))
    decreases |steps|
  {
    hide Inv, Step, Run, Destruct, Finalize;
    if steps != [] {
      match steps[0] {
        case Transaction(ops) =>
          ClearSubstateInv(s);
          RunSteps(ClearSubstate(s), ops);
          PlayInv(Run(ClearSubstate(s), ops), steps[1..]);
        case Removal(a) =>
          DestructInv(s, a);
          PlayInv(Destruct(s, a), steps[1..]);
        case EndTransaction =>
          FinalizeInv(s);
          PlayInv(Finalize(s), steps[1..]);
      }
    }
  }

  // Writes

  datatype Call =
    | Erase(address: Address)
    | UpdateStorage(address: Address, key: U256, initial: U256, current: U256)
    | UpdateAccount(address: Address, before: Option<Account>, after: Option<Account>)

  /** The storage writes of a block: the committed slots of the accounts that still exist. */
  function StorageWrites(s: Ibs): set<Call> {
    set a, k | a in s.storage && a in s.objects && s.objects[a].current.Some? && k in s.storage[a].committed ::
      UpdateStorage(a, k, s.storage[a].committed[k].initial, s.storage[a].committed[k].original)
  }

  ghost predicate Distinct(calls: seq<Call>) {
    forall i, j :: 0 <= i < j < |calls| ==> calls[i] != calls[j]
  }

  /** `calls` are the writes of a block in some order: erasures, then storage, then accounts. */
  ghost predicate IsWriteOrder(s: Ibs, erasures: seq<Call>, slots: seq<Call>, accounts: seq<Call>) {
    && (forall c :: c in erasures <==> c.Erase? && c.address in s.incarnations && s.incarnations[c.address] > 0)
    && (forall c :: c in slots <==> c in StorageWrites(s))
    && (forall c :: c in accounts <==>
        c.UpdateAccount? && c.address in s.objects && c.before == s.objects[c.address].initial && c.after == s.objects[c.address].current)
    && Distinct(erasures) && Distinct(slots) && Distinct(accounts)
  }

  method Order(calls: set<Call>) returns (list: seq<Call>)
    ensures Distinct(list) && forall c :: c in list <==> c in calls
  {
    list := [];
    var rest := calls;
    while rest != {}
      invariant rest <= calls && Distinct(list) && forall c :: c in list <==> c in calls - rest
      decreases |rest|
    {
      var c :| c in rest;
      assert c !in list;
      list, rest := list + [c], rest - {c};
    }
  }

  /** Walks the three hash maps of the state, in whatever order they come. */
  method WriteCalls(s: Ibs) returns (erasures: seq<Call>, slots: seq<Call>, accounts: seq<Call>)
    ensures IsWriteOrder(s, erasures, slots, accounts)
  {
    erasures := Order(set a | a in s.incarnations && s.incarnations[a] > 0 :: Erase(a));
    slots := Order(StorageWrites(s));
    accounts := Order(set a | a in s.objects :: UpdateAccount(a, s.objects[a].initial, s.objects[a].current));
    forall c ensures c in erasures <==> c.Erase? && c.address in s.incarnations && s.incarnations[c.address] > 0 {
      if c.Erase? && c.address in s.incarnations && s.incarnations[c.address] > 0 {
        assert c == Erase(c.address);
      }
    }
    forall c ensures c in accounts <==>
      c.UpdateAccount? && c.address in s.objects && c.before == s.objects[c.address].initial && c.after == s.objects[c.address].current
    {
      if c.UpdateAccount? && c.address in s.objects && c.before == s.objects[c.address].initial && c.after == s.objects[c.address].current {
        assert c == UpdateAccount(c.address, s.objects[c.address].initial, s.objects[c.address].current);
      }
    }
  }
}
