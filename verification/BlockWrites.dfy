/** What a block leaves behind in a `State`, and exactly when its record takes it back. */
module BlockWrites {
  import opened Basics
  import opened StateTypes
  import opened Journal
  import opened Undoing
  import opened Transactions
  import opened BlockEnd
  import opened StateWrites
  import opened Backing

  function Initials(s: Ibs): Slot -> U256 {
    (p: Slot) => InitialOf(s, p.0, p.1)
  }

  function Originals(s: Ibs): Slot -> U256 {
    (p: Slot) => OriginalOf(s, p.0, p.1)
  }

  function AccountsBefore(s: Ibs): Address -> Option<Account> {
    (a: Address) => s.db.ReadAccount(a)
  }

  function AccountAfter(s: Ibs, a: Address): Option<Account> {
    if Obj(s, a).Some? then Obj(s, a).value.current else None
  }

  function AccountsAfter(s: Ibs): Address -> Option<Account> {
    (a: Address) => AccountAfter(s, a)
  }

  /** A block writes the slot. */
  predicate Writes(s: Ibs, a: Address, k: U256) {
    a in s.objects && s.objects[a].current.Some? && k in St(s, a).committed
  }

  /** A slot of an account that the block removed, brought back by the same block. */
  predicate Resurrected(s: Ibs, a: Address, k: U256) {
    a in s.incarnations && Writes(s, a, k) && s.db.ReadStorage(a, k) != 0
  }

  lemma SlotCalls(s: Ibs, slots: seq<Call>)
    requires Distinct(slots) && forall c :: c in slots <==> c in StorageWrites(s)
    ensures Transfers(slots, Initials(s), Originals(s))
    ensures forall a: Address, k: U256 :: (a, k) in Written(slots) <==> Writes(s, a, k)
  {
    forall c | c in slots ensures c.UpdateStorage? && c.initial == InitialOf(s, c.address, c.key) && c.current == OriginalOf(s, c.address, c.key) {
      assert c in StorageWrites(s);
    }
    forall a: Address, k: U256 ensures (a, k) in Written(slots) <==> Writes(s, a, k) {
      if (a, k) in Written(slots) {
        var i :| 0 <= i < |slots| && slots[i].UpdateStorage? && (slots[i].address, slots[i].key) == (a, k);
        assert slots[i] in StorageWrites(s);
      }
      if Writes(s, a, k) {
        var c := UpdateStorage(a, k, s.storage[a].committed[k].initial, s.storage[a].committed[k].original);
        assert c in StorageWrites(s);
        var i :| 0 <= i < |slots| && slots[i] == c;
        assert slots[i].UpdateStorage?;
      }
    }
  }

  lemma AccountCalls(s: Ibs, accounts: seq<Call>)
    requires Inv(s) && Distinct(accounts)
    requires forall c :: c in accounts <==>
        c.UpdateAccount? && c.address in s.objects && c.before == s.objects[c.address].initial && c.after == s.objects[c.address].current
    ensures Replaces(accounts, AccountsBefore(s), AccountsAfter(s))
    ensures Updated(accounts) == s.objects.Keys
  {
    forall a ensures a in Updated(accounts) <==> a in s.objects {
      if a in Updated(accounts) {
        var i :| 0 <= i < |accounts| && accounts[i].UpdateAccount? && accounts[i].address == a;
        assert accounts[i] in accounts;
      }
      if a in s.objects {
        var c := UpdateAccount(a, s.objects[a].initial, s.objects[a].current);
        assert c in accounts;
        var i :| 0 <= i < |accounts| && accounts[i] == c;
        assert accounts[i].UpdateAccount?;
      }
    }
  }

  /** The calls of a block. */
  function Calls(erasures: seq<Call>, slots: seq<Call>, accounts: seq<Call>): seq<Call> {
    erasures + slots + accounts
  }

  /** Effect and record of the calls of a block, whatever order the hash maps are walked in. */
  lemma BlockEffect(s: Ibs, erasures: seq<Call>, slots: seq<Call>, accounts: seq<Call>)
    requires Inv(s) && IsWriteOrder(s, erasures, slots, accounts)
    ensures forall a: Address, k: U256 :: WriteAll(s.db, Calls(erasures, slots, accounts)).ReadStorage(a, k) ==
              if Writes(s, a, k) then OriginalOf(s, a, k) else if a in s.incarnations then 0 else s.db.ReadStorage(a, k)
    ensures forall a: Address :: WriteAll(s.db, Calls(erasures, slots, accounts)).ReadAccount(a) == AccountAfter(s, a)
    ensures RecordAll(s.db, NO_DIFF, Calls(erasures, slots, accounts)) ==
            Diff(map[] + Befores(s.objects.Keys, AccountsBefore(s)), map[] + Within(s.db.slots, erasures) + Froms(Written(slots), Initials(s)))
  {
    hide *;
    var db1 := WriteAll(s.db, erasures);
    var d1 := RecordAll(s.db, NO_DIFF, erasures);
    CallsInTurn(s.db, erasures, slots, accounts);
    WriteOrderParts(s, erasures, slots, accounts);
    Erasures(s.db, NO_DIFF, erasures);
    SlotCalls(s, slots);
    StorageUpdates(db1, d1, slots, Initials(s), Originals(s));
    AccountCalls(s, accounts);
    AccountUpdates(WriteAll(db1, slots), RecordAll(db1, d1, slots), accounts, AccountsBefore(s), AccountsAfter(s));
    ErasedReads(s, erasures);
    forall a: Address ensures WriteAll(s.db, Calls(erasures, slots, accounts)).ReadAccount(a) == AccountAfter(s, a) {
      SameAccounts(s.db, WriteAll(db1, slots), a);
      Untouched(s, a);
    }
    forall a: Address, k: U256 ensures WriteAll(s.db, Calls(erasures, slots, accounts)).ReadStorage(a, k) ==
              if Writes(s, a, k) then OriginalOf(s, a, k) else if a in s.incarnations then 0 else s.db.ReadStorage(a, k)
    {
      SameSlots(WriteAll(s.db, Calls(erasures, slots, accounts)), WriteAll(db1, slots), a, k);
      OriginalsAt(s, a, k);
    }
    NoDiffs();
  }

  lemma OriginalsAt(s: Ibs, a: Address, k: U256)
    ensures Originals(s)((a, k)) == OriginalOf(s, a, k) && Initials(s)((a, k)) == InitialOf(s, a, k)
  {
  }

  lemma NoDiffs()
    ensures NO_DIFF.accounts == map[] && NO_DIFF.slots == map[]
  {
  }

  lemma SameAccounts(x: Db, y: Db, a: Address)
    requires x.accounts == y.accounts
    ensures x.ReadAccount(a) == y.ReadAccount(a)
  {
  }

  lemma SameSlots(x: Db, y: Db, a: Address, k: U256)
    requires x.slots == y.slots
    ensures x.ReadStorage(a, k) == y.ReadStorage(a, k)
  {
  }

  lemma Untouched(s: Ibs, a: Address)
    requires Inv(s)
    ensures a !in s.objects ==> AccountAfter(s, a) == s.db.ReadAccount(a)
    ensures AccountsAfter(s)(a) == AccountAfter(s, a)
  {
  }

  lemma WriteOrderParts(s: Ibs, erasures: seq<Call>, slots: seq<Call>, accounts: seq<Call>)
    requires IsWriteOrder(s, erasures, slots, accounts)
    ensures forall c :: c in erasures <==> c.Erase? && c.address in s.incarnations && s.incarnations[c.address] > 0
    ensures forall c :: c in slots <==> c in StorageWrites(s)
    ensures forall c :: c in accounts <==>
        c.UpdateAccount? && c.address in s.objects && c.before == s.objects[c.address].initial && c.after == s.objects[c.address].current
    ensures Distinct(erasures) && Distinct(slots) && Distinct(accounts)
  {
  }

  lemma CallsInTurn(db: Db, erasures: seq<Call>, slots: seq<Call>, accounts: seq<Call>)
    ensures WriteAll(db, Calls(erasures, slots, accounts)) == WriteAll(WriteAll(WriteAll(db, erasures), slots), accounts)
    ensures RecordAll(db, NO_DIFF, Calls(erasures, slots, accounts)) ==
            RecordAll(WriteAll(WriteAll(db, erasures), slots), RecordAll(WriteAll(db, erasures), RecordAll(db, NO_DIFF, erasures), slots), accounts)
  {
    WriteAllConcat(db, erasures, slots);
    WriteAllConcat(db, erasures + slots, accounts);
    RecordAllConcat(db, NO_DIFF, erasures, slots);
    RecordAllConcat(db, NO_DIFF, erasures + slots, accounts);
  }

  lemma ErasedReads(s: Ibs, erasures: seq<Call>)
    requires Inv(s)
    requires forall c :: c in erasures <==> c.Erase? && c.address in s.incarnations && s.incarnations[c.address] > 0
    ensures forall a: Address, k: U256 :: s.db.(slots := Outside(s.db.slots, erasures)).ReadStorage(a, k) ==
              if a in s.incarnations then 0 else s.db.ReadStorage(a, k)
  {
    forall a: Address ensures Erase(a) in erasures <==> a in s.incarnations {
    }
  }

  /** Every call of a block tells the `State` the value that it replaces. */
  lemma BlockInformed(s: Ibs, erasures: seq<Call>, slots: seq<Call>, accounts: seq<Call>)
    requires Inv(s) && Backed(s) && Consistent(s.db) && IsWriteOrder(s, erasures, slots, accounts)
    ensures AllInformed(s.db, Calls(erasures, slots, accounts))
  {
    hide *;
    var db1 := WriteAll(s.db, erasures);
    var db2 := WriteAll(db1, slots);
    WriteOrderParts(s, erasures, slots, accounts);
    ErasuresInformed(s.db, erasures);
    Erasures(s.db, NO_DIFF, erasures);
    ErasedReads(s, erasures);
    SlotCalls(s, slots);
    forall a: Address, k: U256 | (a, k) in Written(slots) ensures db1.ReadStorage(a, k) == Initials(s)((a, k)) {
      WrittenInitial(s, a, k);
    }
    StorageInformed(db1, slots, Initials(s), Originals(s));
    InformedConcat(s.db, erasures, slots);
    WriteAllConcat(s.db, erasures, slots);
    AccountCalls(s, accounts);
    StorageUpdates(db1, NO_DIFF, slots, Initials(s), Originals(s));
    forall a: Address ensures db2.ReadAccount(a) == AccountsBefore(s)(a) {
      SameAccounts(s.db, db2, a);
      BeforeAt(s, a);
    }
    AccountsInformed(db2, accounts, AccountsBefore(s), AccountsAfter(s));
    InformedConcat(s.db, erasures + slots, accounts);
    CallsAre(erasures, slots, accounts);
  }

  lemma WrittenInitial(s: Ibs, a: Address, k: U256)
    requires Inv(s) && Consistent(s.db) && Writes(s, a, k)
    ensures Initials(s)((a, k)) == if a in s.incarnations then 0 else s.db.ReadStorage(a, k)
  {
    assert InitialOf(s, a, k) == Base(s, a, k);
    BaseOfKnown(s, a, k);
  }

  lemma BeforeAt(s: Ibs, a: Address)
    ensures AccountsBefore(s)(a) == s.db.ReadAccount(a)
  {
  }

  lemma CallsAre(erasures: seq<Call>, slots: seq<Call>, accounts: seq<Call>)
    ensures Calls(erasures, slots, accounts) == erasures + slots + accounts
  {
  }

  /** After the write the `State` answers every read as the block's own state did, and only accounts have storage. */
  lemma WrittenAnswers(s: Ibs, erasures: seq<Call>, slots: seq<Call>, accounts: seq<Call>)
    requires Inv(s) && Backed(s) && Consistent(s.db) && IsWriteOrder(s, erasures, slots, accounts)
    ensures var db' := WriteAll(s.db, Calls(erasures, slots, accounts));
      && (forall a: Address :: db'.ReadAccount(a) == AccountAfter(s, a))
      && (forall a: Address, k: U256 :: db'.ReadStorage(a, k) == ReadSlot(s, a, k, true))
      && Consistent(db')
  {
    var db' := WriteAll(s.db, Calls(erasures, slots, accounts));
    BlockEffect(s, erasures, slots, accounts);
    forall a: Address, k: U256 ensures db'.ReadStorage(a, k) == ReadSlot(s, a, k, true) {
      BaseOfKnown(s, a, k);
      assert !Exists(s, a) ==> Base(s, a, k) == 0;
      if Exists(s, a) && !Writes(s, a, k) {
        assert k !in St(s, a).committed || a !in s.objects;
        StorageOfCached(s, a, k);
      }
    }
    forall a: Address, k: U256 | db'.ReadStorage(a, k) != 0 ensures a in db'.accounts {
      assert Exists(s, a);
      assert db'.ReadAccount(a).Some?;
    }
  }

  lemma StorageOfCached(s: Ibs, a: Address, k: U256)
    requires Backed(s) && Exists(s, a)
    ensures k in St(s, a).committed ==> a in s.objects
  {
  }

  // Taking a block back

  lemma RestoreReads(db: Db, d: Diff)
    ensures forall a: Address :: Restore(db, d).ReadAccount(a) == if a in d.accounts then d.accounts[a] else db.ReadAccount(a)
    ensures forall a: Address, k: U256 :: Restore(db, d).ReadStorage(a, k) == if (a, k) in d.slots then d.slots[(a, k)] else db.ReadStorage(a, k)
  {
  }

  /** The record of a block puts every account back, and every slot but the ones that the block brought back after a removal. */
  lemma UnwindExact(s: Ibs, erasures: seq<Call>, slots: seq<Call>, accounts: seq<Call>)
    requires Inv(s) && Backed(s) && Consistent(s.db) && IsWriteOrder(s, erasures, slots, accounts)
    ensures var calls := Calls(erasures, slots, accounts);
      var back := Restore(WriteAll(s.db, calls), RecordAll(s.db, NO_DIFF, calls));
      && (forall a: Address :: back.ReadAccount(a) == s.db.ReadAccount(a))
      && (forall a: Address, k: U256 :: back.ReadStorage(a, k) == s.db.ReadStorage(a, k) <==> !Resurrected(s, a, k))
      && (back == s.db <==> forall a: Address, k: U256 :: !Resurrected(s, a, k))
  {
    var calls := Calls(erasures, slots, accounts);
    var after, d := WriteAll(s.db, calls), RecordAll(s.db, NO_DIFF, calls);
    var back := Restore(after, d);
    BlockEffect(s, erasures, slots, accounts);
    SlotCalls(s, slots);
    RestoreReads(after, d);
    forall a: Address ensures back.ReadAccount(a) == s.db.ReadAccount(a) {
      Untouched(s, a);
    }
    forall a: Address, k: U256 ensures back.ReadStorage(a, k) == s.db.ReadStorage(a, k) <==> !Resurrected(s, a, k) {
      RecordedSlot(s, erasures, slots, a, k);
      OriginalsAt(s, a, k);
    }
    if forall a: Address, k: U256 :: !Resurrected(s, a, k) {
      SameAnswersSameDb(back, s.db);
    }
  }

  lemma RecordedSlot(s: Ibs, erasures: seq<Call>, slots: seq<Call>, a: Address, k: U256)
    requires Inv(s) && Consistent(s.db)
    requires forall c :: c in erasures <==> c.Erase? && c.address in s.incarnations && s.incarnations[c.address] > 0
    requires (a, k) in Written(slots) <==> Writes(s, a, k)
    ensures var d: map<Slot, U256> := map[] + Within(s.db.slots, erasures) + Froms(Written(slots), Initials(s));
      && (Writes(s, a, k) ==> (a, k) in d && d[(a, k)] == if a in s.incarnations then 0 else s.db.ReadStorage(a, k))
      && (!Writes(s, a, k) && a in s.incarnations && s.db.ReadStorage(a, k) != 0 ==> (a, k) in d && d[(a, k)] == s.db.ReadStorage(a, k))
      && (!Writes(s, a, k) && !(a in s.incarnations && s.db.ReadStorage(a, k) != 0) ==> (a, k) !in d)
  {
    if Writes(s, a, k) {
      assert InitialOf(s, a, k) == Base(s, a, k);
      BaseOfKnown(s, a, k);
    }
    assert Erase(a) in erasures <==> a in s.incarnations;
  }

  /** What is required of a block's state above holds of every state that a block reaches. */
  lemma PlayedBlock(db: Db, steps: seq<BlockStep>)
    ensures var s := Play(Fresh(db), steps); Inv(s) && Backed(s) && s.db == db
  {
    FreshInv(db);
    PlayInv(Fresh(db), steps);
    PlayBacked(Fresh(db), steps);
  }

  /** An account with storage destroys itself; later in the block it is created again and writes the slot: the old value is lost. */
  lemma ResurrectionHappens()
    ensures var db := Db(map[1 := Account(1, 0, EMPTY_HASH)], map[(1, 0) := 5]);
      var destroyed := [Transaction([SelfDestruct(1)]), Removal(1), EndTransaction];
      var created := [Transaction([NewContract(1), WriteSlot(1, 0, 7)]), EndTransaction];
      var s := Play(Fresh(db), destroyed + created);
      Consistent(db) && Resurrected(s, 1, 0) && After(s).ReadStorage(1, 0) == 7
  {
    hide Run, Play, Finalize, SetStorage, CreateContract, Writes, ClearSubstate, After, ReadSlot, Inv, Backed;
    var db := Db(map[1 := Account(1, 0, EMPTY_HASH)], map[(1, 0) := 5]);
    var destroyed := [Transaction([SelfDestruct(1)]), Removal(1), EndTransaction];
    var created := [Transaction([NewContract(1), WriteSlot(1, 0, 7)]), EndTransaction];
    var before := Play(Fresh(db), destroyed);
    PlayedBlock(db, destroyed);
    PlayInTurn(Fresh(db), destroyed, created);
    PlayOne(before, [NewContract(1), WriteSlot(1, 0, 7)]);
    RunTwo(ClearSubstate(before), NewContract(1), WriteSlot(1, 0, 7));
    ClearedDb(before);
    CreatedAndWritten(ClearSubstate(before), 1, 0, 7);
    AfterReads(Play(Fresh(db), destroyed + created), 1, 0);
    assert db.ReadStorage(1, 0) == 5;
  }

  lemma ClearedDb(s: Ibs)
    ensures ClearSubstate(s).db == s.db
  {
  }

  lemma {:induction false} PlayInTurn(s: Ibs, first: seq<BlockStep>, last: seq<BlockStep>)
    ensures Play(s, first + last) == Play(Play(s, first), last)
    decreases |first|
  {
    hide Run, Finalize, Destruct, ClearSubstate;
    if first == [] {
      assert first + last == last;
    } else {
      assert (first + last)[1..] == first[1..] + last;
      match first[0] {
        case Transaction(ops) => PlayInTurn(Run(ClearSubstate(s), ops), first[1..], last);
        case Removal(a) => PlayInTurn(Destruct(s, a), first[1..], last);
        case EndTransaction => PlayInTurn(Finalize(s), first[1..], last);
      }
    }
  }

  lemma RunTwo(s: Ibs, first: Op, second: Op)
    ensures Run(s, [first, second]) == Apply(Apply(s, first), second)
  {
    hide Apply;
    var ops := [first, second];
    assert Run(s, ops) == Run(Apply(s, first), ops[1..]);
    assert ops[1..] == [second];
    assert Run(Apply(s, first), ops[1..]) == Run(Apply(Apply(s, first), second), ops[1..][1..]);
  }

  lemma PlayOne(s: Ibs, ops: seq<Op>)
    ensures Play(s, [Transaction(ops), EndTransaction]) == Finalize(Run(ClearSubstate(s), ops))
  {
    hide Run, Finalize, ClearSubstate;
    var steps := [Transaction(ops), EndTransaction];
    var s1 := Run(ClearSubstate(s), ops);
    assert Play(s, steps) == Play(s1, steps[1..]);
    assert steps[1..] == [EndTransaction];
    assert Play(s1, steps[1..]) == Play(Finalize(s1), steps[1..][1..]);
  }

  lemma CreatedAndWritten(s: Ibs, a: Address, k: U256, v: U256)
    requires v != 0
    ensures var s' := Finalize(SetStorage(CreateContract(s, a), a, k, v)); Writes(s', a, k) && a in s'.incarnations && s'.db == s.db && ReadSlot(s', a, k, true) == v
  {
    var s1 := CreateContract(s, a);
    assert GetStorage(s1, a, k, false).1 == 0;
  }

  /** What a `State` answers after the writes of a block, said without its calls. */
  function After(s: Ibs): Db {
    Db(map a | a in s.db.accounts.Keys + s.objects.Keys && AccountAfter(s, a).Some? :: AccountAfter(s, a).value,
       map p | p in s.db.slots.Keys + CommittedSlots(s) && ReadSlot(s, p.0, p.1, true) != 0 :: ReadSlot(s, p.0, p.1, true))
  }

  function CommittedSlots(s: Ibs): set<Slot> {
    set a, k | a in s.storage && k in s.storage[a].committed :: (a, k)
  }

  lemma AfterReads(s: Ibs, a: Address, k: U256)
    ensures After(s).ReadAccount(a) == AccountAfter(s, a)
    ensures After(s).ReadStorage(a, k) == ReadSlot(s, a, k, true)
  {
    var p: Slot := (a, k);
    assert p.0 == a && p.1 == k;
    if ReadSlot(s, a, k, true) != 0 {
      assert p in s.db.slots.Keys + CommittedSlots(s);
    }
  }

  lemma AfterReadsAccount(s: Ibs, a: Address)
    ensures After(s).ReadAccount(a) == AccountAfter(s, a)
  {
  }

  /** The order in which the hash maps are walked does not matter. */
  lemma WritesReachAfter(s: Ibs, erasures: seq<Call>, slots: seq<Call>, accounts: seq<Call>)
    requires Inv(s) && Backed(s) && Consistent(s.db) && IsWriteOrder(s, erasures, slots, accounts)
    ensures WriteAll(s.db, Calls(erasures, slots, accounts)) == After(s) && Consistent(After(s))
  {
    hide *;
    var db' := WriteAll(s.db, Calls(erasures, slots, accounts));
    WrittenAnswers(s, erasures, slots, accounts);
    forall a: Address, k: U256 ensures db'.ReadAccount(a) == After(s).ReadAccount(a) && db'.ReadStorage(a, k) == After(s).ReadStorage(a, k) {
      AfterReads(s, a, k);
    }
    forall a: Address ensures db'.ReadAccount(a) == After(s).ReadAccount(a) {
      AfterReadsAccount(s, a);
    }
    SameAnswersSameDb(db', After(s));
  }

  lemma AfterConsistent(s: Ibs)
    ensures Consistent(After(s))
  {
    forall a: Address, k: U256 | After(s).ReadStorage(a, k) != 0 ensures a in After(s).accounts {
      AfterReads(s, a, k);
      assert After(s).ReadAccount(a).Some?;
    }
  }

  /** The answers after a number of blocks, each a run over what the one before left. */
  function AfterBlocks(db: Db, blocks: seq<seq<BlockStep>>): Db {
    if blocks == [] then db
    else After(Play(Fresh(AfterBlocks(db, blocks[..|blocks| - 1])), blocks[|blocks| - 1]))
  }

  lemma {:induction false} AfterBlocksConsistent(db: Db, blocks: seq<seq<BlockStep>>)
    requires Consistent(db)
    ensures Consistent(AfterBlocks(db, blocks))
  {
    if blocks != [] {
      AfterConsistent(Play(Fresh(AfterBlocks(db, blocks[..|blocks| - 1])), blocks[|blocks| - 1]));
    }
  }
}
