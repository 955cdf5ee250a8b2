/** The `State` that execution writes to: an overlay over the tables of a transaction, and change sets per block. */
module Buffer {
  import opened Basics
  import opened StateTypes
  import opened Journal
  import opened Transactions
  import opened BlockEnd
  import opened Backing
  import opened StateWrites
  import opened BlockWrites
  import opened OverlayModel
  import opened ChangeSets

  /** The tables that matter here; a change set maps a block to the values that it replaced. */
  datatype Tables = Tables(state: Db, accountChangeSet: map<nat, Accounts>, storageChangeSet: map<nat, map<Slot, U256>>)

  class Buffer {
    var txn: Tables
    const pruneFrom: nat
    var accounts: Accounts
    var storage: Overlays
    var accountChanges: map<nat, Accounts>
    var storageChanges: map<nat, map<Slot, U256>>
    var blockNumber: nat
    var changedStorage: set<Address>

    /** What reads answer. */
    ghost function View(): Db
      reads this`txn, this`accounts, this`storage
    {
      Through(txn.state, accounts, storage)
    }

    /** The accounts, then the slots, with a change-set entry above block `progress`. */
    ghost function ChangedAccounts(progress: int): set<Address>
      reads this`txn, this`accountChanges
    {
      Entries(txn.accountChangeSet, progress) + Entries(accountChanges, progress)
    }

    ghost function ChangedSlots(progress: int): set<Slot>
      reads this`txn, this`storageChanges
    {
      Entries(txn.storageChangeSet, progress) + Entries(storageChanges, progress)
    }

    constructor (txn: Tables, pruneFrom: nat)
      ensures this.txn == txn && this.pruneFrom == pruneFrom && accountChanges == map[] && storageChanges == map[]
      ensures View() == txn.state && accounts == map[] && storage == map[]
    {
      this.txn, this.pruneFrom := txn, pruneFrom;
      accounts, storage, accountChanges, storageChanges := map[], map[], map[], map[];
      blockNumber, changedStorage := 0, {};
      new;
      NothingOver(txn.state);
    }

    method ReadAccount(a: Address) returns (account: Option<Account>)
      ensures account == View().ReadAccount(a)
    {
      ThroughReads(txn.state, accounts, storage, a, 0);
      if a in accounts {
        return accounts[a];
      }
      return txn.state.ReadAccount(a);
    }

    method ReadStorage(a: Address, k: U256) returns (value: U256)
      ensures value == View().ReadStorage(a, k)
    {
      ThroughReads(txn.state, accounts, storage, a, k);
      if a in storage {
        if k in storage[a].slots {
          return storage[a].slots[k];
        } else if storage[a].erased {
          return 0;
        }
      }
      return txn.state.ReadStorage(a, k);
    }

    method BeginBlock(n: nat)
      modifies this`blockNumber, this`changedStorage
      ensures blockNumber == n && changedStorage == {}
      ensures n !in accountChanges ==> AccountChanges() == map[]
      ensures n !in storageChanges ==> SlotChanges() == map[]
    {
      blockNumber, changedStorage := n, {};
    }

    function SlotChanges(): map<Slot, U256>
      reads this`blockNumber, this`storageChanges
    {
      if blockNumber in storageChanges then storageChanges[blockNumber] else map[]
    }

    function AccountChanges(): Accounts
      reads this`blockNumber, this`accountChanges
    {
      if blockNumber in accountChanges then accountChanges[blockNumber] else map[]
    }

    method EraseStorage(a: Address)
      modifies this`storage, this`storageChanges
      ensures View() == Write(old(View()), Erase(a))
      ensures storageChanges == old(storageChanges)[blockNumber := EraseChanges(txn.state, old(storage), old(SlotChanges()), a)]
    {
      hide Through, Write, At, Keyed;
      EraseThrough(txn.state, accounts, storage, a);
      var discard := false;
      if a !in storage {
        discard := true;
        storage := storage[a := Overlay(true, map[])];
      }
      var changes := SlotChanges() + Keyed(a, storage[a].slots);
      if !storage[a].erased {
        discard := true;
      }
      storage := storage[a := Overlay(true, map[])];
      if discard {
        changes := At(txn.state.slots, a) + changes;
      }
      storageChanges := storageChanges[blockNumber := changes];
      assert storage == old(storage)[a := Overlay(true, map[])];
    }

    method UpdateAccount(a: Address, initial: Option<Account>, current: Option<Account>)
      requires Informed(View(), BlockEnd.UpdateAccount(a, initial, current))
      modifies this`accounts, this`accountChanges
      ensures View() == Write(old(View()), BlockEnd.UpdateAccount(a, initial, current))
      ensures accountChanges ==
        if blockNumber < pruneFrom || (current == initial && current.Some? && a !in changedStorage) then old(accountChanges)
        else old(accountChanges)[blockNumber := old(AccountChanges())[a := initial]]
    {
      UpdateAccountThrough(txn.state, accounts, storage, a, initial, current);
      hide Through, Write;
      var equal := current == initial;
      var deleted := current.None?;
      if equal && !deleted && a !in changedStorage {
        return;
      }
      if blockNumber >= pruneFrom {
        accountChanges := accountChanges[blockNumber := AccountChanges()[a := initial]];
      }
      if equal {
        return;
      }
      accounts := accounts[a := current];
    }

    method UpdateStorage(a: Address, k: U256, initial: U256, current: U256)
      requires Informed(View(), BlockEnd.UpdateStorage(a, k, initial, current))
      modifies this`storage, this`storageChanges, this`changedStorage
      ensures View() == Write(old(View()), BlockEnd.UpdateStorage(a, k, initial, current))
      ensures storageChanges ==
        if blockNumber < pruneFrom || current == initial then old(storageChanges)
        else old(storageChanges)[blockNumber := old(SlotChanges())[(a, k) := initial]]
    {
      UpdateStorageThrough(txn.state, accounts, storage, a, k, initial, current);
      hide Through, Write;
      if current == initial {
        return;
      }
      if blockNumber >= pruneFrom {
        changedStorage := changedStorage + {a};
        storageChanges := storageChanges[blockNumber := SlotChanges()[(a, k) := initial]];
      }
      var o := OverlayAt(storage, a);
      storage := storage[a := o.(slots := o.slots[k := current])];
    }

    /** Whatever reads differently than in `base` has a change-set entry above block `progress`. */
    ghost predicate Covers(base: Db, progress: int)
      reads this`txn, this`accounts, this`storage, this`accountChanges, this`storageChanges
    {
      Covered(base, View(), ChangedAccounts(progress), ChangedSlots(progress))
    }

    method Perform(c: Call, ghost base: Db, ghost progress: int)
      requires Informed(View(), c)
      modifies this`accounts, this`storage, this`accountChanges, this`storageChanges, this`changedStorage
      ensures View() == Write(old(View()), c)
      ensures old(Covers(base, progress)) && pruneFrom <= blockNumber && progress < blockNumber ==> Covers(base, progress)
      ensures pruneFrom <= blockNumber ==>
        Collects(old(View()), c, old(AccountChanges()), old(SlotChanges()), AccountChanges(), SlotChanges())
    {
      hide Through, Write, Entries, EraseChanges, Covered, Collects;
      ghost var accountsBefore, slotsBefore := AccountChanges(), SlotChanges();
      ghost var view, covered := View(), Covers(base, progress) && pruneFrom <= blockNumber && progress < blockNumber;
      match c {
        case Erase(a) =>
          if covered {
            CoverErase(base, txn, accounts, storage, storageChanges, blockNumber, SlotChanges(), a, progress, ChangedAccounts(progress));
          }
          EraseCollects(txn.state, accounts, storage, SlotChanges(), a, AccountChanges());
          EraseStorage(a);
        case UpdateStorage(a, k, initial, current) =>
          if covered {
            CoverStorage(base, view, txn, storageChanges, blockNumber, SlotChanges(), c, progress, ChangedAccounts(progress));
          }
          UpdateStorage(a, k, initial, current);
          StorageCollects(view, c, accountsBefore, slotsBefore);
        case UpdateAccount(a, before, after) =>
          if covered {
            CoverAccount(base, view, txn, accountChanges, blockNumber, AccountChanges(), c, progress, ChangedSlots(progress));
          }
          UpdateAccount(a, before, after);
          AccountCollects(view, c, accountsBefore, slotsBefore);
      }
    }

    method PerformAll(calls: seq<Call>, ghost base: Db, ghost progress: int)
      requires AllInformed(View(), calls)
      modifies this`accounts, this`storage, this`accountChanges, this`storageChanges, this`changedStorage
      ensures View() == WriteAll(old(View()), calls)
      ensures old(Covers(base, progress)) && pruneFrom <= blockNumber && progress < blockNumber ==> Covers(base, progress)
      ensures pruneFrom <= blockNumber && Orderly(calls) && old(AccountChanges()) == map[] && old(SlotChanges()) == map[] ==>
        Holds(old(View()), calls, AccountChanges(), SlotChanges())
    {
      hide *;
      ghost var db := View();
      ghost var starts := pruneFrom <= blockNumber && Orderly(calls) && AccountChanges() == map[] && SlotChanges() == map[];
      var i := 0;
      NoCalls(db, calls);
      assert calls[..0] == [];
      HoldsNone(db);
      while i < |calls|
        invariant 0 <= i <= |calls| && View() == WriteAll(db, calls[..i])
        invariant old(Covers(base, progress)) && pruneFrom <= blockNumber && progress < blockNumber ==> Covers(base, progress)
        invariant starts ==> Holds(db, calls[..i], AccountChanges(), SlotChanges())
      {
        NextCall(db, calls, i);
        ghost var accountsBefore, slotsBefore := AccountChanges(), SlotChanges();
        Perform(calls[i], base, progress);
        if starts {
          OrderlyPrefix(calls, i + 1);
          assert calls[..i + 1] == calls[..i] + [calls[i]];
          HoldsMore(db, calls[..i], calls[i], accountsBefore, slotsBefore, AccountChanges(), SlotChanges());
        }
        i := i + 1;
      }
      assert calls[..i] == calls;
    }

    /** Writes the state of a block, told its number. */
    method WriteBlock(s: Ibs, n: nat, ghost base: Db, ghost progress: int)
      requires View() == s.db && Inv(s) && Backed(s) && Consistent(s.db)
      modifies this`blockNumber, this`accounts, this`storage, this`accountChanges, this`storageChanges, this`changedStorage
      ensures View() == After(s) && blockNumber == n
      ensures old(Covers(base, progress)) && pruneFrom <= n && progress < n ==> Covers(base, progress)
      ensures pruneFrom <= n && old(n !in accountChanges && n !in storageChanges) ==> PutsBack(s, Diff(AccountChanges(), SlotChanges()))
    {
      hide *;
      BeginBlock(n);
      var erasures, slots, accounts := WriteCalls(s);
      WritesReachAfter(s, erasures, slots, accounts);
      BlockInformed(s, erasures, slots, accounts);
      BlockOrderly(s, erasures, slots, accounts);
      ghost var first := pruneFrom <= n && n !in accountChanges && n !in storageChanges;
      PerformAll(Calls(erasures, slots, accounts), base, progress);
      if first {
        BlockPutsBack(s, erasures, slots, accounts, Diff(AccountChanges(), SlotChanges()));
      }
    }

    /** Moves the change sets to their tables. */
    method WriteHistory()
      modifies this`txn, this`accountChanges, this`storageChanges
      ensures txn.state == old(txn.state) && View() == old(View()) && accountChanges == map[] && storageChanges == map[]
      ensures txn.accountChangeSet == Merged(old(txn.accountChangeSet), old(accountChanges))
      ensures txn.storageChangeSet == Merged(old(txn.storageChangeSet), old(storageChanges))
      ensures forall progress: int :: Entries(txn.accountChangeSet, progress) == old(ChangedAccounts(progress))
      ensures forall progress: int :: Entries(txn.storageChangeSet, progress) == old(ChangedSlots(progress))
    {
      hide Merged, Entries, Through;
      forall progress: int
        ensures Entries(Merged(txn.accountChangeSet, accountChanges), progress) == ChangedAccounts(progress)
        ensures Entries(Merged(txn.storageChangeSet, storageChanges), progress) == ChangedSlots(progress)
      {
        MergedEntries(txn.accountChangeSet, accountChanges, progress);
        MergedEntries(txn.storageChangeSet, storageChanges, progress);
      }
      txn := txn.(accountChangeSet := Merged(txn.accountChangeSet, accountChanges));
      accountChanges := map[];
      txn := txn.(storageChangeSet := Merged(txn.storageChangeSet, storageChanges));
      storageChanges := map[];
    }

    /** Afterwards the tables alone answer what the overlay did, and hold its change sets. */
    method WriteToDb()
      modifies this`txn, this`accountChanges, this`storageChanges
      ensures txn.state == old(View())
      ensures forall progress: int :: Entries(txn.accountChangeSet, progress) == old(ChangedAccounts(progress))
      ensures forall progress: int :: Entries(txn.storageChangeSet, progress) == old(ChangedSlots(progress))
    {
      hide Merged, Entries, Through;
      WriteHistory();
      var accountTable := WriteAccounts(txn.state.accounts, accounts);
      var storageTable := WriteSlots(txn.state, storage);
      SlotAnswers(accountTable, storageTable);
      ThroughIs(txn.state, accounts, storage, Db(accountTable, storageTable));
      txn := txn.(state := Db(accountTable, storageTable));
    }
  }

  method WriteAccounts(table: map<Address, Account>, accounts: Accounts) returns (table': map<Address, Account>)
    ensures forall a: Address :: (a in table' <==> if a in accounts then accounts[a].Some? else a in table)
    ensures forall a: Address :: a in table' ==> table'[a] == if a in accounts then accounts[a].value else table[a]
  {
    table' := table;
    var rest := accounts.Keys;
    while rest != {}
      invariant rest <= accounts.Keys
      invariant forall a: Address :: (a in table' <==> if a in accounts && a !in rest then accounts[a].Some? else a in table)
      invariant forall a: Address :: a in table' ==> table'[a] == if a in accounts && a !in rest then accounts[a].value else table[a]
      decreases |rest|
    {
      var a :| a in rest;
      if accounts[a].Some? {
        table' := table'[a := accounts[a].value];
      } else if a in table' {
        table' := table' - {a};
      }
      rest := rest - {a};
    }
  }

  method WriteSlots(table: Db, storage: Overlays) returns (slots: Slots)
    ensures forall a: Address, k: U256 :: ReadSlots(slots, a, k) == SlotThrough(table, storage, a, k)
  {
    hide SlotThrough, OverlayAt, ReadSlots;
    slots := table.slots;
    NotWritten(table, storage);
    var rest := storage.Keys;
    while rest != {}
      invariant rest <= storage.Keys
      invariant forall a: Address, k: U256 :: a in storage && a !in rest ==> ReadSlots(slots, a, k) == SlotThrough(table, storage, a, k)
      invariant forall a: Address, k: U256 :: a !in storage || a in rest ==> ReadSlots(slots, a, k) == table.ReadStorage(a, k)
      decreases |rest|
    {
      var a :| a in rest;
      slots := WriteAddress(table, slots, storage, a);
      rest := rest - {a};
    }
  }

  lemma SlotAnswers(accounts: map<Address, Account>, slots: Slots)
    ensures forall a: Address, k: U256 :: Db(accounts, slots).ReadStorage(a, k) == ReadSlots(slots, a, k)
  {
  }

  function ReadSlots(slots: Slots, a: Address, k: U256): U256 {
    if (a, k) in slots then slots[(a, k)] else 0
  }

  lemma NotWritten(table: Db, storage: Overlays)
    ensures forall a: Address, k: U256 :: ReadSlots(table.slots, a, k) == table.ReadStorage(a, k)
    ensures forall a: Address, k: U256 :: a !in storage ==> SlotThrough(table, storage, a, k) == table.ReadStorage(a, k)
  {
  }

  /** Discards the slots of the table where they were erased, then puts those of the overlay. */
  method WriteAddress(table: Db, slots: Slots, storage: Overlays, a: Address) returns (slots': Slots)
    requires a in storage && forall k: U256 :: ReadSlots(slots, a, k) == table.ReadStorage(a, k)
    ensures forall k: U256 :: ReadSlots(slots', a, k) == SlotThrough(table, storage, a, k)
    ensures forall b: Address, k: U256 :: b != a ==> ReadSlots(slots', b, k) == ReadSlots(slots, b, k)
  {
    var o := storage[a];
    slots' := slots;
    if o.erased {
      slots' := map p | p in slots && p.0 != a :: slots[p];
    }
    var rest := o.slots.Keys;
    while rest != {}
      invariant rest <= o.slots.Keys
      invariant forall k: U256 ::
        ReadSlots(slots', a, k) == if k in o.slots && k !in rest then o.slots[k] else if o.erased then 0 else table.ReadStorage(a, k)
      invariant forall b: Address, k: U256 :: b != a ==> ReadSlots(slots', b, k) == ReadSlots(slots, b, k)
      decreases |rest|
    {
      var k :| k in rest;
      slots' := With(slots', (a, k), o.slots[k]);
      rest := rest - {k};
    }
  }

  lemma EraseCollects(table: Db, accounts: Accounts, storage: Overlays, changes: map<Slot, U256>, a: Address, accountChanges: Accounts)
    ensures Collects(Through(table, accounts, storage), Erase(a), accountChanges, changes, accountChanges, EraseChanges(table, storage, changes, a))
  {
    hide EraseChanges, Through, SlotThrough;
    forall p: Slot ensures Through(table, accounts, storage).ReadStorage(p.0, p.1) == SlotThrough(table, storage, p.0, p.1) {
      ThroughReads(table, accounts, storage, p.0, p.1);
    }
    var changes' := EraseChanges(table, storage, changes, a);
    forall p: Slot
      ensures p in changes ==> p in changes'
      ensures p in changes && p.0 != a ==> changes'[p] == changes[p]
      ensures p in changes' && p !in changes ==> p.0 == a && changes'[p] == SlotThrough(table, storage, a, p.1)
      ensures p.0 == a && SlotThrough(table, storage, a, p.1) != 0 ==> p in changes'
    {
      EraseRecords(table, accounts, storage, changes, a, p.0, p.1);
    }
  }

  lemma StorageCollects(view: Db, c: Call, accounts: Accounts, slots: map<Slot, U256>)
    requires c.UpdateStorage?
    ensures Collects(view, c, accounts, slots, accounts, if c.current == c.initial then slots else slots[(c.address, c.key) := c.initial])
  {
  }

  lemma AccountCollects(view: Db, c: Call, accounts: Accounts, slots: map<Slot, U256>)
    requires c.UpdateAccount?
    ensures Collects(view, c, accounts, slots, accounts[c.address := c.before], slots)
    ensures c.before == c.after ==> Collects(view, c, accounts, slots, accounts, slots)
  {
  }

  lemma OrderlyPrefix(calls: seq<Call>, n: nat)
    requires Orderly(calls) && n <= |calls|
    ensures Orderly(calls[..n])
  {
  }

  lemma NoCalls(db: Db, calls: seq<Call>)
    ensures WriteAll(db, calls[..0]) == db
  {
  }

  lemma NextCall(db: Db, calls: seq<Call>, i: nat)
    requires AllInformed(db, calls) && i < |calls|
    ensures Informed(WriteAll(db, calls[..i]), calls[i]) && WriteAll(db, calls[..i + 1]) == Write(WriteAll(db, calls[..i]), calls[i])
  {
    assert calls[..i + 1][..i] == calls[..i];
  }

  lemma CoverErase(base: Db, txn: Tables, accounts: Accounts, storage: Overlays, changes: map<nat, map<Slot, U256>>,
      n: nat, block: map<Slot, U256>, a: Address, progress: int, addresses: set<Address>)
    requires block == (if n in changes then changes[n] else map[]) && n > progress
    requires Covered(base, Through(txn.state, accounts, storage), addresses, Entries(txn.storageChangeSet, progress) + Entries(changes, progress))
    ensures Covered(base, Write(Through(txn.state, accounts, storage), Erase(a)), addresses,
      Entries(txn.storageChangeSet, progress) + Entries(changes[n := EraseChanges(txn.state, storage, block, a)], progress))
  {
    hide Through, Entries, EraseChanges, SlotThrough;
    var view, block' := Through(txn.state, accounts, storage), EraseChanges(txn.state, storage, block, a);
    forall p: Slot | p in block ensures p in block' {
      EraseRecords(txn.state, accounts, storage, block, a, p.0, p.1);
    }
    MoreEntries(changes, n, block', progress);
    forall b: Address, k: U256 | Write(view, Erase(a)).ReadStorage(b, k) != base.ReadStorage(b, k)
      ensures (b, k) in Entries(txn.storageChangeSet, progress) + Entries(changes[n := block'], progress)
    {
      EraseRecords(txn.state, accounts, storage, block, a, b, k);
      ThroughReads(txn.state, accounts, storage, b, k);
      assert view.ReadStorage(b, k) != base.ReadStorage(b, k) || (b == a && view.ReadStorage(b, k) != 0);
    }
    assert forall b: Address :: Write(view, Erase(a)).ReadAccount(b) == view.ReadAccount(b);
  }

  lemma CoverStorage(base: Db, view: Db, txn: Tables, changes: map<nat, map<Slot, U256>>, n: nat, block: map<Slot, U256>,
      c: Call, progress: int, addresses: set<Address>)
    requires block == (if n in changes then changes[n] else map[]) && n > progress && c.UpdateStorage? && Informed(view, c)
    requires Covered(base, view, addresses, Entries(txn.storageChangeSet, progress) + Entries(changes, progress))
    ensures Covered(base, Write(view, c), addresses, Entries(txn.storageChangeSet, progress) +
      Entries(if c.current == c.initial then changes else changes[n := block[(c.address, c.key) := c.initial]], progress))
  {
    hide Entries;
    if c.current != c.initial {
      MoreEntries(changes, n, block[(c.address, c.key) := c.initial], progress);
    }
    forall b: Address, k: U256 ensures Write(view, c).ReadStorage(b, k) == if (b, k) == (c.address, c.key) then c.current else view.ReadStorage(b, k) {
      WriteReads(view, c, b, k);
    }
    assert forall b: Address :: Write(view, c).ReadAccount(b) == view.ReadAccount(b);
  }

  lemma CoverAccount(base: Db, view: Db, txn: Tables, changes: map<nat, Accounts>, n: nat, block: Accounts, c: Call, progress: int, slots: set<Slot>)
    requires block == (if n in changes then changes[n] else map[]) && n > progress && c.UpdateAccount? && Informed(view, c)
    requires Covered(base, view, Entries(txn.accountChangeSet, progress) + Entries(changes, progress), slots)
    ensures Covered(base, Write(view, c), Entries(txn.accountChangeSet, progress) + Entries(changes[n := block[c.address := c.before]], progress), slots)
    ensures c.before == c.after ==> Covered(base, Write(view, c), Entries(txn.accountChangeSet, progress) + Entries(changes, progress), slots)
  {
    hide Entries;
    MoreEntries(changes, n, block[c.address := c.before], progress);
    forall b: Address ensures Write(view, c).ReadAccount(b) == if b == c.address then c.after else view.ReadAccount(b) {
      WriteReadsAccount(view, c, b);
    }
    assert forall b: Address, k: U256 :: Write(view, c).ReadStorage(b, k) == view.ReadStorage(b, k);
  }

  ghost predicate Covered(base: Db, view: Db, addresses: set<Address>, slots: set<Slot>) {
    && (forall a: Address :: view.ReadAccount(a) != base.ReadAccount(a) ==> a in addresses)
    && (forall a: Address, k: U256 :: view.ReadStorage(a, k) != base.ReadStorage(a, k) ==> (a, k) in slots)
  }

  lemma NothingOver(table: Db)
    ensures Through(table, map[], map[]) == table
  {
    ThroughIs(table, map[], map[], table);
  }
}
