/** An overlay of changes over the state tables, on values: what reads through it answer. */
module OverlayModel {
  import opened Basics
  import opened StateTypes
  import opened BlockEnd
  import opened StateWrites

  /** The changed slots of one address; `erased` when the slots of the table do not count any more. */
  datatype Overlay = Overlay(erased: bool, slots: map<U256, U256>)

  const NO_OVERLAY := Overlay(false, map[])

  type Overlays = map<Address, Overlay>

  type Accounts = map<Address, Option<Account>>

  function OverlayAt(storage: Overlays, a: Address): Overlay {
    if a in storage then storage[a] else NO_OVERLAY
  }

  function AccountThrough(table: Db, accounts: Accounts, a: Address): Option<Account> {
    if a in accounts then accounts[a] else table.ReadAccount(a)
  }

  function SlotThrough(table: Db, storage: Overlays, a: Address, k: U256): U256 {
    var o := OverlayAt(storage, a);
    if k in o.slots then o.slots[k] else if o.erased then 0 else table.ReadStorage(a, k)
  }

  function OverlaySlots(storage: Overlays): set<Slot> {
    set a, k | a in storage && k in storage[a].slots :: (a, k)
  }

  /** All the answers at once. */
  function Through(table: Db, accounts: Accounts, storage: Overlays): Db {
    Db(map a | a in table.accounts.Keys + accounts.Keys && AccountThrough(table, accounts, a).Some? :: AccountThrough(table, accounts, a).value,
       map p | p in table.slots.Keys + OverlaySlots(storage) && SlotThrough(table, storage, p.0, p.1) != 0 ::
         SlotThrough(table, storage, p.0, p.1))
  }

  lemma ThroughReads(table: Db, accounts: Accounts, storage: Overlays, a: Address, k: U256)
    ensures Through(table, accounts, storage).ReadAccount(a) == AccountThrough(table, accounts, a)
    ensures Through(table, accounts, storage).ReadStorage(a, k) == SlotThrough(table, storage, a, k)
  {
    var p: Slot := (a, k);
    assert p.0 == a && p.1 == k;
    if SlotThrough(table, storage, a, k) != 0 {
      assert p in table.slots.Keys + OverlaySlots(storage);
    }
  }

  /** A state that answers as the overlay does is the one seen through it. */
  lemma ThroughIs(table: Db, accounts: Accounts, storage: Overlays, db: Db)
    requires forall a: Address :: db.ReadAccount(a) == AccountThrough(table, accounts, a)
    requires forall a: Address, k: U256 :: db.ReadStorage(a, k) == SlotThrough(table, storage, a, k)
    ensures Through(table, accounts, storage) == db
  {
    hide Through, AccountThrough, SlotThrough;
    var zero: U256 := 0;
    forall a: Address, k: U256 ensures Through(table, accounts, storage).ReadStorage(a, k) == db.ReadStorage(a, k) {
      ThroughReads(table, accounts, storage, a, k);
    }
    forall a: Address ensures Through(table, accounts, storage).ReadAccount(a) == db.ReadAccount(a) {
      ThroughReads(table, accounts, storage, a, zero);
    }
    SameAnswersSameDb(Through(table, accounts, storage), db);
  }

  // The calls

  lemma EraseThrough(table: Db, accounts: Accounts, storage: Overlays, a: Address)
    ensures Through(table, accounts, storage[a := Overlay(true, map[])]) == Write(Through(table, accounts, storage), Erase(a))
  {
    hide Through;
    var db := Write(Through(table, accounts, storage), Erase(a));
    forall b: Address, k: U256
      ensures db.ReadAccount(b) == AccountThrough(table, accounts, b)
      ensures db.ReadStorage(b, k) == SlotThrough(table, storage[a := Overlay(true, map[])], b, k)
    {
      ThroughReads(table, accounts, storage, b, k);
    }
    AccountAnswers(table, accounts, storage, db);
    ThroughIs(table, accounts, storage[a := Overlay(true, map[])], db);
  }

  lemma AccountAnswers(table: Db, accounts: Accounts, storage: Overlays, db: Db)
    requires db.accounts == Through(table, accounts, storage).accounts
    ensures forall b: Address :: db.ReadAccount(b) == AccountThrough(table, accounts, b)
  {
    hide Through;
    forall b: Address ensures db.ReadAccount(b) == AccountThrough(table, accounts, b) {
      ThroughReads(table, accounts, storage, b, 0);
    }
  }

  lemma SlotThroughUpdated(table: Db, storage: Overlays, a: Address, k: U256, v: U256, b: Address, x: U256)
    ensures var o := OverlayAt(storage, a);
      SlotThrough(table, storage[a := o.(slots := o.slots[k := v])], b, x) == if (b, x) == (a, k) then v else SlotThrough(table, storage, b, x)
  {
  }

  lemma UpdateStorageThrough(table: Db, accounts: Accounts, storage: Overlays, a: Address, k: U256, initial: U256, v: U256)
    ensures var o := OverlayAt(storage, a);
      Through(table, accounts, storage[a := o.(slots := o.slots[k := v])]) == Write(Through(table, accounts, storage), UpdateStorage(a, k, initial, v))
    ensures Through(table, accounts, storage).ReadStorage(a, k) == v ==>
      Through(table, accounts, storage) == Write(Through(table, accounts, storage), UpdateStorage(a, k, initial, v))
  {
    hide Through, SlotThrough, OverlayAt;
    var db := Write(Through(table, accounts, storage), UpdateStorage(a, k, initial, v));
    var o := OverlayAt(storage, a);
    forall b: Address, x: U256 ensures db.ReadStorage(b, x) == SlotThrough(table, storage[a := o.(slots := o.slots[k := v])], b, x) {
      ThroughReads(table, accounts, storage, b, x);
      SlotThroughUpdated(table, storage, a, k, v, b, x);
      WriteReads(Through(table, accounts, storage), UpdateStorage(a, k, initial, v), b, x);
    }
    AccountAnswers(table, accounts, storage, db);
    ThroughIs(table, accounts, storage[a := o.(slots := o.slots[k := v])], db);
  }

  lemma UpdateAccountThrough(table: Db, accounts: Accounts, storage: Overlays, a: Address, before: Option<Account>, after: Option<Account>)
    ensures Through(table, accounts[a := after], storage) == Write(Through(table, accounts, storage), UpdateAccount(a, before, after))
    ensures Through(table, accounts, storage).ReadAccount(a) == after ==>
      Through(table, accounts, storage) == Write(Through(table, accounts, storage), UpdateAccount(a, before, after))
  {
    hide Through;
    var db := Write(Through(table, accounts, storage), UpdateAccount(a, before, after));
    forall b: Address, x: U256 ensures db.ReadStorage(b, x) == SlotThrough(table, storage, b, x) {
      ThroughReads(table, accounts, storage, b, x);
    }
    forall b: Address ensures db.ReadAccount(b) == AccountThrough(table, accounts[a := after], b) {
      ThroughReads(table, accounts, storage, b, 0);
    }
    ThroughIs(table, accounts[a := after], storage, db);
  }

  // Change sets

  function Keyed(a: Address, slots: map<U256, U256>): map<Slot, U256> {
    map k | k in slots :: (a, k) := slots[k]
  }

  /** The change set after an erasure: the slots of the overlay, and those of the table unless they were discarded before. */
  function EraseChanges(table: Db, storage: Overlays, changes: map<Slot, U256>, a: Address): map<Slot, U256> {
    var drained := changes + Keyed(a, OverlayAt(storage, a).slots);
    if OverlayAt(storage, a).erased then drained else At(table.slots, a) + drained
  }

  /**
   Every slot that an erasure changes is recorded, with the value that reads gave before; an entry of the same block is replaced only where
   the overlay holds the slot.
   */
  lemma EraseRecords(table: Db, accounts: Accounts, storage: Overlays, changes: map<Slot, U256>, a: Address, b: Address, k: U256)
    ensures var changes', o := EraseChanges(table, storage, changes, a), OverlayAt(storage, a);
      && ((b, k) in changes ==> (b, k) in changes')
      && (b != a ==> ((b, k) in changes' <==> (b, k) in changes) && ((b, k) in changes ==> changes'[(b, k)] == changes[(b, k)]))
      && (b == a && SlotThrough(table, storage, b, k) != 0 ==> (b, k) in changes')
      && (b == a && (b, k) in changes' ==> (b, k) in changes || k in o.slots || (!o.erased && table.ReadStorage(b, k) != 0))
      && (b == a && (b, k) in changes' ==>
            changes'[(b, k)] == if (b, k) in changes && k !in o.slots then changes[(b, k)] else SlotThrough(table, storage, b, k))
  {
  }

  function Merged<K, V>(history: map<nat, map<K, V>>, changes: map<nat, map<K, V>>): map<nat, map<K, V>> {
    map n | n in history.Keys + changes.Keys ::
      (if n in history then history[n] else map[]) + (if n in changes then changes[n] else map[])
  }

  /** The keys with an entry for some block above `progress`. */
  function Entries<K, V>(changes: map<nat, map<K, V>>, progress: int): set<K> {
    set n, x | n in changes && n > progress && x in changes[n] :: x
  }

  lemma MergedEntries<K, V>(history: map<nat, map<K, V>>, changes: map<nat, map<K, V>>, progress: int)
    ensures Entries(Merged(history, changes), progress) == Entries(history, progress) + Entries(changes, progress)
  {
    var all := Merged(history, changes);
    forall x ensures x in Entries(all, progress) <==> x in Entries(history, progress) || x in Entries(changes, progress) {
      if x in Entries(all, progress) {
        var n :| n in all && n > progress && x in all[n];
      }
      if x in Entries(history, progress) {
        var n :| n in history && n > progress && x in history[n];
        assert n in all && x in all[n];
      }
      if x in Entries(changes, progress) {
        var n :| n in changes && n > progress && x in changes[n];
        assert n in all && x in all[n];
      }
    }
  }

  lemma MoreEntries<K, V>(changes: map<nat, map<K, V>>, n: nat, block: map<K, V>, progress: int)
    requires n in changes ==> changes[n].Keys <= block.Keys
    requires n > progress
    ensures Entries(changes[n := block], progress) == Entries(changes, progress) + block.Keys
  {
    var all := changes[n := block];
    forall x ensures x in Entries(all, progress) <==> x in Entries(changes, progress) || x in block {
      if x in Entries(all, progress) {
        var m :| m in all && m > progress && x in all[m];
      }
      if x in Entries(changes, progress) {
        var m :| m in changes && m > progress && x in changes[m];
        assert m in all && x in all[m];
      }
      if x in block {
        assert n in all && x in all[n];
      }
    }
  }
}
