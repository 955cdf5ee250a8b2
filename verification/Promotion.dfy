/** The tables keyed by hashes: a clean rebuild from the state tables, and an update from the change sets. */
module Promotion {
  import opened StateTypes
  import opened BlockEnd
  import opened StateWrites
  import opened BlockWrites
  import opened OverlayModel
  import InMemoryState
  import Buffer
  import Agreement

  type HashedAccounts = map<Hash, Account>

  type HashedSlots = map<(Hash, Hash), U256>

  ghost predicate Injective<K(!new)>(f: K -> Hash) {
    forall x, y :: f(x) == f(y) ==> x == y
  }

  predicate MirroredAccount(f: Address -> Hash, hashed: HashedAccounts, db: Db, a: Address) {
    if a in db.accounts then f(a) in hashed && hashed[f(a)] == db.accounts[a] else f(a) !in hashed
  }

  ghost predicate MirrorsAccounts(f: Address -> Hash, hashed: HashedAccounts, db: Db) {
    && (forall a: Address :: MirroredAccount(f, hashed, db, a))
    && (forall h :: h in hashed ==> exists a: Address :: f(a) == h)
  }

  function HashedSlot(f: Address -> Hash, g: U256 -> Hash, p: Slot): (Hash, Hash) {
    (f(p.0), g(p.1))
  }

  predicate Mirrored(f: Address -> Hash, g: U256 -> Hash, hashed: HashedSlots, db: Db, p: Slot) {
    if p in db.slots then HashedSlot(f, g, p) in hashed && hashed[HashedSlot(f, g, p)] == db.slots[p] else HashedSlot(f, g, p) !in hashed
  }

  ghost predicate MirrorsSlots(f: Address -> Hash, g: U256 -> Hash, hashed: HashedSlots, db: Db) {
    && (forall p: Slot :: Mirrored(f, g, hashed, db, p))
    && (forall h :: h in hashed ==> exists p: Slot :: HashedSlot(f, g, p) == h)
  }

  /** There is only one mirror of a state. */
  lemma OneAccountMirror(f: Address -> Hash, x: HashedAccounts, y: HashedAccounts, db: Db)
    requires MirrorsAccounts(f, x, db) && MirrorsAccounts(f, y, db)
    ensures x == y
  {
    forall h ensures (h in x <==> h in y) && (h in x ==> x[h] == y[h]) {
      if h in x || h in y {
        var a: Address :| f(a) == h;
        assert MirroredAccount(f, x, db, a) && MirroredAccount(f, y, db, a);
      }
    }
  }

  lemma OneSlotMirror(f: Address -> Hash, g: U256 -> Hash, x: HashedSlots, y: HashedSlots, db: Db)
    requires MirrorsSlots(f, g, x, db) && MirrorsSlots(f, g, y, db)
    ensures x == y
  {
    forall h ensures (h in x <==> h in y) && (h in x ==> x[h] == y[h]) {
      if h in x || h in y {
        var p: Slot :| HashedSlot(f, g, p) == h;
        assert Mirrored(f, g, x, db, p) && Mirrored(f, g, y, db, p);
      }
    }
  }

  // Clean promotion

  method PromoteCleanAccounts(f: Address -> Hash, db: Db) returns (hashed: HashedAccounts)
    requires Injective(f)
    ensures MirrorsAccounts(f, hashed, db)
  {
    hashed := map[];
    var rest := db.accounts.Keys;
    while rest != {}
      invariant rest <= db.accounts.Keys
      invariant forall a: Address ::
        if a in db.accounts && a !in rest then f(a) in hashed && hashed[f(a)] == db.accounts[a] else f(a) !in hashed
      invariant forall h :: h in hashed ==> exists a: Address :: f(a) == h
      decreases |rest|
    {
      var a :| a in rest;
      hashed := hashed[f(a) := db.accounts[a]];
      rest := rest - {a};
    }
  }

  method PromoteCleanStorage(f: Address -> Hash, g: U256 -> Hash, db: Db) returns (hashed: HashedSlots)
    requires Injective(f) && Injective(g)
    ensures MirrorsSlots(f, g, hashed, db)
  {
    hashed := map[];
    var rest := db.slots.Keys;
    while rest != {}
      invariant rest <= db.slots.Keys
      invariant forall p: Slot :: if p in db.slots && p !in rest then HashedSlot(f, g, p) in hashed && hashed[HashedSlot(f, g, p)] == db.slots[p]
                                  else HashedSlot(f, g, p) !in hashed
      invariant forall h :: h in hashed ==> exists p: Slot :: HashedSlot(f, g, p) == h
      decreases |rest|
    {
      var p :| p in rest;
      SlotHashesDiffer(f, g, p);
      hashed := hashed[(f(p.0), g(p.1)) := db.slots[p]];
      rest := rest - {p};
    }
  }

  lemma SlotHashesDiffer(f: Address -> Hash, g: U256 -> Hash, p: Slot)
    requires Injective(f) && Injective(g)
    ensures forall q: Slot :: HashedSlot(f, g, q) == HashedSlot(f, g, p) ==> q == p
  {
  }

  // Incremental promotion

  /** The accounts of `done` are mirrored as they are in `db`, all others as they were in `base`. */
  ghost predicate AccountsSoFar(f: Address -> Hash, hashed: HashedAccounts, base: Db, db: Db, done: set<Address>) {
    && (forall a: Address :: MirroredAccount(f, hashed, if a in done then db else base, a))
    && (forall h :: h in hashed ==> exists a: Address :: f(a) == h)
  }

  method PromoteAccounts(f: Address -> Hash, changes: map<nat, Accounts>, db: Db, hashed: HashedAccounts, progress: nat, ghost base: Db)
    returns (hashed': HashedAccounts)
    requires Injective(f) && MirrorsAccounts(f, hashed, base)
    requires forall a: Address :: db.ReadAccount(a) != base.ReadAccount(a) ==> a in Entries(changes, progress)
    ensures MirrorsAccounts(f, hashed', db)
  {
    ghost var done: set<Address> := {};
    assert AccountsSoFar(f, hashed, base, db, done);
    hide *;
    hashed' := hashed;
    var rest: set<(nat, Address)> := Walk(changes, progress);
    while rest != {}
      invariant forall e :: e in Walk(changes, progress) ==> e in rest || e.1 in done
      invariant AccountsSoFar(f, hashed', base, db, done)
      decreases |rest|
    {
      var entry :| entry in rest;
      var a := entry.1;
      AccountDone(f, hashed', base, db, done, a);
      if a in db.accounts {
        hashed' := hashed'[f(a) := db.accounts[a]];
      } else if f(a) in hashed' {
        hashed' := hashed' - {f(a)};
      }
      done := done + {a};
      rest := rest - {entry};
    }
    Walked(changes, progress, done);
    AccountsDone(f, hashed', base, db, done);
  }

  lemma AccountDone(f: Address -> Hash, hashed: HashedAccounts, base: Db, db: Db, done: set<Address>, a: Address)
    requires Injective(f) && AccountsSoFar(f, hashed, base, db, done)
    ensures a in db.accounts ==> AccountsSoFar(f, hashed[f(a) := db.accounts[a]], base, db, done + {a})
    ensures a !in db.accounts ==> AccountsSoFar(f, hashed - {f(a)}, base, db, done + {a})
    ensures a !in db.accounts && f(a) !in hashed ==> AccountsSoFar(f, hashed, base, db, done + {a})
  {
    var hashed' := if a in db.accounts then hashed[f(a) := db.accounts[a]] else hashed - {f(a)};
    forall b: Address ensures MirroredAccount(f, hashed', if b in done + {a} then db else base, b) {
      assert MirroredAccount(f, hashed, if b in done then db else base, b);
      assert f(b) == f(a) ==> b == a;
    }
    assert f(a) !in hashed ==> hashed - {f(a)} == hashed;
  }

  lemma AccountsDone(f: Address -> Hash, hashed: HashedAccounts, base: Db, db: Db, done: set<Address>)
    requires AccountsSoFar(f, hashed, base, db, done)
    requires forall a: Address :: a !in done ==> db.ReadAccount(a) == base.ReadAccount(a)
    ensures MirrorsAccounts(f, hashed, db)
  {
    forall a: Address ensures MirroredAccount(f, hashed, db, a) {
      assert MirroredAccount(f, hashed, if a in done then db else base, a);
      assert a !in done ==> db.ReadAccount(a) == base.ReadAccount(a);
    }
  }

  ghost predicate SlotsSoFar(f: Address -> Hash, g: U256 -> Hash, hashed: HashedSlots, base: Db, db: Db, done: set<Slot>) {
    && (forall p: Slot :: Mirrored(f, g, hashed, if p in done then db else base, p))
    && (forall h :: h in hashed ==> exists p: Slot :: HashedSlot(f, g, p) == h)
  }

  method PromoteStorage(f: Address -> Hash, g: U256 -> Hash, changes: map<nat, map<Slot, U256>>, db: Db, hashed: HashedSlots, progress: nat, ghost base: Db)
    returns (hashed': HashedSlots)
    requires Injective(f) && Injective(g) && MirrorsSlots(f, g, hashed, base)
    requires forall a: Address, k: U256 :: db.ReadStorage(a, k) != base.ReadStorage(a, k) ==> (a, k) in Entries(changes, progress)
    ensures MirrorsSlots(f, g, hashed', db)
  {
    ghost var done: set<Slot> := {};
    var zero: U256 := 0;
    assert SlotsSoFar(f, g, hashed, base, db, done);
    hide *;
    hashed' := hashed;
    var rest: set<(nat, Slot)> := Walk(changes, progress);
    while rest != {}
      invariant forall e :: e in Walk(changes, progress) ==> e in rest || e.1 in done
      invariant SlotsSoFar(f, g, hashed', base, db, done)
      decreases |rest|
    {
      var entry :| entry in rest;
      var p: Slot := entry.1;
      var value := zero;
      if p in db.slots {
        value := db.slots[p];
      }
      SlotDone(f, g, hashed', base, db, done, p, value);
      hashed' := UpsertHashed(hashed', HashedSlot(f, g, p), value);
      done := done + {p};
      rest := rest - {entry};
    }
    Walked(changes, progress, done);
    SlotsDone(f, g, hashed', base, db, done);
  }

  lemma SlotDone(f: Address -> Hash, g: U256 -> Hash, hashed: HashedSlots, base: Db, db: Db, done: set<Slot>, p: Slot, value: U256)
    requires Injective(f) && Injective(g) && SlotsSoFar(f, g, hashed, base, db, done)
    requires if p in db.slots then value == db.slots[p] else value == 0
    ensures SlotsSoFar(f, g, UpsertHashed(hashed, HashedSlot(f, g, p), value), base, db, done + {p})
  {
    SlotHashesDiffer(f, g, p);
    hide HashedSlot;
    var hashed' := UpsertHashed(hashed, HashedSlot(f, g, p), value);
    forall q: Slot ensures Mirrored(f, g, hashed', if q in done + {p} then db else base, q) {
      assert Mirrored(f, g, hashed, if q in done then db else base, q);
    }
  }

  lemma SlotsDone(f: Address -> Hash, g: U256 -> Hash, hashed: HashedSlots, base: Db, db: Db, done: set<Slot>)
    requires SlotsSoFar(f, g, hashed, base, db, done)
    requires forall a: Address, k: U256 :: (a, k) !in done ==> db.ReadStorage(a, k) == base.ReadStorage(a, k)
    ensures MirrorsSlots(f, g, hashed, db)
  {
    forall p: Slot ensures Mirrored(f, g, hashed, db, p) {
      assert p == (p.0, p.1);
      assert Mirrored(f, g, hashed, if p in done then db else base, p);
      assert p !in done ==> db.ReadStorage(p.0, p.1) == base.ReadStorage(p.0, p.1);
    }
  }

  /** The entries of a change set above block `progress`. */
  function Walk<K, V>(changes: map<nat, map<K, V>>, progress: int): set<(nat, K)> {
    set n: nat, x: K | n in changes && n > progress && x in changes[n] :: (n, x)
  }

  lemma Walked<K, V>(changes: map<nat, map<K, V>>, progress: int, done: set<K>)
    requires forall e :: e in Walk(changes, progress) ==> e.1 in done
    ensures Entries(changes, progress) <= done
  {
    forall x | x in Entries(changes, progress) ensures x in done {
      var n: nat :| n in changes && n > progress && x in changes[n];
      assert (n, x) in Walk(changes, progress);
    }
  }

  function UpsertHashed(hashed: HashedSlots, h: (Hash, Hash), value: U256): HashedSlots {
    var without := if h in hashed then hashed - {h} else hashed;
    if value != 0 then without[h := value] else without
  }

  /**
   Blocks executed through the overlay and written to the tables; then the update from the change sets gives
   the same hashed tables as a clean rebuild.
   */
  method ExecuteAndPromote(f: Address -> Hash, g: U256 -> Hash, buffer: Buffer.Buffer, memory: InMemoryState.InMemoryState,
      progress: nat, blocks: seq<seq<BlockStep>>, hashedAccounts: HashedAccounts, hashedSlots: HashedSlots)
    returns (accounts: HashedAccounts, slots: HashedSlots)
    requires Injective(f) && Injective(g)
    requires memory.Valid() && memory.State() == buffer.View() == buffer.txn.state && Consistent(buffer.txn.state) && buffer.pruneFrom <= progress + 1
    requires MirrorsAccounts(f, hashedAccounts, buffer.txn.state) && MirrorsSlots(f, g, hashedSlots, buffer.txn.state)
    modifies buffer, memory
    ensures buffer.txn.state == AfterBlocks(old(buffer.txn.state), blocks)
    ensures MirrorsAccounts(f, accounts, buffer.txn.state) && MirrorsSlots(f, g, slots, buffer.txn.state)
  {
    ghost var db := buffer.txn.state;
    Uncovered(buffer, db, progress);
    hide *;
    Agreement.WriteBlocks(buffer, memory, progress + 1, blocks, db);
    CoveredTables(buffer, db, progress);
    buffer.WriteToDb();
    accounts := PromoteAccounts(f, buffer.txn.accountChangeSet, buffer.txn.state, hashedAccounts, progress, db);
    slots := PromoteStorage(f, g, buffer.txn.storageChangeSet, buffer.txn.state, hashedSlots, progress, db);
  }

  lemma Uncovered(buffer: Buffer.Buffer, db: Db, progress: int)
    requires buffer.View() == db
    ensures buffer.Covers(db, progress)
  {
  }

  lemma CoveredTables(buffer: Buffer.Buffer, db: Db, progress: int)
    requires buffer.Covers(db, progress)
    ensures forall a: Address :: buffer.View().ReadAccount(a) != db.ReadAccount(a) ==> a in buffer.ChangedAccounts(progress)
    ensures forall a: Address, k: U256 :: buffer.View().ReadStorage(a, k) != db.ReadStorage(a, k) ==> (a, k) in buffer.ChangedSlots(progress)
  {
  }
}
