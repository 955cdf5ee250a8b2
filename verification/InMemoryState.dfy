/** The in-memory `State`: nested maps changed in place, and the values that each block replaced. */
module InMemoryState {
  import opened Basics
  import opened StateTypes
  import opened Journal
  import opened Transactions
  import opened BlockEnd
  import opened Backing
  import opened StateWrites
  import opened BlockWrites
  import opened Replay

  type Nested = map<Address, map<U256, U256>>

  function Flat(storage: Nested): map<Slot, U256> {
    map a, k | a in storage && k in storage[a] :: (a, k) := storage[a][k]
  }

  function Inner(storage: Nested, a: Address): map<U256, U256> {
    if a in storage then storage[a] else map[]
  }

  predicate NoZeros(storage: Nested) {
    forall a, k :: a in storage && k in storage[a] ==> storage[a][k] != 0
  }

  lemma FlatAt(storage: Nested, p: Slot)
    ensures p in Flat(storage) <==> p.1 in Inner(storage, p.0)
    ensures p in Flat(storage) ==> Flat(storage)[p] == Inner(storage, p.0)[p.1]
  {
    assert p == (p.0, p.1);
  }

  lemma FlatNoZeros(storage: Nested)
    ensures NoZeros(storage) <==> forall p :: p in Flat(storage) ==> Flat(storage)[p] != 0
  {
    if forall p :: p in Flat(storage) ==> Flat(storage)[p] != 0 {
      forall a, k | a in storage && k in storage[a] ensures storage[a][k] != 0 {
        assert (a, k) in Flat(storage);
      }
    }
  }

  lemma FlatOnly(storage: Nested, a: Address, inner: map<U256, U256>, p: Slot)
    ensures var storage' := storage[a := inner];
      && (p in Flat(storage') <==> if p.0 == a then p.1 in inner else p in Flat(storage))
      && (p in Flat(storage') ==> Flat(storage')[p] == if p.0 == a then inner[p.1] else Flat(storage)[p])
  {
    FlatAt(storage, p);
    FlatAt(storage[a := inner], p);
  }

  lemma FlatPut(storage: Nested, a: Address, k: U256, v: U256)
    ensures Flat(storage[a := Inner(storage, a)[k := v]]) == Flat(storage)[(a, k) := v]
  {
    hide Flat, Inner;
    var storage' := storage[a := Inner(storage, a)[k := v]];
    forall p: Slot ensures p in Flat(storage') <==> p in Flat(storage)[(a, k) := v]
      ensures p in Flat(storage') ==> Flat(storage')[p] == Flat(storage)[(a, k) := v][p]
    {
      FlatAt(storage, p);
      FlatOnly(storage, a, Inner(storage, a)[k := v], p);
    }
  }

  lemma FlatDrop(storage: Nested, a: Address, k: U256)
    ensures Flat(storage[a := Inner(storage, a) - {k}]) == Flat(storage) - {(a, k)}
  {
    hide Flat, Inner;
    var storage' := storage[a := Inner(storage, a) - {k}];
    forall p: Slot ensures p in Flat(storage') <==> p in Flat(storage) - {(a, k)}
      ensures p in Flat(storage') ==> Flat(storage')[p] == Flat(storage)[p]
    {
      FlatAt(storage, p);
      FlatOnly(storage, a, Inner(storage, a) - {k}, p);
    }
  }

  lemma FlatRemove(storage: Nested, a: Address)
    ensures Flat(storage - {a}) == map p | p in Flat(storage) && p.0 != a :: Flat(storage)[p]
  {
    hide Flat;
    forall p: Slot ensures (p in Flat(storage - {a}) <==> p in Flat(storage) && p.0 != a)
      && (p in Flat(storage - {a}) ==> Flat(storage - {a})[p] == Flat(storage)[p])
    {
      FlatAt(storage, p);
      FlatAt(storage - {a}, p);
    }
  }

  lemma FlatMerge(changes: Nested, storage: Nested, a: Address)
    ensures Flat(changes[a := Inner(changes, a) + Inner(storage, a)]) == Flat(changes) + At(Flat(storage), a)
  {
    hide Flat, Inner;
    var changes' := changes[a := Inner(changes, a) + Inner(storage, a)];
    forall p: Slot ensures p in Flat(changes') <==> p in Flat(changes) + At(Flat(storage), a)
      ensures p in Flat(changes') ==> Flat(changes')[p] == (Flat(changes) + At(Flat(storage), a))[p]
    {
      FlatAt(storage, p);
      FlatAt(changes, p);
      FlatOnly(changes, a, Inner(changes, a) + Inner(storage, a), p);
    }
  }

  lemma NothingAt(storage: Nested, a: Address)
    requires Inner(storage, a) == map[]
    ensures At(Flat(storage), a) == map[]
  {
    hide Flat, Inner;
    forall p ensures p !in At(Flat(storage), a) {
      FlatAt(storage, p);
    }
  }

  function StateOf(accounts: map<Address, Account>, storage: Nested): Db
    requires NoZeros(storage)
  {
    FlatNoZeros(storage);
    Db(accounts, Flat(storage))
  }

  // The calls on nested maps

  lemma EraseNested(accounts: map<Address, Account>, storage: Nested, d: Diff, changes: Nested, a: Address)
    requires NoZeros(storage) && d.slots == Flat(changes)
    ensures NoZeros(storage - {a}) && StateOf(accounts, storage - {a}) == Write(StateOf(accounts, storage), Erase(a))
    ensures Record(StateOf(accounts, storage), d, Erase(a)) == d.(slots := Flat(changes[a := Inner(changes, a) + Inner(storage, a)]))
    ensures Inner(storage, a) == map[] ==> Record(StateOf(accounts, storage), d, Erase(a)) == d
  {
    hide Flat, At, Inner;
    FlatRemove(storage, a);
    FlatMerge(changes, storage, a);
    if Inner(storage, a) == map[] {
      NothingAt(storage, a);
      assert d.slots + map[] == d.slots;
    }
  }

  lemma UpdateNested(accounts: map<Address, Account>, storage: Nested, a: Address, k: U256, initial: U256, v: U256)
    requires NoZeros(storage)
    ensures var storage' := storage[a := if v == 0 then Inner(storage, a) - {k} else Inner(storage, a)[k := v]];
      NoZeros(storage') && StateOf(accounts, storage') == Write(StateOf(accounts, storage), UpdateStorage(a, k, initial, v))
  {
    var storage' := storage[a := if v == 0 then Inner(storage, a) - {k} else Inner(storage, a)[k := v]];
    FlatPut(storage, a, k, v);
    FlatDrop(storage, a, k);
    FlatNoZeros(storage);
    FlatNoZeros(storage');
    hide Flat, NoZeros;
  }

  // Putting back

  /** The accounts of `done` have the values of `changed` again. */
  function AccountsBack(accounts: map<Address, Account>, changed: map<Address, Option<Account>>, done: set<Address>): map<Address, Account>
    requires done <= changed.Keys
  {
    map a | a in accounts.Keys + done && (a in done ==> changed[a].Some?) :: if a in done then changed[a].value else accounts[a]
  }

  lemma AccountsBackOne(accounts: map<Address, Account>, changed: map<Address, Option<Account>>, done: set<Address>, a: Address)
    requires done <= changed.Keys && a in changed
    ensures var so := AccountsBack(accounts, changed, done);
      AccountsBack(accounts, changed, done + {a}) == if changed[a].Some? then so[a := changed[a].value] else so - {a}
  {
  }

  function SlotsBack(slots: Slots, changed: map<Slot, U256>, done: set<Slot>): Slots
    requires done <= changed.Keys
  {
    map p | p in slots.Keys + done && (p in done ==> changed[p] != 0) :: if p in done then changed[p] else slots[p]
  }

  lemma SlotsBackOne(slots: Slots, changed: map<Slot, U256>, done: set<Slot>, p: Slot)
    requires done <= changed.Keys && p in changed
    ensures SlotsBack(slots, changed, done + {p}) == With(SlotsBack(slots, changed, done), p, changed[p])
  {
  }

  lemma BackIsRestore(db: Db, d: Diff)
    ensures Restore(db, d) == Db(AccountsBack(db.accounts, d.accounts, d.accounts.Keys), SlotsBack(db.slots, d.slots, d.slots.Keys))
    ensures AccountsBack(db.accounts, d.accounts, {}) == db.accounts && SlotsBack(db.slots, d.slots, {}) == db.slots
  {
  }

  class InMemoryState {
    var accounts: map<Address, Account>
    var storage: Nested
    var blockNumber: nat
    var accountChanges: map<nat, map<Address, Option<Account>>>
    var storageChanges: map<nat, Nested>

    // Headers and bodies, total difficulties, and the hashes of the canonical chain
    var blocks: map<(nat, Hash), Block>
    var difficulty: map<(nat, Hash), nat>
    var canonicalHashes: seq<Hash>

    ghost predicate Valid()
      reads this`storage
    {
      NoZeros(storage)
    }

    /** What reads answer. */
    function State(): Db
      reads this`accounts, this`storage
      requires Valid()
    {
      StateOf(accounts, storage)
    }

    /** What the changes of a block are remembered as. */
    ghost function DiffAt(n: nat): Diff
      reads this`accountChanges, this`storageChanges
    {
      Diff(AccountsAt(n), Flat(SlotsAt(n)))
    }

    function AccountsAt(n: nat): map<Address, Option<Account>>
      reads this`accountChanges
    {
      if n in accountChanges then accountChanges[n] else map[]
    }

    function SlotsAt(n: nat): Nested
      reads this`storageChanges
    {
      if n in storageChanges then storageChanges[n] else map[]
    }

    constructor (accounts: map<Address, Account>, storage: Nested)
      requires NoZeros(storage)
      ensures Valid() && State() == StateOf(accounts, storage) && forall n :: DiffAt(n) == NO_DIFF
      ensures blocks == map[] && difficulty == map[] && canonicalHashes == []
    {
      hide Flat, NoZeros, StateOf;
      blocks, difficulty, canonicalHashes := map[], map[], [];
      this.accounts, this.storage := accounts, storage;
      blockNumber, accountChanges, storageChanges := 0, map[], map[];
      new;
      NoChanges();
    }

    method ReadAccount(a: Address) returns (account: Option<Account>)
      requires Valid()
      ensures account == State().ReadAccount(a)
    {
      account := if a in accounts then Some(accounts[a]) else None;
    }

    method ReadStorage(a: Address, k: U256) returns (value: U256)
      requires Valid()
      ensures value == State().ReadStorage(a, k)
    {
      if a in storage {
        if k in storage[a] {
          return storage[a][k];
        }
      }
      return 0;
    }

    method BeginBlock(n: nat)
      requires Valid()
      modifies this`blockNumber
      ensures blockNumber == n && Valid() && State() == old(State()) && forall m :: DiffAt(m) == old(DiffAt(m))
    {
      blockNumber := n;
    }

    method EraseStorage(a: Address)
      requires Valid()
      modifies this`storage, this`storageChanges
      ensures Valid() && State() == Write(old(State()), Erase(a))
      ensures DiffAt(blockNumber) == Record(old(State()), old(DiffAt(blockNumber)), Erase(a))
      ensures forall n :: n != blockNumber ==> DiffAt(n) == old(DiffAt(n))
    {
      hide Flat, NoZeros, Write, Record, Inner, StateOf;
      EraseNested(accounts, storage, DiffAt(blockNumber), SlotsAt(blockNumber), a);
      var erased := Inner(storage, a);
      storage := storage - {a};
      if erased != map[] {
        var changes := SlotsAt(blockNumber);
        storageChanges := storageChanges[blockNumber := changes[a := Inner(changes, a) + erased]];
      }
    }

    method UpdateAccount(a: Address, initial: Option<Account>, current: Option<Account>)
      requires Valid()
      modifies this`accounts, this`accountChanges
      ensures Valid() && State() == Write(old(State()), BlockEnd.UpdateAccount(a, initial, current))
      ensures DiffAt(blockNumber) == Record(old(State()), old(DiffAt(blockNumber)), BlockEnd.UpdateAccount(a, initial, current))
      ensures forall n :: n != blockNumber ==> DiffAt(n) == old(DiffAt(n))
    {
      accountChanges := accountChanges[blockNumber := AccountsAt(blockNumber)[a := initial]];
      if current.Some? {
        accounts := accounts[a := current.value];
      } else {
        accounts := accounts - {a};
      }
    }

    method UpdateStorage(a: Address, k: U256, initial: U256, current: U256)
      requires Valid()
      modifies this`storage, this`storageChanges
      ensures Valid() && State() == Write(old(State()), BlockEnd.UpdateStorage(a, k, initial, current))
      ensures DiffAt(blockNumber) == Record(old(State()), old(DiffAt(blockNumber)), BlockEnd.UpdateStorage(a, k, initial, current))
      ensures forall n :: n != blockNumber ==> DiffAt(n) == old(DiffAt(n))
    {
      hide Flat, NoZeros, Write, Inner, StateOf;
      FlatPut(SlotsAt(blockNumber), a, k, initial);
      UpdateNested(accounts, storage, a, k, initial, current);
      storageChanges := storageChanges[blockNumber := SlotsAt(blockNumber)[a := Inner(SlotsAt(blockNumber), a)[k := initial]]];
      if current == 0 {
        storage := storage[a := Inner(storage, a) - {k}];
      } else {
        storage := storage[a := Inner(storage, a)[k := current]];
      }
    }

    /** Takes back what block `n` changed and forgets the record. */
    method UnwindStateChanges(n: nat)
      requires Valid()
      modifies this`accounts, this`accountChanges, this`storage, this`storageChanges
      ensures Valid() && State() == Restore(old(State()), old(DiffAt(n)))
      ensures DiffAt(n) == NO_DIFF && forall m :: m != n ==> DiffAt(m) == old(DiffAt(m))
    {
      hide Restore, StateOf, NoZeros, Flat;
      NoChanges();
      ghost var d := DiffAt(n);
      accounts, storage := PutBack(accounts, storage, AccountsAt(n), SlotsAt(n));
      accountChanges, storageChanges := accountChanges - {n}, storageChanges - {n};
    }

    method Perform(c: Call)
      requires Valid()
      modifies this`accounts, this`accountChanges, this`storage, this`storageChanges
      ensures Valid() && State() == Write(old(State()), c)
      ensures DiffAt(blockNumber) == Record(old(State()), old(DiffAt(blockNumber)), c)
      ensures forall n :: n != blockNumber ==> DiffAt(n) == old(DiffAt(n))
    {
      hide *;
      match c {
        case Erase(a) => EraseStorage(a);
        case UpdateStorage(a, k, initial, current) => UpdateStorage(a, k, initial, current);
        case UpdateAccount(a, before, after) => UpdateAccount(a, before, after);
      }
    }

    method PerformAll(calls: seq<Call>)
      requires Valid()
      modifies this`accounts, this`accountChanges, this`storage, this`storageChanges
      ensures Valid() && State() == WriteAll(old(State()), calls)
      ensures DiffAt(blockNumber) == RecordAll(old(State()), old(DiffAt(blockNumber)), calls)
      ensures forall n :: n != blockNumber ==> DiffAt(n) == old(DiffAt(n))
    {
      hide *;
      NothingDone(State(), DiffAt(blockNumber));
      ghost var db, d := State(), DiffAt(blockNumber);
      var i := 0;
      assert calls[..0] == [];
      while i < |calls|
        invariant 0 <= i <= |calls|
        invariant Valid() && State() == WriteAll(db, calls[..i])
        invariant DiffAt(blockNumber) == RecordAll(db, d, calls[..i])
        invariant forall n :: n != blockNumber ==> DiffAt(n) == old(DiffAt(n))
      {
        OneMore(db, d, calls, i);
        Perform(calls[i]);
        i := i + 1;
      }
      assert calls[..i] == calls;
    }

    /** Writes the state of a block, told its number. */
    method WriteBlock(s: Ibs, n: nat)
      requires Valid() && State() == s.db && Inv(s) && Backed(s) && Consistent(s.db)
      modifies this`blockNumber, this`accounts, this`accountChanges, this`storage, this`storageChanges
      ensures Valid() && State() == After(s) && Consistent(After(s))
      ensures forall m :: m != n ==> DiffAt(m) == old(DiffAt(m))
      ensures old(DiffAt(n)) == NO_DIFF ==>
        (Restore(State(), DiffAt(n)) == s.db <==> forall a: Address, k: U256 :: !Resurrected(s, a, k))
    {
      hide *;
      BeginBlock(n);
      var erasures, slots, accounts := WriteCalls(s);
      WritesReachAfter(s, erasures, slots, accounts);
      UnwindExact(s, erasures, slots, accounts);
      PerformAll(Calls(erasures, slots, accounts));
    }

    // The chain

    method InsertBlock(b: Block, hash: Hash)
      modifies this`blocks, this`difficulty
      ensures blocks == old(blocks)[(b.number, hash) := b]
      ensures var parent := (b.number - 1, b.parentHash);
        && (b.number == 0 ==> difficulty == old(difficulty)[(0, hash) := b.difficulty])
        && (b.number > 0 && parent in old(difficulty) ==>
              difficulty == old(difficulty)[(b.number, hash) := old(difficulty)[parent] + b.difficulty])
        && (b.number > 0 && parent !in old(difficulty) ==> difficulty == old(difficulty)[parent := 0][(b.number, hash) := b.difficulty])
    {
      blocks := blocks[(b.number, hash) := b];
      var before := 0;
      if b.number > 0 {
        if (b.number - 1, b.parentHash) !in difficulty {
          difficulty := difficulty[(b.number - 1, b.parentHash) := 0];
        }
        before := difficulty[(b.number - 1, b.parentHash)];
      }
      difficulty := difficulty[(b.number, hash) := before + b.difficulty];
    }

    /** The canonical hash at a number, if there is one. */
    function CanonicalHash(n: nat): Option<Hash>
      reads this`canonicalHashes
    {
      if n < |canonicalHashes| then Some(canonicalHashes[n]) else None
    }

    method CanonizeBlock(n: nat, hash: Hash)
      modifies this`canonicalHashes
      ensures CanonicalHash(n) == Some(hash) && forall i: nat :: i != n && old(CanonicalHash(i)).Some? ==> CanonicalHash(i) == old(CanonicalHash(i))
      ensures |canonicalHashes| == (if n < |old(canonicalHashes)| then |old(canonicalHashes)| else n + 1) && canonicalHashes[n] == hash
      ensures forall i :: 0 <= i < |old(canonicalHashes)| && i != n ==> canonicalHashes[i] == old(canonicalHashes)[i]
    {
      if |canonicalHashes| <= n {
        canonicalHashes := canonicalHashes + seq(n + 1 - |canonicalHashes|, _ => 0);
      }
      canonicalHashes := canonicalHashes[n := hash];
    }

    /** From `n` on no number has a canonical block any more. */
    method DecanonizeBlock(n: nat)
      modifies this`canonicalHashes
      ensures forall i: nat :: CanonicalHash(i) == if i < n then old(CanonicalHash(i)) else None
    {
      if n < |canonicalHashes| {
        canonicalHashes := canonicalHashes[..n];
      }
    }
  }

  lemma NothingDone(db: Db, d: Diff)
    ensures WriteAll(db, []) == db && RecordAll(db, d, []) == d
  {
  }

  lemma OneMore(db: Db, d: Diff, calls: seq<Call>, i: nat)
    requires i < |calls|
    ensures WriteAll(db, calls[..i + 1]) == Write(WriteAll(db, calls[..i]), calls[i])
    ensures RecordAll(db, d, calls[..i + 1]) == Record(WriteAll(db, calls[..i]), RecordAll(db, d, calls[..i]), calls[i])
  {
    assert calls[..i + 1][..i] == calls[..i];
  }

  lemma NoChanges()
    ensures Flat(map[]) == map[]
  {
  }

  method PutBack(accounts: map<Address, Account>, storage: Nested, accountsBefore: map<Address, Option<Account>>, slotsBefore: Nested)
    returns (accounts': map<Address, Account>, storage': Nested)
    requires NoZeros(storage)
    ensures NoZeros(storage') && StateOf(accounts', storage') == Restore(StateOf(accounts, storage), Diff(accountsBefore, Flat(slotsBefore)))
  {
    accounts' := PutBackAccounts(accounts, accountsBefore);
    storage' := PutBackSlots(accounts, storage, slotsBefore);
    BackIsRestore(StateOf(accounts, storage), Diff(accountsBefore, Flat(slotsBefore)));
  }

  method PutBackAccounts(accounts: map<Address, Account>, changed: map<Address, Option<Account>>) returns (r: map<Address, Account>)
    ensures r == AccountsBack(accounts, changed, changed.Keys)
  {
    hide *;
    BackNothing(accounts, changed, map[], map[]);
    r := accounts;
    var rest, done := changed.Keys, {};
    while rest != {}
      invariant rest !! done && rest + done == changed.Keys && r == AccountsBack(accounts, changed, done)
      decreases |rest|
    {
      var a :| a in rest;
      AccountsBackOne(accounts, changed, done, a);
      if changed[a].Some? {
        r := r[a := changed[a].value];
      } else {
        r := r - {a};
      }
      rest, done := rest - {a}, done + {a};
    }
  }

  lemma BackNothing(accounts: map<Address, Account>, changed: map<Address, Option<Account>>, slots: Slots, replaced: map<Slot, U256>)
    ensures AccountsBack(accounts, changed, {}) == accounts && SlotsBack(slots, replaced, {}) == slots
  {
  }

  method PutBackSlots(accounts: map<Address, Account>, storage: Nested, changed: Nested) returns (r: Nested)
    requires NoZeros(storage)
    ensures NoZeros(r) && StateOf(accounts, r).slots == SlotsBack(StateOf(accounts, storage).slots, Flat(changed), Flat(changed).Keys)
  {
    hide *;
    ghost var slots := StateOf(accounts, storage).slots;
    BackNothing(accounts, map[], slots, Flat(changed));
    r := storage;
    var rest, done := Flat(changed).Keys, {};
    while rest != {}
      invariant rest !! done && rest + done == Flat(changed).Keys
      invariant NoZeros(r) && StateOf(accounts, r).slots == SlotsBack(slots, Flat(changed), done)
      decreases |rest|
    {
      var p :| p in rest;
      var v := Flat(changed)[p];
      SlotsBackOne(slots, Flat(changed), done, p);
      PutNested(accounts, r, p, v);
      if v == 0 {
        r := r[p.0 := Inner(r, p.0) - {p.1}];
      } else {
        r := r[p.0 := Inner(r, p.0)[p.1 := v]];
      }
      rest, done := rest - {p}, done + {p};
    }
  }

  lemma PutNested(accounts: map<Address, Account>, storage: Nested, p: Slot, v: U256)
    requires NoZeros(storage)
    ensures var storage' := storage[p.0 := if v == 0 then Inner(storage, p.0) - {p.1} else Inner(storage, p.0)[p.1 := v]];
      NoZeros(storage') && StateOf(accounts, storage').slots == With(StateOf(accounts, storage).slots, p, v)
  {
    UpdateNested(accounts, storage, p.0, p.1, 0, v);
  }
}
