/** The journaled state of a block as an object whose methods update its fields in place. */
module IntraBlockState {
  import opened Basics
  import opened StateTypes
  import opened Journal
  import opened Undoing
  import BlockEnd

  datatype AccessStatus = Cold | Warm

  class IntraBlockState {
    const db: Db
    var objects: map<Address, Object>
    var storage: map<Address, Storage>
    var incarnations: map<Address, nat>
    var journal: seq<Delta>
    var selfDestructs: set<Address>
    var logs: seq<Log>
    var touched: set<Address>
    var refund: nat
    var accessedAddresses: set<Address>
    var accessedStorageKeys: map<Address, set<U256>>

    /** The state as a value. */
    ghost function View(): Ibs
      reads this
    {
      Ibs(db, objects, storage, incarnations, journal, selfDestructs, logs, touched, refund, accessedAddresses, accessedStorageKeys)
    }

    constructor (db: Db)
      ensures View() == Ibs(db, map[], map[], map[], [], {}, [], {}, 0, {}, map[])
    {
      this.db := db;
      objects, storage, incarnations, journal := map[], map[], map[], [];
      selfDestructs, logs, touched, refund := {}, [], {}, 0;
      accessedAddresses, accessedStorageKeys := {}, map[];
    }

    method LookUp(a: Address) returns (obj: Option<Object>)
      modifies this`objects
      ensures (View(), obj) == GetObject(old(View()), a)
    {
      if a in objects {
        return Some(objects[a]);
      }
      match db.ReadAccount(a) {
        case Some(acc) =>
          var o := Object(Some(acc), Some(acc));
          objects := objects[a := o];
          obj := Some(o);
        case None =>
          obj := None;
      }
    }

    method Ensure(a: Address)
      modifies this`objects, this`journal
      ensures View() == EnsureObject(old(View()), a)
      ensures a in objects && objects[a].current.Some?
    {
      var obj := LookUp(a);
      match obj {
        case Some(o) =>
          if o.current.None? {
            journal := journal + [Update(a, o)];
            objects := objects[a := o.(current := Some(EMPTY_ACCOUNT))];
          }
        case None =>
          journal := journal + [Create(a)];
          objects := objects[a := Object(None, Some(EMPTY_ACCOUNT))];
      }
    }

    method DoesExist(a: Address) returns (r: bool)
      modifies this`objects
      ensures View() == GetObject(old(View()), a).0 && r == Exists(old(View()), a)
    {
      var obj := LookUp(a);
      r := obj.Some? && obj.value.current.Some?;
    }

    method IsDead(a: Address) returns (r: bool)
      modifies this`objects
      ensures View() == GetObject(old(View()), a).0
      ensures r <==> !Exists(old(View()), a) || Obj(old(View()), a).value.current.value == EMPTY_ACCOUNT
    {
      var obj := LookUp(a);
      if obj.Some? && obj.value.current.Some? {
        var current := obj.value.current.value;
        return current.codeHash == EMPTY_HASH && current.nonce == 0 && current.balance == 0;
      }
      r := true;
    }

    method GetBalance(a: Address) returns (r: U256)
      modifies this`objects
      ensures View() == GetObject(old(View()), a).0 && r == Balance(old(View()), a)
    {
      var obj := LookUp(a);
      r := if obj.Some? && obj.value.current.Some? then obj.value.current.value.balance else 0;
    }

    method TouchAccount(a: Address)
      modifies this`touched, this`journal
      ensures View() == TouchAddress(old(View()), a)
    {
      var inserted := a !in touched;
      if inserted {
        touched := touched + {a};
      }
      if inserted && a != RIPEMD_ADDRESS {
        journal := journal + [Touch(a)];
      }
    }

    method SetBalance(a: Address, value: U256)
      modifies this`objects, this`journal, this`touched
      ensures View() == WriteBalance(old(View()), a, value)
    {
      Ensure(a);
      var current := objects[a].current.value;
      journal := journal + [UpdateBalance(a, current.balance)];
      objects := objects[a := objects[a].(current := Some(current.(balance := value)))];
      TouchAccount(a);
    }

    method AddToBalance(a: Address, addend: U256)
      modifies this`objects, this`journal, this`touched
      ensures View() == WriteBalance(old(View()), a, WrappingAdd(Live(EnsureObject(old(View()), a), a).balance, addend))
    {
      Ensure(a);
      var current := objects[a].current.value;
      journal := journal + [UpdateBalance(a, current.balance)];
      objects := objects[a := objects[a].(current := Some(current.(balance := WrappingAdd(current.balance, addend))))];
      TouchAccount(a);
    }

    method SubtractFromBalance(a: Address, subtrahend: U256)
      modifies this`objects, this`journal, this`touched
      ensures View() == WriteBalance(old(View()), a, WrappingSub(Live(EnsureObject(old(View()), a), a).balance, subtrahend))
    {
      Ensure(a);
      var current := objects[a].current.value;
      journal := journal + [UpdateBalance(a, current.balance)];
      objects := objects[a := objects[a].(current := Some(current.(balance := WrappingSub(current.balance, subtrahend))))];
      TouchAccount(a);
    }

    method ChangeNonce(a: Address, nonce: nat)
      modifies this`objects, this`journal
      ensures View() == SetNonce(old(View()), a, nonce)
    {
      Ensure(a);
      journal := journal + [Update(a, objects[a])];
      objects := objects[a := objects[a].(current := Some(objects[a].current.value.(nonce := nonce)))];
    }

    method ChangeCode(a: Address, hash: CodeHash)
      modifies this`objects, this`journal
      ensures View() == SetCode(old(View()), a, hash)
    {
      Ensure(a);
      journal := journal + [Update(a, objects[a])];
      objects := objects[a := objects[a].(current := Some(objects[a].current.value.(codeHash := hash)))];
    }

    method NewContract(a: Address)
      modifies this`objects, this`journal, this`incarnations, this`storage
      ensures View() == CreateContract(old(View()), a)
    {
      var current := EMPTY_ACCOUNT;
      var initial := None;
      var prev := LookUp(a);
      match prev {
        case Some(o) =>
          initial := o.initial;
          if o.current.Some? {
            current := current.(balance := o.current.value.balance);
          }
          journal := journal + [Update(a, o)];
        case None =>
          journal := journal + [Create(a)];
      }
      incarnations := incarnations[a := (if a in incarnations then incarnations[a] else 0) + 1];
      objects := objects[a := Object(initial, Some(current))];
      WipeStorage(a);
    }

    /** Records the incarnation and drops the storage of a new contract. */
    method WipeStorage(a: Address)
      modifies this`journal, this`storage
      ensures storage == old(storage) - {a}
      ensures journal == old(journal) + [Incarnation(a), if a in old(storage) then StorageWipe(a, old(storage)[a]) else StorageCreate(a)]
    {
      journal := journal + [Incarnation(a)];
      if a in storage {
        journal := journal + [StorageWipe(a, storage[a])];
        storage := storage - {a};
      } else {
        journal := journal + [StorageCreate(a)];
        assert storage == storage - {a};
      }
    }

    method RecordSelfDestruct(a: Address)
      modifies this`selfDestructs, this`journal
      ensures View() == RecordSelfdestruct(old(View()), a)
    {
      if a !in selfDestructs {
        selfDestructs := selfDestructs + {a};
        journal := journal + [Selfdestruct(a)];
      }
    }

    method WarmAccount(a: Address) returns (status: AccessStatus)
      modifies this`accessedAddresses, this`journal
      ensures View() == AccessAccount(old(View()), a) && (status == Warm <==> a in old(accessedAddresses))
    {
      if a !in accessedAddresses {
        accessedAddresses := accessedAddresses + {a};
        journal := journal + [AccountAccess(a)];
        return Cold;
      }
      status := Warm;
    }

    method WarmSlot(a: Address, k: U256) returns (status: AccessStatus)
      modifies this`accessedStorageKeys, this`journal
      ensures View() == AccessStorage(old(View()), a, k) && (status == Warm <==> k in Keys(old(View()), a))
    {
      var keys := if a in accessedStorageKeys then accessedStorageKeys[a] else {};
      if k !in keys {
        accessedStorageKeys := accessedStorageKeys[a := keys + {k}];
        journal := journal + [StorageAccess(a, k)];
        return Cold;
      }
      status := Warm;
    }

    method ReadSlot(a: Address, k: U256, original: bool) returns (value: U256)
      modifies this`objects, this`storage
      ensures (View(), value) == GetStorage(old(View()), a, k, original)
    {
      var obj := LookUp(a);
      if obj.None? || obj.value.current.None? {
        return 0;
      }
      var st := if a in storage then storage[a] else EMPTY_STORAGE;
      storage := storage[a := st];
      if !original && k in st.current {
        return st.current[k];
      }
      if k in st.committed {
        return st.committed[k].original;
      }
      if obj.value.initial.None? || a in incarnations {
        return 0;
      }
      value := db.ReadStorage(a, k);
      storage := storage[a := st.(committed := st.committed[k := Committed(value, value)])];
    }

    method WriteSlot(a: Address, k: U256, value: U256)
      modifies this`objects, this`storage, this`journal
      ensures View() == SetStorage(old(View()), a, k, value)
    {
      var previous := ReadSlot(a, k, false);
      if previous == value {
        return;
      }
      var st := if a in storage then storage[a] else EMPTY_STORAGE;
      storage := storage[a := st.(current := st.current[k := value])];
      journal := journal + [StorageChange(a, k, previous)];
    }

    /** Going back to it at once changes nothing. */
    method Snap() returns (snapshot: Snapshot)
      ensures snapshot == TakeSnapshot(View()) && RevertToSnapshot(View(), snapshot) == View()
    {
      UndoNothing(View());
      assert journal[|journal|..] == [] && journal[..|journal|] == journal && logs[..|logs|] == logs;
      snapshot := Snapshot(|journal|, |logs|, refund);
    }

    /** Takes one change back. Every entry that is unwrapped is there. */
    method RevertDelta(d: Delta)
      requires d.UpdateBalance? ==> d.address in objects && objects[d.address].current.Some?
      requires d.Incarnation? ==> d.address in incarnations && incarnations[d.address] > 0
      modifies this
      ensures View() == Revert(d, old(View()))
    {
      match d {
        case Create(a) => objects := objects - {a};
        case Update(a, previous) => objects := objects[a := previous];
        case UpdateBalance(a, previous) =>
          objects := objects[a := objects[a].(current := Some(objects[a].current.value.(balance := previous)))];
        case Incarnation(a) =>
          var left := incarnations[a] - 1;
          incarnations := if left == 0 then incarnations - {a} else incarnations[a := left];
        case Selfdestruct(a) => selfDestructs := selfDestructs - {a};
        case Touch(a) => touched := touched - {a};
        case StorageChange(a, k, previous) =>
          var st := if a in storage then storage[a] else EMPTY_STORAGE;
          storage := storage[a := st.(current := st.current[k := previous])];
        case StorageWipe(a, removed) => storage := storage[a := removed];
        case StorageCreate(a) => storage := storage - {a};
        case StorageAccess(a, k) =>
          var keys := if a in accessedStorageKeys then accessedStorageKeys[a] else {};
          accessedStorageKeys := accessedStorageKeys[a := keys - {k}];
        case AccountAccess(a) => accessedAddresses := accessedAddresses - {a};
      }
    }

    /** Pops the journal down to the size it had, taking back each change. */
    method RevertTo(snapshot: Snapshot)
      requires snapshot.journalSize <= |journal| && snapshot.logSize <= |logs|
      requires Undoable(View(), journal[snapshot.journalSize..])
      modifies this
      ensures View() == RevertToSnapshot(old(View()), snapshot)
    {
      hide Undo, Revert, Ok;
      ghost var kept := journal[..snapshot.journalSize];
      ghost var start, all := View(), journal[snapshot.journalSize..];
      ghost var n := |all|;
      while |journal| > snapshot.journalSize
        invariant 0 <= n == |journal| - snapshot.journalSize <= |all|
        invariant journal == kept + all[..n]
        invariant Reverting(View().(journal := start.journal), all[..n])
        invariant Undo(View().(journal := start.journal), all[..n]) == Undo(start, all)
        invariant logs == start.logs
        decreases |journal|
      {
        var d := journal[|journal| - 1];
        assert d == all[..n][n - 1] && all[..n][..n - 1] == all[..n - 1];
        ghost var before := View().(journal := start.journal);
        journal := journal[..|journal| - 1];
        RevertingStep(before, all[..n]);
        label popped:
        RevertDelta(d);
        RevertIgnoresJournal(d, old@popped(View()), start.journal);
        RevertKeepsLists(d, old@popped(View()));
        n := n - 1;
      }
      assert all[..0] == [];
      UndoNothing(View().(journal := start.journal));
      logs := logs[..snapshot.logSize];
      refund := snapshot.refund;
    }

    // The end of a transaction

    /** Removes an account for good. */
    method Destruct(a: Address)
      modifies this`incarnations, this`storage, this`objects
      ensures View() == BlockEnd.Destruct(old(View()), a)
    {
      incarnations := incarnations[a := (if a in incarnations then incarnations[a] else 0) + 1];
      storage := storage - {a};
      var obj := LookUp(a);
      if obj.Some? {
        objects := objects[a := obj.value.(current := None)];
      }
    }

    /** Pending values become the originals of the next transaction. */
    method FinalizeTransaction()
      modifies this`storage
      ensures View() == BlockEnd.Finalize(old(View()))
    {
      hide BlockEnd.Commit;
      ghost var start := storage;
      var rest := storage.Keys;
      while rest != {}
        invariant rest <= storage.Keys == start.Keys
        invariant forall a :: a in start ==> storage[a] == if a in rest then start[a] else BlockEnd.Commit(start[a])
        decreases |rest|
      {
        var a :| a in rest;
        var committed := CommitPending(storage[a]);
        storage := storage[a := committed];
        rest := rest - {a};
      }
    }

    method ClearJournalAndSubstate()
      modifies this`journal, this`selfDestructs, this`logs, this`touched, this`refund, this`accessedAddresses, this`accessedStorageKeys
      ensures View() == BlockEnd.ClearSubstate(old(View()))
      ensures forall a: Address, k: U256, original: bool :: Journal.ReadSlot(View(), a, k, original) == Journal.ReadSlot(old(View()), a, k, original)
      ensures forall a: Address ::
        Obj(View(), a) == Obj(old(View()), a) && Keys(View(), a) == {} && a !in accessedAddresses && a !in touched && a !in selfDestructs
      ensures TakeSnapshot(View()) == Snapshot(0, 0, 0)
    {
      BlockEnd.CleanSlate(View());
      hide Journal.ReadSlot, Obj, Keys;
      journal, selfDestructs, logs, touched, refund := [], {}, [], {}, 0;
      accessedAddresses, accessedStorageKeys := {}, map[];
    }
  }

  /** Moves every pending value to where the committed ones are. */
  method CommitPending(st: Storage) returns (r: Storage)
    ensures r == BlockEnd.Commit(st)
  {
    BlockEnd.CommitEnds(st);
    hide BlockEnd.CommitSome, BlockEnd.Commit;
    r := st;
    var rest, done := st.current.Keys, {};
    while rest != {}
      invariant rest !! done && rest + done == st.current.Keys && r == Storage(BlockEnd.CommitSome(st, done), st.current)
      decreases |rest|
    {
      var k :| k in rest;
      BlockEnd.CommitOne(st, done, k);
      var before := if k in r.committed then r.committed[k] else Committed(0, 0);
      r := r.(committed := r.committed[k := before.(original := r.current[k])]);
      rest, done := rest - {k}, done + {k};
    }
    r := r.(current := map[]);
  }

  /** Between two undo steps; a new contract's storage may be back while its incarnation is not. */
  ghost predicate Reverting(s: Ibs, deltas: seq<Delta>) {
    || Undoable(s, deltas)
    || (deltas != [] && var d := deltas[|deltas| - 1];
        d.Incarnation? && d.address in s.incarnations && s.incarnations[d.address] > 0 && Undoable(Revert(d, s), deltas[..|deltas| - 1]))
  }

  lemma RevertingStep(s: Ibs, deltas: seq<Delta>)
    requires Reverting(s, deltas) && deltas != []
    ensures var d, front := deltas[|deltas| - 1], deltas[..|deltas| - 1];
      && (d.UpdateBalance? ==> d.address in s.objects && s.objects[d.address].current.Some?)
      && (d.Incarnation? ==> d.address in s.incarnations && s.incarnations[d.address] > 0)
      && Reverting(Revert(d, s), front) && Undo(s, deltas) == Undo(Revert(d, s), front)
  {
    var n := |deltas|;
    var d, front := deltas[n - 1], deltas[..n - 1];
    if ClosesIncarnation(d) && n >= 2 {
      assert deltas[..n - 2] == front[..n - 2];
    }
  }

  lemma RevertIgnoresJournal(d: Delta, s: Ibs, journal: seq<Delta>)
    ensures Revert(d, s.(journal := journal)) == Revert(d, s).(journal := journal)
  {
  }

  lemma UndoNothing(s: Ibs)
    ensures Undo(s, []) == s
  {
  }
}
