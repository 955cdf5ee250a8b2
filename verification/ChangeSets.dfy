/** What the change set of a block holds when an overlay collects it, and exactly what it puts back. */
module ChangeSets {
  import opened Basics
  import opened StateTypes
  import opened Journal
  import opened Undoing
  import opened Transactions
  import opened BlockEnd
  import opened Backing
  import opened StateWrites
  import opened BlockWrites
  import opened OverlayModel

  /** The call replaces this account or slot by another value. */
  predicate Alters(c: Call, p: Slot) {
    c.UpdateStorage? && (c.address, c.key) == p && c.initial != c.current
  }

  predicate AltersAccount(c: Call, a: Address) {
    c.UpdateAccount? && c.address == a && c.before != c.after
  }

  /** Storage of an address is erased before it is written, and every slot and account is written once. */
  ghost predicate Orderly(calls: seq<Call>) {
    && (forall i, j :: 0 <= i < j < |calls| && calls[j].Erase? ==> calls[i].UpdateAccount? || calls[i].address != calls[j].address)
    && (forall i, j :: 0 <= i < j < |calls| && calls[i].UpdateStorage? && calls[j].UpdateStorage? ==>
          (calls[i].address, calls[i].key) != (calls[j].address, calls[j].key))
    && (forall i, j :: 0 <= i < j < |calls| && calls[i].UpdateAccount? && calls[j].UpdateAccount? ==> calls[i].address != calls[j].address)
  }

  /**
   The change set after these calls on `db`: the replaced value of each slot altered, for other erased slots the value in `db`, and
   nothing else; every entry of an account is the one in `db`, and each account altered has one.
   */
  ghost predicate Holds(db: Db, calls: seq<Call>, accounts: Accounts, slots: map<Slot, U256>) {
    && (forall p, c :: c in calls && Alters(c, p) ==> p in slots && slots[p] == c.initial)
    && (forall p :: p in slots && (forall c :: c in calls ==> !Alters(c, p)) ==> Erase(p.0) in calls && slots[p] == db.ReadStorage(p.0, p.1))
    && (forall p: Slot :: Erase(p.0) in calls && db.ReadStorage(p.0, p.1) != 0 ==> p in slots)
    && (forall a :: a in accounts ==> accounts[a] == db.ReadAccount(a))
    && (forall a, c :: c in calls && AltersAccount(c, a) ==> a in accounts)
  }

  /** What one call does to the change set, seen from what reads answer before it. */
  ghost predicate Collects(view: Db, c: Call, accounts: Accounts, slots: map<Slot, U256>, accounts': Accounts, slots': map<Slot, U256>) {
    match c
    case Erase(a) =>
      && accounts' == accounts
      && (forall p :: p in slots ==> p in slots')
      && (forall p :: p in slots && p.0 != a ==> slots'[p] == slots[p])
      && (forall p :: p in slots' && p !in slots ==> p.0 == a && slots'[p] == view.ReadStorage(a, p.1))
      && (forall p: Slot :: p.0 == a && view.ReadStorage(a, p.1) != 0 ==> p in slots')
    case UpdateStorage(a, k, initial, current) =>
      accounts' == accounts && slots' == if current == initial then slots else slots[(a, k) := initial]
    case UpdateAccount(a, before, after) =>
      slots' == slots && (accounts' == accounts[a := before] || (accounts' == accounts && before == after))
  }

  /** Slots that no call is about read as before. */
  lemma {:induction false} NotAbout(db: Db, calls: seq<Call>, a: Address, k: U256)
    requires forall c :: c in calls ==> c.UpdateAccount? || c.address != a
    ensures WriteAll(db, calls).ReadStorage(a, k) == db.ReadStorage(a, k)
    decreases |calls|
  {
    hide Write;
    if calls != [] {
      var front, last := calls[..|calls| - 1], calls[|calls| - 1];
      assert last in calls && forall c :: c in front ==> c in calls;
      NotAbout(db, front, a, k);
      OtherRead(WriteAll(db, front), last, a, k);
    }
  }

  lemma OtherRead(db: Db, c: Call, a: Address, k: U256)
    requires c.UpdateAccount? || c.address != a
    ensures Write(db, c).ReadStorage(a, k) == db.ReadStorage(a, k)
  {
  }

  lemma {:induction false} NotAboutAccount(db: Db, calls: seq<Call>, a: Address)
    requires forall c :: c in calls && c.UpdateAccount? ==> c.address != a
    ensures WriteAll(db, calls).ReadAccount(a) == db.ReadAccount(a)
    decreases |calls|
  {
    hide Write;
    if calls != [] {
      var front, last := calls[..|calls| - 1], calls[|calls| - 1];
      assert last in calls && forall c :: c in front ==> c in calls;
      NotAboutAccount(db, front, a);
      OtherAccount(WriteAll(db, front), last, a);
    }
  }

  lemma OtherAccount(db: Db, c: Call, a: Address)
    requires c.UpdateAccount? ==> c.address != a
    ensures Write(db, c).ReadAccount(a) == db.ReadAccount(a)
  {
  }

  lemma HoldsNone(db: Db)
    ensures Holds(db, [], map[], map[])
  {
  }

  /** One call more. */
  lemma HoldsMore(db: Db, calls: seq<Call>, c: Call, accounts: Accounts, slots: map<Slot, U256>, accounts': Accounts, slots': map<Slot, U256>)
    requires Orderly(calls + [c]) && Informed(WriteAll(db, calls), c) && Holds(db, calls, accounts, slots)
    requires Collects(WriteAll(db, calls), c, accounts, slots, accounts', slots')
    ensures Holds(db, calls + [c], accounts', slots')
  {
    var all := calls + [c];
    assert forall x :: x in all <==> x in calls || x == c;
    Earlier(calls, c);
    hide Orderly, WriteAll;
    match c {
      case Erase(a) => HoldsErase(db, calls, a, accounts, slots, slots');
      case UpdateStorage(a, k, initial, current) => HoldsStorage(db, calls, c, accounts, slots, slots');
      case UpdateAccount(a, before, after) =>
        NotAboutAccount(db, calls, a);
    }
  }

  lemma Earlier(calls: seq<Call>, c: Call)
    requires Orderly(calls + [c])
    ensures c.Erase? ==> forall x :: x in calls ==> x.UpdateAccount? || x.address != c.address
    ensures c.UpdateStorage? ==> forall x :: x in calls && x.UpdateStorage? ==> (x.address, x.key) != (c.address, c.key)
    ensures c.UpdateAccount? ==> forall x :: x in calls && x.UpdateAccount? ==> x.address != c.address
  {
    var all := calls + [c];
    assert all[|calls|] == c;
    forall x | x in calls
      ensures c.Erase? ==> x.UpdateAccount? || x.address != c.address
      ensures c.UpdateStorage? && x.UpdateStorage? ==> (x.address, x.key) != (c.address, c.key)
      ensures c.UpdateAccount? && x.UpdateAccount? ==> x.address != c.address
    {
      var i :| 0 <= i < |calls| && calls[i] == x;
      assert all[i] == x;
    }
  }

  lemma HoldsErase(db: Db, calls: seq<Call>, a: Address, accounts: Accounts, slots: map<Slot, U256>, slots': map<Slot, U256>)
    requires forall x :: x in calls ==> x.UpdateAccount? || x.address != a
    requires Holds(db, calls, accounts, slots) && Collects(WriteAll(db, calls), Erase(a), accounts, slots, accounts, slots')
    ensures Holds(db, calls + [Erase(a)], accounts, slots')
  {
    var all := calls + [Erase(a)];
    assert forall x :: x in all <==> x in calls || x == Erase(a);
    forall k: U256 ensures WriteAll(db, calls).ReadStorage(a, k) == db.ReadStorage(a, k) {
      NotAbout(db, calls, a, k);
    }
    forall p, x | x in calls && Alters(x, p) ensures p in slots' && slots'[p] == x.initial {
      assert p.0 == x.address;
    }
    forall p | p in slots' && (forall x :: x in all ==> !Alters(x, p)) ensures Erase(p.0) in all && slots'[p] == db.ReadStorage(p.0, p.1) {
      assert forall x :: x in calls ==> !Alters(x, p);
      if p in slots {
        assert Erase(p.0) in calls;
        assert p.0 != a;
      }
    }
    forall p: Slot | Erase(p.0) in all && db.ReadStorage(p.0, p.1) != 0 ensures p in slots' {
      assert p.0 != a ==> Erase(p.0) in calls;
    }
  }

  lemma HoldsStorage(db: Db, calls: seq<Call>, c: Call, accounts: Accounts, slots: map<Slot, U256>, slots': map<Slot, U256>)
    requires c.UpdateStorage? && forall x :: x in calls && x.UpdateStorage? ==> (x.address, x.key) != (c.address, c.key)
    requires Holds(db, calls, accounts, slots) && slots' == if c.current == c.initial then slots else slots[(c.address, c.key) := c.initial]
    ensures Holds(db, calls + [c], accounts, slots')
  {
    var all, q := calls + [c], (c.address, c.key);
    assert forall x :: x in all <==> x in calls || x == c;
    forall p, x | x in all && Alters(x, p) ensures p in slots' && slots'[p] == x.initial {
      assert x in calls ==> p != q;
    }
    forall p | p in slots' && (forall x :: x in all ==> !Alters(x, p)) ensures Erase(p.0) in all && slots'[p] == db.ReadStorage(p.0, p.1) {
      assert !Alters(c, p);
      assert forall x :: x in calls ==> !Alters(x, p);
    }
    forall p: Slot | Erase(p.0) in all && db.ReadStorage(p.0, p.1) != 0 ensures p in slots' {
      assert Erase(p.0) in calls;
    }
  }

  predicate IsUpdate(s: Ibs, c: Call) {
    c.UpdateAccount? && c.address in s.objects && c.before == s.objects[c.address].initial && c.after == s.objects[c.address].current
  }

  /** A block makes its calls in such an order, whichever way the hash maps are walked. */
  lemma BlockOrderly(s: Ibs, erasures: seq<Call>, slots: seq<Call>, accounts: seq<Call>)
    requires IsWriteOrder(s, erasures, slots, accounts)
    ensures Orderly(Calls(erasures, slots, accounts))
  {
    var calls := Calls(erasures, slots, accounts);
    var n, m := |erasures|, |erasures| + |slots|;
    forall i | 0 <= i < |calls|
      ensures i < n ==> calls[i] == erasures[i] && calls[i].Erase?
      ensures n <= i < m ==> calls[i] == slots[i - n] && calls[i] in StorageWrites(s)
      ensures m <= i ==> calls[i] == accounts[i - m] && IsUpdate(s, calls[i])
    {
      assert i < n ==> calls[i] in erasures;
      assert n <= i < m ==> calls[i] in slots;
      assert m <= i ==> calls[i] in accounts;
    }
    assert forall i :: 0 <= i < |calls| && calls[i].UpdateStorage? ==> n <= i < m;
    hide IsWriteOrder;
    WriteOrderParts(s, erasures, slots, accounts);
    forall i, j | 0 <= i < j < |calls| && calls[i].UpdateStorage? && calls[j].UpdateStorage?
      ensures (calls[i].address, calls[i].key) != (calls[j].address, calls[j].key)
    {
      assert slots[i - n] != slots[j - n];
    }
    forall i, j | 0 <= i < j < |calls| && calls[i].UpdateAccount? && calls[j].UpdateAccount? ensures calls[i].address != calls[j].address {
      assert accounts[i - m] != accounts[j - m];
    }
    forall i, j | 0 <= i < j < |calls| && calls[j].Erase? ensures calls[i].UpdateAccount? || calls[i].address != calls[j].address {
      assert erasures[i] != erasures[j];
    }
  }

  /** A slot that had a value, whose account the block removed, and that has a value again. */
  predicate Revived(s: Ibs, a: Address, k: U256) {
    a in s.incarnations && s.db.ReadStorage(a, k) != 0 && After(s).ReadStorage(a, k) != 0
  }

  /** A block whose change set does not put a slot back. */
  lemma RevivalHappens()
    ensures exists steps :: var s := Play(Fresh(Db(map[1 := Account(1, 0, EMPTY_HASH)], map[(1, 0) := 5])), steps); Revived(s, 1, 0)
  {
    hide Play, After;
    ResurrectionHappens();
    var db := Db(map[1 := Account(1, 0, EMPTY_HASH)], map[(1, 0) := 5]);
    var steps := [Transaction([SelfDestruct(1)]), Removal(1), EndTransaction] + [Transaction([NewContract(1), WriteSlot(1, 0, 7)]), EndTransaction];
    PlayedBlock(db, steps);
    assert db.ReadStorage(1, 0) == 5;
    assert Revived(Play(Fresh(db), steps), 1, 0);
  }

  /** Every account is put back, and every slot but those. */
  ghost predicate PutsBack(s: Ibs, d: Diff) {
    var back := Restore(After(s), d);
    && (forall a: Address :: back.ReadAccount(a) == s.db.ReadAccount(a))
    && (forall a: Address, k: U256 :: back.ReadStorage(a, k) == s.db.ReadStorage(a, k) <==> !Revived(s, a, k))
  }

  /** The change set of a block takes it back, but for slots that have a value again after their account was removed. */
  lemma BlockPutsBack(s: Ibs, erasures: seq<Call>, slots: seq<Call>, accounts: seq<Call>, d: Diff)
    requires Inv(s) && Backed(s) && Consistent(s.db) && IsWriteOrder(s, erasures, slots, accounts)
    requires Holds(s.db, Calls(erasures, slots, accounts), d.accounts, d.slots)
    ensures PutsBack(s, d)
  {
    hide Inv, Backed, Consistent, IsWriteOrder, Holds, Calls, Restore, After, Revived;
    var back := Restore(After(s), d);
    RestoreReads(After(s), d);
    forall a: Address ensures back.ReadAccount(a) == s.db.ReadAccount(a) {
      AccountBack(s, erasures, slots, accounts, d, a);
    }
    forall a: Address, k: U256 ensures back.ReadStorage(a, k) == s.db.ReadStorage(a, k) <==> !Revived(s, a, k) {
      SlotBack(s, erasures, slots, accounts, d, a, k);
    }
  }

  lemma AccountBack(s: Ibs, erasures: seq<Call>, slots: seq<Call>, accounts: seq<Call>, d: Diff, a: Address)
    requires Inv(s) && IsWriteOrder(s, erasures, slots, accounts)
    requires Holds(s.db, Calls(erasures, slots, accounts), d.accounts, d.slots)
    ensures (if a in d.accounts then d.accounts[a] else After(s).ReadAccount(a)) == s.db.ReadAccount(a)
  {
    AfterReadsAccount(s, a);
    Untouched(s, a);
    hide After, Inv;
    if a in s.objects {
      var c := UpdateAccount(a, s.objects[a].initial, s.objects[a].current);
      assert c in accounts;
      assert c in Calls(erasures, slots, accounts);
      InitialKnown(s, a);
      assert a !in d.accounts ==> !AltersAccount(c, a);
    }
  }

  lemma InitialKnown(s: Ibs, a: Address)
    requires Inv(s) && a in s.objects
    ensures s.objects[a].initial == s.db.ReadAccount(a)
  {
  }

  lemma SlotBack(s: Ibs, erasures: seq<Call>, slots: seq<Call>, accounts: seq<Call>, d: Diff, a: Address, k: U256)
    requires Inv(s) && Backed(s) && Consistent(s.db) && IsWriteOrder(s, erasures, slots, accounts)
    requires Holds(s.db, Calls(erasures, slots, accounts), d.accounts, d.slots)
    ensures (if (a, k) in d.slots then d.slots[(a, k)] else After(s).ReadStorage(a, k)) == s.db.ReadStorage(a, k) <==> !Revived(s, a, k)
  {
    var calls, p := Calls(erasures, slots, accounts), (a, k);
    SlotAfter(s, erasures, slots, accounts, a, k);
    WhichCalls(s, erasures, slots, accounts, a, k);
    hide After, Inv, Backed, Consistent, IsWriteOrder, Calls;
    if Writes(s, a, k) && InitialOf(s, a, k) != OriginalOf(s, a, k) {
      var c := UpdateStorage(a, k, InitialOf(s, a, k), OriginalOf(s, a, k));
      assert c in calls && Alters(c, p);
    } else {
      assert forall c :: c in calls ==> !Alters(c, p);
    }
  }

  lemma SlotAfter(s: Ibs, erasures: seq<Call>, slots: seq<Call>, accounts: seq<Call>, a: Address, k: U256)
    requires Inv(s) && Backed(s) && Consistent(s.db) && IsWriteOrder(s, erasures, slots, accounts)
    ensures Writes(s, a, k) ==> InitialOf(s, a, k) == if a in s.incarnations then 0 else s.db.ReadStorage(a, k)
    ensures After(s).ReadStorage(a, k) == if Writes(s, a, k) then OriginalOf(s, a, k) else if a in s.incarnations then 0 else s.db.ReadStorage(a, k)
  {
    BlockEffect(s, erasures, slots, accounts);
    WrittenAnswers(s, erasures, slots, accounts);
    AfterReads(s, a, k);
    if Writes(s, a, k) {
      WrittenInitial(s, a, k);
      OriginalsAt(s, a, k);
    }
  }

  lemma WhichCalls(s: Ibs, erasures: seq<Call>, slots: seq<Call>, accounts: seq<Call>, a: Address, k: U256)
    requires Inv(s) && IsWriteOrder(s, erasures, slots, accounts)
    ensures var calls := Calls(erasures, slots, accounts);
      && (Erase(a) in calls <==> a in s.incarnations)
      && (forall c :: c in calls && c.UpdateStorage? && c.address == a && c.key == k ==>
            Writes(s, a, k) && c.initial == InitialOf(s, a, k) && c.current == OriginalOf(s, a, k))
      && (Writes(s, a, k) ==> UpdateStorage(a, k, InitialOf(s, a, k), OriginalOf(s, a, k)) in calls)
  {
    var calls := Calls(erasures, slots, accounts);
    assert forall c :: c in calls <==> c in erasures || c in slots || c in accounts;
    assert Writes(s, a, k) ==> UpdateStorage(a, k, s.storage[a].committed[k].initial, s.storage[a].committed[k].original) in StorageWrites(s);
  }
}
