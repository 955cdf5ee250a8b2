/** The writes a block sends to a `State`: their effect on reads, and the record that takes them back. */
module StateWrites {
  import opened Basics
  import opened StateTypes
  import opened Journal
  import opened Undoing
  import opened Transactions
  import opened BlockEnd

  // One call

  function With(slots: Slots, p: Slot, v: U256): Slots {
    if v == 0 then slots - {p} else slots[p := v]
  }

  function Write(db: Db, c: Call): Db {
    match c
    case Erase(a) => db.(slots := map p | p in db.slots && p.0 != a :: db.slots[p])
    case UpdateStorage(a, k, _, v) => db.(slots := With(db.slots, (a, k), v))
    case UpdateAccount(a, _, after) => db.(accounts := if after.Some? then db.accounts[a := after.value] else db.accounts - {a})
  }

  /** The values that a block replaced. */
  datatype Diff = Diff(accounts: map<Address, Option<Account>>, slots: map<Slot, U256>)

  const NO_DIFF := Diff(map[], map[])

  function At(m: map<Slot, U256>, a: Address): map<Slot, U256> {
    map p | p in m && p.0 == a :: m[p]
  }

  /** What is remembered when a call is made on `db`. */
  function Record(db: Db, d: Diff, c: Call): Diff {
    match c
    case Erase(a) => d.(slots := d.slots + At(db.slots, a))
    case UpdateStorage(a, k, initial, _) => d.(slots := d.slots[(a, k) := initial])
    case UpdateAccount(a, before, _) => d.(accounts := d.accounts[a := before])
  }

  // Runs of calls

  function WriteAll(db: Db, calls: seq<Call>): Db {
    if calls == [] then db else Write(WriteAll(db, calls[..|calls| - 1]), calls[|calls| - 1])
  }

  function RecordAll(db: Db, d: Diff, calls: seq<Call>): Diff {
    if calls == [] then d
    else Record(WriteAll(db, calls[..|calls| - 1]), RecordAll(db, d, calls[..|calls| - 1]), calls[|calls| - 1])
  }

  /** The caller knows what it overwrites. */
  predicate Informed(db: Db, c: Call) {
    match c
    case Erase(_) => true
    case UpdateStorage(a, k, initial, _) => db.ReadStorage(a, k) == initial
    case UpdateAccount(a, before, _) => db.ReadAccount(a) == before
  }

  ghost predicate AllInformed(db: Db, calls: seq<Call>) {
    forall i :: 0 <= i < |calls| ==> Informed(WriteAll(db, calls[..i]), calls[i])
  }

  /** Restores what was remembered. */
  function Restore(db: Db, d: Diff): Db {
    Db(map a | a in db.accounts.Keys + d.accounts.Keys && (a in d.accounts ==> d.accounts[a].Some?) ::
         if a in d.accounts then d.accounts[a].value else db.accounts[a],
       map p | p in db.slots.Keys + d.slots.Keys && (p in d.slots ==> d.slots[p] != 0) ::
         if p in d.slots then d.slots[p] else db.slots[p])
  }

  /** Only accounts have storage. */
  ghost predicate Consistent(db: Db) {
    forall a: Address, k: U256 :: db.ReadStorage(a, k) != 0 ==> a in db.accounts
  }

  lemma {:induction false} WriteAllConcat(db: Db, first: seq<Call>, last: seq<Call>)
    ensures WriteAll(db, first + last) == WriteAll(WriteAll(db, first), last)
    decreases |last|
  {
    var all := first + last;
    if last == [] {
      assert all == first;
    } else {
      assert all[..|all| - 1] == first + last[..|last| - 1];
      WriteAllConcat(db, first, last[..|last| - 1]);
    }
  }

  lemma {:induction false} RecordAllConcat(db: Db, d: Diff, first: seq<Call>, last: seq<Call>)
    ensures RecordAll(db, d, first + last) == RecordAll(WriteAll(db, first), RecordAll(db, d, first), last)
    decreases |last|
  {
    hide Record, Write;
    var all := first + last;
    if last == [] {
      assert all == first;
    } else {
      assert all[..|all| - 1] == first + last[..|last| - 1];
      RecordAllConcat(db, d, first, last[..|last| - 1]);
      WriteAllConcat(db, first, last[..|last| - 1]);
    }
  }

  lemma InformedConcat(db: Db, first: seq<Call>, last: seq<Call>)
    requires AllInformed(db, first) && AllInformed(WriteAll(db, first), last)
    ensures AllInformed(db, first + last)
  {
    hide Informed, WriteAll;
    var all := first + last;
    forall i | 0 <= i < |all| ensures Informed(WriteAll(db, all[..i]), all[i]) {
      if i < |first| {
        assert all[..i] == first[..i];
      } else {
        WriteAllConcat(db, first, last[..i - |first|]);
        assert all[..i] == first + last[..i - |first|];
      }
    }
  }

  // The erasures of a block

  function Outside(slots: Slots, calls: seq<Call>): Slots {
    map p | p in slots && Erase(p.0) !in calls :: slots[p]
  }

  function Within(slots: Slots, calls: seq<Call>): map<Slot, U256> {
    map p | p in slots && Erase(p.0) in calls :: slots[p]
  }

  lemma EraseOne(db: Db, d: Diff, front: seq<Call>, a: Address)
    ensures Write(db.(slots := Outside(db.slots, front)), Erase(a)) == db.(slots := Outside(db.slots, front + [Erase(a)]))
    ensures Record(db.(slots := Outside(db.slots, front)), d.(slots := d.slots + Within(db.slots, front)), Erase(a)) ==
            d.(slots := d.slots + Within(db.slots, front + [Erase(a)]))
  {
    var left := Outside(db.slots, front);
    assert (map p | p in left && p.0 != a :: left[p]) == Outside(db.slots, front + [Erase(a)]);
    var taken := At(left, a);
    assert Within(db.slots, front) + taken == Within(db.slots, front + [Erase(a)]);
    assert d.slots + Within(db.slots, front) + taken == d.slots + (Within(db.slots, front) + taken);
  }

  lemma {:induction false} Erasures(db: Db, d: Diff, calls: seq<Call>)
    requires forall c :: c in calls ==> c.Erase?
    ensures WriteAll(db, calls) == db.(slots := Outside(db.slots, calls))
    ensures RecordAll(db, d, calls) == d.(slots := d.slots + Within(db.slots, calls))
    decreases |calls|
  {
    if calls == [] {
      assert d.slots == d.slots + Within(db.slots, calls);
      assert db.slots == Outside(db.slots, calls);
    } else {
      var front, c := calls[..|calls| - 1], calls[|calls| - 1];
      assert c in calls && forall x :: x in front ==> x in calls;
      hide Outside, Within, Write, Record;
      Erasures(db, d, front);
      assert calls == front + [Erase(c.address)];
      EraseOne(db, d, front, c.address);
    }
  }

  lemma ErasuresInformed(db: Db, calls: seq<Call>)
    requires forall c :: c in calls ==> c.Erase?
    ensures AllInformed(db, calls)
  {
    forall i | 0 <= i < |calls| ensures Informed(WriteAll(db, calls[..i]), calls[i]) {
      assert calls[i] in calls;
    }
  }

  // The storage writes of a block

  /** The slots that the calls write. */
  ghost function Written(calls: seq<Call>): set<Slot>
  {
    set i | 0 <= i < |calls| && calls[i].UpdateStorage? :: (calls[i].address, calls[i].key)
  }

  /** Each slot is written once, from `before` to `after`. */
  ghost predicate Transfers(calls: seq<Call>, before: Slot -> U256, after: Slot -> U256) {
    && (forall c :: c in calls ==> c.UpdateStorage? && c.initial == before((c.address, c.key)) && c.current == after((c.address, c.key)))
    && Distinct(calls)
  }

  lemma TransfersFront(calls: seq<Call>, before: Slot -> U256, after: Slot -> U256)
    requires Transfers(calls, before, after) && calls != []
    ensures var front, c := calls[..|calls| - 1], calls[|calls| - 1];
      && Transfers(front, before, after)
      && c.UpdateStorage? && c.initial == before((c.address, c.key)) && c.current == after((c.address, c.key))
      && (c.address, c.key) !in Written(front)
      && Written(calls) == Written(front) + {(c.address, c.key)}
  {
    var front, c := calls[..|calls| - 1], calls[|calls| - 1];
    forall x | x in front ensures x in calls {
    }
    assert c in calls;
    forall i | 0 <= i < |front| ensures front[i].UpdateStorage? && (front[i].address, front[i].key) != (c.address, c.key) {
      assert front[i] in front && calls[i] != calls[|calls| - 1];
    }
    forall p ensures p in Written(calls) <==> p in Written(front) || p == (c.address, c.key) {
      if p in Written(front) {
        var i :| 0 <= i < |front| && front[i].UpdateStorage? && (front[i].address, front[i].key) == p;
        assert calls[i] == front[i];
      }
      if p == (c.address, c.key) {
        assert calls[|calls| - 1] == c;
      }
    }
  }

  function Froms(slots: set<Slot>, before: Slot -> U256): map<Slot, U256> {
    map p | p in slots :: before(p)
  }

  lemma FromsMore(m: map<Slot, U256>, slots: set<Slot>, p: Slot, before: Slot -> U256)
    ensures (m + Froms(slots, before))[p := before(p)] == m + Froms(slots + {p}, before)
    ensures m + Froms({}, before) == m
  {
  }

  lemma {:induction false} StorageUpdates(db: Db, d: Diff, calls: seq<Call>, before: Slot -> U256, after: Slot -> U256)
    requires Transfers(calls, before, after)
    ensures WriteAll(db, calls).accounts == db.accounts
    ensures forall a: Address, k: U256 ::
      WriteAll(db, calls).ReadStorage(a, k) == if (a, k) in Written(calls) then after((a, k)) else db.ReadStorage(a, k)
    ensures RecordAll(db, d, calls) == d.(slots := d.slots + Froms(Written(calls), before))
    decreases |calls|
  {
    if calls == [] {
      FromsMore(d.slots, {}, (0, 0), before);
    } else {
      var front, c := calls[..|calls| - 1], calls[|calls| - 1];
      TransfersFront(calls, before, after);
      StorageUpdates(db, d, front, before, after);
      FromsMore(d.slots, Written(front), (c.address, c.key), before);
      hide Written, Transfers, Froms;
      forall a: Address, k: U256 ensures
        WriteAll(db, calls).ReadStorage(a, k) == if (a, k) in Written(calls) then after((a, k)) else db.ReadStorage(a, k)
      {
        WriteReads(WriteAll(db, front), c, a, k);
      }
    }
  }

  lemma WriteReads(db: Db, c: Call, a: Address, k: U256)
    requires c.UpdateStorage?
    ensures Write(db, c).ReadStorage(a, k) == if (a, k) == (c.address, c.key) then c.current else db.ReadStorage(a, k)
  {
  }

  lemma StorageInformed(db: Db, calls: seq<Call>, before: Slot -> U256, after: Slot -> U256)
    requires Transfers(calls, before, after)
    requires forall a: Address, k: U256 :: (a, k) in Written(calls) ==> db.ReadStorage(a, k) == before((a, k))
    ensures AllInformed(db, calls)
  {
    hide *;
    forall i | 0 <= i < |calls| ensures Informed(WriteAll(db, calls[..i]), calls[i]) {
      var upto := calls[..i + 1];
      TransfersPrefix(calls, before, after, i + 1);
      TransfersFront(upto, before, after);
      assert upto[..i] == calls[..i];
      StorageUpdates(db, NO_DIFF, calls[..i], before, after);
      WrittenAt(calls, i);
      InformedOf(WriteAll(db, calls[..i]), calls[i]);
    }
    AllInformedIs(db, calls);
  }

  lemma AllInformedIs(db: Db, calls: seq<Call>)
    requires forall i :: 0 <= i < |calls| ==> Informed(WriteAll(db, calls[..i]), calls[i])
    ensures AllInformed(db, calls)
  {
  }

  lemma InformedOf(db: Db, c: Call)
    requires c.UpdateStorage? && db.ReadStorage(c.address, c.key) == c.initial
    ensures Informed(db, c)
  {
  }

  lemma WrittenAt(calls: seq<Call>, i: nat)
    requires i < |calls| && calls[i].UpdateStorage?
    ensures (calls[i].address, calls[i].key) in Written(calls)
  {
  }

  lemma TransfersPrefix(calls: seq<Call>, before: Slot -> U256, after: Slot -> U256, n: nat)
    requires Transfers(calls, before, after) && n <= |calls|
    ensures Transfers(calls[..n], before, after)
  {
    assert forall c :: c in calls[..n] ==> c in calls;
  }

  // The account writes of a block

  ghost function Updated(calls: seq<Call>): set<Address> {
    set i | 0 <= i < |calls| && calls[i].UpdateAccount? :: calls[i].address
  }

  ghost predicate Replaces(calls: seq<Call>, before: Address -> Option<Account>, after: Address -> Option<Account>) {
    && (forall c :: c in calls ==> c.UpdateAccount? && c.before == before(c.address) && c.after == after(c.address))
    && Distinct(calls)
  }

  lemma ReplacesFront(calls: seq<Call>, before: Address -> Option<Account>, after: Address -> Option<Account>)
    requires Replaces(calls, before, after) && calls != []
    ensures var front, c := calls[..|calls| - 1], calls[|calls| - 1];
      && Replaces(front, before, after)
      && c.UpdateAccount? && c.before == before(c.address) && c.after == after(c.address)
      && c.address !in Updated(front)
      && Updated(calls) == Updated(front) + {c.address}
  {
    var front, c := calls[..|calls| - 1], calls[|calls| - 1];
    forall x | x in front ensures x in calls {
    }
    assert c in calls;
    forall i | 0 <= i < |front| ensures front[i].UpdateAccount? && front[i].address != c.address {
      assert front[i] in front && calls[i] != calls[|calls| - 1];
    }
    forall a ensures a in Updated(calls) <==> a in Updated(front) || a == c.address {
      if a in Updated(front) {
        var i :| 0 <= i < |front| && front[i].UpdateAccount? && front[i].address == a;
        assert calls[i] == front[i];
      }
      if a == c.address {
        assert calls[|calls| - 1] == c;
      }
    }
  }

  function Befores(addresses: set<Address>, before: Address -> Option<Account>): map<Address, Option<Account>> {
    map a | a in addresses :: before(a)
  }

  lemma BeforesMore(m: map<Address, Option<Account>>, addresses: set<Address>, a: Address, before: Address -> Option<Account>)
    ensures (m + Befores(addresses, before))[a := before(a)] == m + Befores(addresses + {a}, before)
    ensures m + Befores({}, before) == m
  {
  }

  lemma {:induction false} AccountUpdates(db: Db, d: Diff, calls: seq<Call>, before: Address -> Option<Account>, after: Address -> Option<Account>)
    requires Replaces(calls, before, after)
    ensures WriteAll(db, calls).slots == db.slots
    ensures forall a: Address :: WriteAll(db, calls).ReadAccount(a) == if a in Updated(calls) then after(a) else db.ReadAccount(a)
    ensures RecordAll(db, d, calls) == d.(accounts := d.accounts + Befores(Updated(calls), before))
    decreases |calls|
  {
    if calls == [] {
      BeforesMore(d.accounts, {}, 0, before);
    } else {
      var front, c := calls[..|calls| - 1], calls[|calls| - 1];
      ReplacesFront(calls, before, after);
      AccountUpdates(db, d, front, before, after);
      BeforesMore(d.accounts, Updated(front), c.address, before);
      hide Updated, Replaces, Befores;
      forall a: Address ensures WriteAll(db, calls).ReadAccount(a) == if a in Updated(calls) then after(a) else db.ReadAccount(a) {
        WriteReadsAccount(WriteAll(db, front), c, a);
      }
    }
  }

  lemma WriteReadsAccount(db: Db, c: Call, a: Address)
    requires c.UpdateAccount?
    ensures Write(db, c).ReadAccount(a) == if a == c.address then c.after else db.ReadAccount(a)
  {
  }

  lemma AccountsInformed(db: Db, calls: seq<Call>, before: Address -> Option<Account>, after: Address -> Option<Account>)
    requires Replaces(calls, before, after)
    requires forall a: Address :: a in Updated(calls) ==> db.ReadAccount(a) == before(a)
    ensures AllInformed(db, calls)
  {
    forall i | 0 <= i < |calls| ensures Informed(WriteAll(db, calls[..i]), calls[i]) {
      var upto := calls[..i + 1];
      assert Replaces(upto, before, after) by {
        assert forall c :: c in upto ==> c in calls;
      }
      ReplacesFront(upto, before, after);
      assert upto[..i] == calls[..i];
      AccountUpdates(db, NO_DIFF, calls[..i], before, after);
      assert calls[i].UpdateAccount?;
      assert calls[i].address in Updated(calls);
    }
  }
}
