/** The end of a transaction, said at once: which accounts go, and what that does to answers and money. */
module Removals {
  import opened Basics
  import opened StateTypes
  import opened Journal
  import opened Undoing
  import opened Transactions
  import opened BlockEnd
  import opened Refunds
  import opened Balances
  import opened Effects

  /** An account that counts as empty, or none. */
  predicate Dead(s: Ibs, a: Address) {
    Exists(s, a) ==> Obj(s, a).value.current.value == EMPTY_ACCOUNT
  }

  /** All accounts of a set removed. */
  function DestructSet(s: Ibs, gone: set<Address>): Ibs {
    s.(incarnations := map a | a in s.incarnations.Keys + gone ::
         (if a in s.incarnations then s.incarnations[a] else 0) + if a in gone then 1 else 0,
       storage := s.storage - gone,
       objects := map a | a in s.objects.Keys + gone * s.db.accounts.Keys ::
         if a in gone then Obj(s, a).value.(current := None) else s.objects[a])
  }

  /** All objects of a set looked up. */
  function LookUpSet(s: Ibs, seen: set<Address>): Ibs {
    s.(objects := map a | a in s.objects.Keys + seen * s.db.accounts.Keys :: Obj(s, a).value)
  }

  function RemoveDead(s: Ibs, touched: set<Address>): Ibs {
    DestructSet(LookUpSet(s, touched), set a | a in touched && Dead(s, a))
  }

  function CloseTransaction(rev: Revision, s: Ibs): Ibs {
    var t := DestructSet(s, s.selfDestructs);
    Finalize(if rev.AtLeast(Spurious) then RemoveDead(t, t.touched) else t)
  }

  // One after the other

  lemma DestructMore(s: Ibs, gone: set<Address>, a: Address)
    requires a !in gone
    ensures Destruct(DestructSet(s, gone), a) == DestructSet(s, gone + {a})
  {
    CountMore(s, gone, a);
    ObjectsMore(s, gone, a);
    hide Obj, GetObject;
    assert s.storage - gone - {a} == s.storage - (gone + {a});
  }

  lemma CountMore(s: Ibs, gone: set<Address>, a: Address)
    requires a !in gone
    ensures Destruct(DestructSet(s, gone), a).incarnations == DestructSet(s, gone + {a}).incarnations
  {
    var before, after := DestructSet(s, gone).incarnations, DestructSet(s, gone + {a}).incarnations;
    assert Destruct(DestructSet(s, gone), a).incarnations == before[a := (if a in before then before[a] else 0) + 1];
    hide Destruct, GetObject;
    assert after.Keys == before.Keys + {a};
  }

  lemma ObjectsMore(s: Ibs, gone: set<Address>, a: Address)
    requires a !in gone
    ensures Destruct(DestructSet(s, gone), a).objects == DestructSet(s, gone + {a}).objects
  {
    var before, after := DestructSet(s, gone).objects, DestructSet(s, gone + {a}).objects;
    var o := Obj(s, a);
    assert Obj(DestructSet(s, gone), a) == o;
    assert Destruct(DestructSet(s, gone), a).objects == if o.Some? then before[a := o.value.(current := None)] else before;
    hide Destruct, GetObject;
    assert o.Some? <==> a in s.objects || a in s.db.accounts;
    assert after.Keys == before.Keys + if o.Some? then {a} else {};
    forall b | b in after ensures after[b] == if b == a then o.value.(current := None) else before[b] {
    }
  }

  lemma DestructNone(s: Ibs)
    ensures DestructSet(s, {}) == s
  {
    var t := DestructSet(s, {});
    assert t.incarnations == s.incarnations && t.storage == s.storage && t.objects == s.objects;
  }

  lemma LookUpMore(s: Ibs, seen: set<Address>, a: Address)
    ensures GetObject(LookUpSet(s, seen), a).0 == LookUpSet(s, seen + {a})
    ensures LookUpSet(s, {}) == s
  {
    assert GetObject(LookUpSet(s, seen), a).0.objects == LookUpSet(s, seen + {a}).objects;
    assert LookUpSet(s, {}).objects == s.objects;
  }

  lemma LookUpAfter(s: Ibs, gone: set<Address>, a: Address)
    requires a !in gone
    ensures GetObject(DestructSet(s, gone), a).0 == DestructSet(GetObject(s, a).0, gone)
  {
    var t, u, o := GetObject(DestructSet(s, gone), a).0, DestructSet(GetObject(s, a).0, gone), Obj(s, a);
    var before := DestructSet(s, gone).objects;
    assert GetObject(s, a).0 == if o.Some? then s.(objects := s.objects[a := o.value]) else s;
    assert Obj(DestructSet(s, gone), a) == o;
    assert t == if o.Some? then DestructSet(s, gone).(objects := before[a := o.value]) else DestructSet(s, gone);
    hide GetObject;
    if o.Some? {
      LookUpAfterObjects(s, gone, a);
    }
  }

  lemma LookUpAfterObjects(s: Ibs, gone: set<Address>, a: Address)
    requires a !in gone && Obj(s, a).Some?
    ensures DestructSet(s.(objects := s.objects[a := Obj(s, a).value]), gone).objects == DestructSet(s, gone).objects[a := Obj(s, a).value]
  {
    var s1 := s.(objects := s.objects[a := Obj(s, a).value]);
    assert forall b: Address :: Obj(s1, b) == Obj(s, b);
    var t, u := DestructSet(s1, gone).objects, DestructSet(s, gone).objects;
    assert t.Keys == u.Keys + {a};
    hide Obj;
    forall b | b in t ensures t[b] == if b == a then Obj(s, a).value else u[b] {
    }
  }

  lemma DeadSame(s: Ibs, touched: set<Address>, a: Address)
    requires a !in touched
    ensures Dead(GetObject(RemoveDead(s, touched), a).0, a) <==> Dead(s, a)
  {
  }

  /** Looking one more touched account up, and removing it when it is dead. */
  lemma RemoveDeadMore(s: Ibs, touched: set<Address>, a: Address)
    requires a !in touched
    ensures var t := GetObject(RemoveDead(s, touched), a).0;
      && (Dead(t, a) <==> Dead(s, a))
      && RemoveDead(s, touched + {a}) == if Dead(s, a) then Destruct(t, a) else t
  {
    hide DestructSet, LookUpSet, Destruct, GetObject, Dead;
    DeadSame(s, touched, a);
    var dead := set b | b in touched && Dead(s, b);
    var dead' := set b | b in touched + {a} && Dead(s, b);
    assert dead' == if Dead(s, a) then dead + {a} else dead;
    LookUpAfter(LookUpSet(s, touched), dead, a);
    LookUpMore(s, touched, a);
    DestructMore(LookUpSet(s, touched + {a}), dead, a);
  }

  lemma RemoveDeadNone(s: Ibs)
    ensures RemoveDead(s, {}) == s
  {
    hide DestructSet, LookUpSet;
    var none: set<Address> := {};
    assert (set a | a in none && Dead(s, a)) == none;
    assert RemoveDead(s, none) == DestructSet(LookUpSet(s, none), none);
    LookUpMore(s, {}, 0);
    DestructNone(s);
  }

  // The invariant

  lemma {:induction false} DestructSetInv(s: Ibs, gone: set<Address>)
    requires Inv(s)
    ensures Inv(DestructSet(s, gone))
    decreases |gone|
  {
    hide Inv, DestructSet, Destruct;
    if gone == {} {
      DestructNone(s);
    } else {
      var a :| a in gone;
      DestructSetInv(s, gone - {a});
      DestructMore(s, gone - {a}, a);
      DestructInv(DestructSet(s, gone - {a}), a);
      assert gone - {a} + {a} == gone;
    }
  }

  lemma {:induction false} RemoveDeadInv(s: Ibs, touched: set<Address>)
    requires Inv(s)
    ensures Inv(RemoveDead(s, touched))
    decreases |touched|
  {
    hide Inv, RemoveDead, Destruct, GetObject;
    if touched == {} {
      RemoveDeadNone(s);
    } else {
      var a :| a in touched;
      RemoveDeadInv(s, touched - {a});
      RemoveDeadMore(s, touched - {a}, a);
      var t := RemoveDead(s, touched - {a});
      GetObjectInv(t, a);
      DestructInv(GetObject(t, a).0, a);
      assert touched - {a} + {a} == touched;
    }
  }

  lemma EndInv(rev: Revision, s: Ibs)
    requires Inv(s)
    ensures Inv(CloseTransaction(rev, s))
  {
    hide Inv, DestructSet, RemoveDead, Finalize;
    var t := DestructSet(s, s.selfDestructs);
    DestructSetInv(s, s.selfDestructs);
    RemoveDeadInv(t, t.touched);
    FinalizeInv(if rev.AtLeast(Spurious) then RemoveDead(t, t.touched) else t);
  }

  // Answers

  /** The accounts that the end of a transaction removes. */
  predicate Removed(rev: Revision, s: Ibs, a: Address) {
    a in s.selfDestructs || (rev.AtLeast(Spurious) && a in s.touched && Dead(s, a))
  }

  lemma DestructSetAnswers(s: Ibs, gone: set<Address>, a: Address, k: U256, original: bool)
    ensures CurrentAccount(DestructSet(s, gone), a) == if a in gone then None else CurrentAccount(s, a)
    ensures ReadSlot(DestructSet(s, gone), a, k, original) == if a in gone then 0 else ReadSlot(s, a, k, original)
  {
    var t := DestructSet(s, gone);
    if a !in gone {
      assert Obj(t, a) == Obj(s, a) && St(t, a) == St(s, a);
    }
  }

  lemma LookUpSetAnswers(s: Ibs, seen: set<Address>, a: Address, k: U256, original: bool)
    ensures CurrentAccount(LookUpSet(s, seen), a) == CurrentAccount(s, a)
    ensures ReadSlot(LookUpSet(s, seen), a, k, original) == ReadSlot(s, a, k, original)
  {
    assert Obj(LookUpSet(s, seen), a) == Obj(s, a);
  }

  lemma FinalizeAnswers(s: Ibs, a: Address, k: U256, original: bool)
    ensures CurrentAccount(Finalize(s), a) == CurrentAccount(s, a)
    ensures ReadSlot(Finalize(s), a, k, original) == ReadSlot(s, a, k, false)
  {
    FinalizeKeepsCurrent(s, a, k);
  }

  /** Empty is an account without nonce, balance and code. */
  lemma DeadIs(s: Ibs, a: Address)
    ensures Dead(s, a) <==> (CurrentAccount(s, a).Some? ==> CurrentAccount(s, a).value == Account(0, 0, EMPTY_HASH))
  {
  }

  /** Removed accounts are gone with their slots; all else answers in the next transaction as it did at the end of this one. */
  lemma EndAnswers(rev: Revision, s: Ibs, a: Address, k: U256, original: bool)
    ensures Removed(rev, s, a) <==>
      || a in s.selfDestructs
      || (rev !in {Frontier, Homestead, Tangerine} && a in s.touched && CurrentAccount(s, a) in {None, Some(Account(0, 0, EMPTY_HASH))})
    ensures var t := CloseTransaction(rev, s);
      && CurrentAccount(t, a) == (if Removed(rev, s, a) then None else CurrentAccount(s, a))
      && ReadSlot(t, a, k, original) == (if Removed(rev, s, a) then 0 else ReadSlot(s, a, k, false))
  {
    hide DestructSet, LookUpSet, Finalize, CurrentAccount, ReadSlot, Dead;
    var d := DestructSet(s, s.selfDestructs);
    assert d.touched == s.touched by {
      TouchedKept(s, s.selfDestructs);
    }
    DestructSetAnswers(s, s.selfDestructs, a, k, false);
    DeadIs(s, a);
    DeadIs(d, a);
    var dead := set b | b in d.touched && Dead(d, b);
    LookUpSetAnswers(d, d.touched, a, k, false);
    DestructSetAnswers(LookUpSet(d, d.touched), dead, a, k, false);
    AbsentReadsZero(s, a, k);
    FinalizeAnswers(if rev.AtLeast(Spurious) then RemoveDead(d, d.touched) else d, a, k, original);
  }

  lemma AbsentReadsZero(s: Ibs, a: Address, k: U256)
    ensures CurrentAccount(s, a) == None ==> ReadSlot(s, a, k, false) == 0
  {
  }

  lemma TouchedKept(s: Ibs, gone: set<Address>)
    ensures DestructSet(s, gone).touched == s.touched && DestructSet(s, gone).selfDestructs == s.selfDestructs
  {
  }

  lemma EndSelfDestructs(rev: Revision, s: Ibs)
    ensures CloseTransaction(rev, s).selfDestructs == s.selfDestructs
  {
  }

  // Money

  function Within(m: Purse, addresses: set<Address>): Purse {
    map a | a in m && a in addresses :: m[a]
  }

  /** What a set of accounts owns. */
  ghost function Held(s: Ibs, addresses: set<Address>): nat {
    Sum(Within(PurseOf(s), addresses))
  }

  function Outside(m: Purse, addresses: set<Address>): Purse {
    map a | a in m && a !in addresses :: m[a]
  }

  lemma {:induction false} SumSplit(m: Purse, addresses: set<Address>)
    ensures Sum(m) == Sum(Within(m, addresses)) + Sum(Outside(m, addresses))
    decreases |m|
  {
    if m == map[] {
      assert Within(m, addresses) == map[] && Outside(m, addresses) == map[];
    } else {
      var a :| a in m;
      var rest: Purse := m - {a};
      hide Within, Outside, Sum;
      SumOut(m, a);
      SumSplit(rest, addresses);
      SplitOne(m, a, addresses);
      if a in addresses {
        SumOut(Within(m, addresses), a);
      } else {
        SumOut(Outside(m, addresses), a);
      }
    }
  }

  lemma SplitOne(m: Purse, a: Address, addresses: set<Address>)
    requires a in m
    ensures var part := if a in addresses then Within(m, addresses) else Outside(m, addresses); a in part && part[a] == m[a]
    ensures a in addresses ==> Within(m, addresses) - {a} == Within(m - {a}, addresses) && Outside(m, addresses) == Outside(m - {a}, addresses)
    ensures a !in addresses ==> Outside(m, addresses) - {a} == Outside(m - {a}, addresses) && Within(m, addresses) == Within(m - {a}, addresses)
  {
  }

  lemma BalanceIs(s: Ibs, a: Address)
    ensures Balance(s, a) == if CurrentAccount(s, a).Some? then CurrentAccount(s, a).value.balance else 0
  {
  }

  /** Self-destructed accounts lose what they own, and nobody else loses anything. */
  lemma EndBalances(rev: Revision, s: Ibs)
    ensures forall a: Address :: Balance(CloseTransaction(rev, s), a) == if a in s.selfDestructs then 0 else Balance(s, a)
  {
    var zero: U256 := 0;
    hide CloseTransaction, Balance, ReadSlot, CurrentAccount;
    forall a: Address ensures Balance(CloseTransaction(rev, s), a) == if a in s.selfDestructs then 0 else Balance(s, a) {
      EndAnswers(rev, s, a, zero, false);
      BalanceIs(s, a);
      BalanceIs(CloseTransaction(rev, s), a);
      DeadIs(s, a);
    }
  }

  lemma EndSupply(rev: Revision, s: Ibs)
    ensures Supply(CloseTransaction(rev, s)) + Held(s, s.selfDestructs) == Supply(s)
  {
    hide CloseTransaction, Balance, PurseOf, Sum;
    EndBalances(rev, s);
    var left := Outside(PurseOf(s), s.selfDestructs);
    forall a: Address ensures Balance(CloseTransaction(rev, s), a) == Get(left, a) {
      PurseGet(s, a);
    }
    PurseSame(CloseTransaction(rev, s), left);
    SumSplit(PurseOf(s), s.selfDestructs);
  }

  lemma HeldNothing(s: Ibs)
    ensures Held(s, {}) == 0
  {
    assert Within(PurseOf(s), {}) == map[];
  }
}
