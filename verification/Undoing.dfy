/** Taking changes back restores every answer, although the caches filled by reads stay. */
module Undoing {
  import opened Basics
  import opened StateTypes
  import opened Journal

  /** A slot whose value before the block is known, or is zero. */
  ghost predicate Settled(s: Ibs, a: Address, k: U256) {
    k in St(s, a).committed || Base(s, a, k) == 0
  }

  /** No value of the slot, original or pending. */
  predicate ZeroAt(s: Ibs, a: Address, k: U256) {
    OriginalOf(s, a, k) == 0 && CurrentOf(s, a, k) == 0
  }

  ghost predicate SlotRefines(s: Ibs, t: Ibs, a: Address, k: U256) {
    && InitialOf(s, a, k) == InitialOf(t, a, k)
    && OriginalOf(s, a, k) == OriginalOf(t, a, k)
    && (Exists(t, a) ==> CurrentOf(s, a, k) == CurrentOf(t, a, k))
    && (ZeroAt(t, a, k) ==> CurrentOf(s, a, k) == 0)
    && (k in St(t, a).committed ==> k in St(s, a).committed)
    && (k in St(s, a).current ==> k in St(t, a).current || Settled(s, a, k))
  }

  ghost predicate AddressRefines(s: Ibs, t: Ibs, a: Address) {
    && Obj(s, a) == Obj(t, a)
    && (a in t.objects ==> a in s.objects)
    && forall k: U256 :: SlotRefines(s, t, a, k)
  }

  ghost predicate SubstateRefines(s: Ibs, t: Ibs) {
    && s.selfDestructs == t.selfDestructs
    && s.accessedAddresses == t.accessedAddresses
    && (forall a: Address :: Keys(s, a) == Keys(t, a))
    && s.touched - {RIPEMD_ADDRESS} == t.touched - {RIPEMD_ADDRESS}
  }

  /** `s` answers as `t` does, and has cached at least as much. Journal, logs and refund are not compared. */
  ghost predicate Refines(s: Ibs, t: Ibs) {
    && s.db == t.db
    && s.incarnations == t.incarnations
    && SubstateRefines(s, t)
    && forall a: Address :: AddressRefines(s, t, a)
  }

  lemma RefinesReflexive(s: Ibs)
    ensures Refines(s, s)
  {
  }

  lemma RefinesTransitive(s: Ibs, t: Ibs, u: Ibs)
    requires Refines(s, t) && Refines(t, u)
    ensures Refines(s, u)
  {
    forall a: Address ensures AddressRefines(s, u, a) {
      assert AddressRefines(s, t, a) && AddressRefines(t, u, a);
      forall k: U256 ensures SlotRefines(s, u, a, k) {
        assert SlotRefines(s, t, a, k) && SlotRefines(t, u, a, k);
      }
    }
    forall a: Address ensures Keys(s, a) == Keys(u, a) {
      assert Keys(s, a) == Keys(t, a);
    }
  }

  /** What taking back one change relies on. */
  ghost predicate Ok(d: Delta, s: Ibs) {
    match d
    case Create(a) => a in s.objects && s.objects[a].initial.None? && a !in s.db.accounts
    case Update(a, previous) =>
      a in s.objects && previous.initial == s.objects[a].initial && (previous.current.Some? ==> s.objects[a].current.Some?)
    case UpdateBalance(a, _) => a in s.objects && s.objects[a].current.Some?
    case Touch(a) => a != RIPEMD_ADDRESS
    case StorageChange(a, k, _) => Settled(s, a, k)
    case Incarnation(a) => false
    case StorageWipe(a, _) => a in s.incarnations && s.incarnations[a] > 0
    case StorageCreate(a) => a in s.incarnations && s.incarnations[a] > 0
    case _ => true
  }

  /** The storage of a new contract goes together with its incarnation. */
  predicate ClosesIncarnation(d: Delta) {
    d.StorageWipe? || d.StorageCreate?
  }

  /** Taking back `deltas` from `s` is defined at every step: no value that the code unwraps is missing. */
  ghost predicate Undoable(s: Ibs, deltas: seq<Delta>)
    decreases |deltas|
  {
    var n := |deltas|;
    n == 0 ||
    (var d := deltas[n - 1];
     && Ok(d, s)
     && if ClosesIncarnation(d) then
       n >= 2 && deltas[n - 2] == Incarnation(d.address) && Undoable(Revert(deltas[n - 2], Revert(d, s)), deltas[..n - 2])
     else
       Undoable(Revert(d, s), deltas[..n - 1]))
  }

  lemma SubstateKept(s: Ibs, t: Ibs, s': Ibs, t': Ibs)
    requires SubstateRefines(s, t)
    requires s'.selfDestructs == s.selfDestructs && t'.selfDestructs == t.selfDestructs
    requires s'.accessedAddresses == s.accessedAddresses && t'.accessedAddresses == t.accessedAddresses
    requires s'.accessedStorageKeys == s.accessedStorageKeys && t'.accessedStorageKeys == t.accessedStorageKeys
    requires s'.touched == s.touched && t'.touched == t.touched
    ensures SubstateRefines(s', t')
  {
    forall a: Address ensures Keys(s', a) == Keys(t', a) {
      assert Keys(s, a) == Keys(t, a);
    }
  }

  /** Nothing that answers about `a` depend on has changed. */
  ghost predicate SameAt(s: Ibs, s': Ibs, a: Address) {
    && s'.db == s.db
    && Obj(s', a) == Obj(s, a)
    && (a in s'.objects <==> a in s.objects)
    && St(s', a) == St(s, a)
    && (a in s'.incarnations <==> a in s.incarnations)
  }

  lemma SameAtRefines(s: Ibs, t: Ibs, s': Ibs, t': Ibs, a: Address)
    requires AddressRefines(s, t, a) && SameAt(s, s', a) && SameAt(t, t', a)
    ensures AddressRefines(s', t', a)
  {
    forall k: U256 ensures SlotRefines(s', t', a, k) {
      SameSlot(s, t, s', t', a, k);
    }
  }

  lemma SameSlot(s: Ibs, t: Ibs, s': Ibs, t': Ibs, a: Address, k: U256)
    requires SlotRefines(s, t, a, k) && SameAt(s, s', a) && SameAt(t, t', a)
    ensures SlotRefines(s', t', a, k)
  {
  }

  lemma ObjectDelta(d: Delta, s: Ibs, t: Ibs)
    requires Refines(s, t) && Ok(d, t) && (d.Create? || d.Update? || d.UpdateBalance?)
    ensures Ok(d, s) && Refines(Revert(d, s), Revert(d, t))
  {
    hide SlotRefines, SubstateRefines;
    var s', t' := Revert(d, s), Revert(d, t);
    SubstateKept(s, t, s', t');
    ObjectDeltaAt(d, s, t);
    forall a: Address | a != d.address ensures AddressRefines(s', t', a) {
      assert AddressRefines(s, t, a);
      SameAtRefines(s, t, s', t', a);
    }
  }

  lemma ObjectDeltaAt(d: Delta, s: Ibs, t: Ibs)
    requires AddressRefines(s, t, d.address) && s.db == t.db && s.incarnations == t.incarnations
    requires Ok(d, t) && (d.Create? || d.Update? || d.UpdateBalance?)
    ensures Ok(d, s) && AddressRefines(Revert(d, s), Revert(d, t), d.address)
  {
    forall k: U256 ensures SlotRefines(Revert(d, s), Revert(d, t), d.address, k) {
      ObjectDeltaSlot(d, s, t, k);
    }
  }

  lemma ObjectDeltaSlot(d: Delta, s: Ibs, t: Ibs, k: U256)
    requires SlotRefines(s, t, d.address, k) && s.db == t.db && s.incarnations == t.incarnations
    requires Obj(s, d.address) == Obj(t, d.address) && (d.address in t.objects ==> d.address in s.objects)
    requires Ok(d, t) && (d.Create? || d.Update? || d.UpdateBalance?)
    ensures SlotRefines(Revert(d, s), Revert(d, t), d.address, k)
  {
    var s', t', a := Revert(d, s), Revert(d, t), d.address;
    assert Base(s', a, k) == Base(s, a, k) && Base(t', a, k) == Base(t, a, k);
    assert Exists(t', a) ==> Exists(t, a);
  }

  lemma SubstateDelta(d: Delta, s: Ibs, t: Ibs)
    requires Refines(s, t) && Ok(d, t) && (d.Selfdestruct? || d.Touch? || d.StorageAccess? || d.AccountAccess?)
    ensures Ok(d, s) && Refines(Revert(d, s), Revert(d, t))
  {
    hide SlotRefines;
    var s', t' := Revert(d, s), Revert(d, t);
    SubstateDeltaOnly(d, s, t);
    forall a: Address ensures AddressRefines(s', t', a) {
      assert AddressRefines(s, t, a);
      SameAtRefines(s, t, s', t', a);
    }
  }

  lemma SubstateDeltaOnly(d: Delta, s: Ibs, t: Ibs)
    requires SubstateRefines(s, t) && (d.Selfdestruct? || d.Touch? || d.StorageAccess? || d.AccountAccess?)
    ensures SubstateRefines(Revert(d, s), Revert(d, t))
  {
    var s', t' := Revert(d, s), Revert(d, t);
    forall a: Address ensures Keys(s', a) == Keys(t', a) {
      assert Keys(s, a) == Keys(t, a);
    }
    if d.Touch? {
      assert s'.touched - {RIPEMD_ADDRESS} == (s.touched - {RIPEMD_ADDRESS}) - {d.address};
      assert t'.touched - {RIPEMD_ADDRESS} == (t.touched - {RIPEMD_ADDRESS}) - {d.address};
    }
  }

  lemma StorageDelta(d: Delta, s: Ibs, t: Ibs)
    requires Refines(s, t) && Ok(d, t) && d.StorageChange?
    ensures Ok(d, s) && Refines(Revert(d, s), Revert(d, t))
  {
    hide SlotRefines, SubstateRefines;
    var s', t' := Revert(d, s), Revert(d, t);
    SubstateKept(s, t, s', t');
    assert AddressRefines(s, t, d.address);
    forall k: U256 ensures SlotRefines(s', t', d.address, k) {
      StorageDeltaSlot(d, s, t, k);
    }
    StorageDeltaSlot(d, s, t, d.key);
    forall a: Address | a != d.address ensures AddressRefines(s', t', a) {
      assert AddressRefines(s, t, a);
      SameAtRefines(s, t, s', t', a);
    }
  }

  lemma StorageDeltaSlot(d: Delta, s: Ibs, t: Ibs, k: U256)
    requires SlotRefines(s, t, d.address, k) && s.db == t.db && s.incarnations == t.incarnations && Obj(s, d.address) == Obj(t, d.address)
    requires d.StorageChange?
    ensures SlotRefines(Revert(d, s), Revert(d, t), d.address, k)
    ensures Settled(t, d.address, k) ==> Settled(s, d.address, k)
  {
  }

  lemma IncarnationDelta(d: Delta, s: Ibs, t: Ibs)
    requires Refines(s, t) && Ok(d, t) && ClosesIncarnation(d)
    ensures Ok(d, s) && Refines(Revert(Incarnation(d.address), Revert(d, s)), Revert(Incarnation(d.address), Revert(d, t)))
  {
    hide SlotRefines, SubstateRefines;
    var s', t' := Revert(Incarnation(d.address), Revert(d, s)), Revert(Incarnation(d.address), Revert(d, t));
    SubstateKept(s, t, s', t');
    assert AddressRefines(s, t, d.address);
    forall k: U256 ensures SlotRefines(s', t', d.address, k) {
      IncarnationSlot(d, s, t, k);
    }
    forall a: Address | a != d.address ensures AddressRefines(s', t', a) {
      assert AddressRefines(s, t, a);
      SameAtRefines(s, t, s', t', a);
    }
  }

  lemma IncarnationSlot(d: Delta, s: Ibs, t: Ibs, k: U256)
    requires s.db == t.db && s.incarnations == t.incarnations && Obj(s, d.address) == Obj(t, d.address) && ClosesIncarnation(d)
    ensures SlotRefines(Revert(Incarnation(d.address), Revert(d, s)), Revert(Incarnation(d.address), Revert(d, t)), d.address, k)
  {
    SameDecrement(d.address, s, t);
    hide *;
    Closed(d, s);
    Closed(d, t);
    EqualSlot(Revert(Incarnation(d.address), Revert(d, s)), Revert(Incarnation(d.address), Revert(d, t)), d.address, k);
  }

  lemma SameDecrement(a: Address, s: Ibs, t: Ibs)
    requires s.incarnations == t.incarnations
    ensures Revert(Incarnation(a), s).incarnations == Revert(Incarnation(a), t).incarnations
  {
  }

  /** What taking back the creation of a contract leaves of its address. */
  lemma Closed(d: Delta, s: Ibs)
    requires ClosesIncarnation(d)
    ensures var t := Revert(Incarnation(d.address), Revert(d, s));
      && t.db == s.db && Obj(t, d.address) == Obj(s, d.address)
      && St(t, d.address) == (if d.StorageWipe? then d.storage else EMPTY_STORAGE)
      && t.incarnations == Revert(Incarnation(d.address), s).incarnations
  {
  }

  lemma EqualSlot(s: Ibs, t: Ibs, a: Address, k: U256)
    requires s.db == t.db && Obj(s, a) == Obj(t, a) && St(s, a) == St(t, a) && s.incarnations == t.incarnations
    ensures SlotRefines(s, t, a, k)
  {
  }

  /** A state that answers as another one does can be taken back as far, and keeps answering like it. */
  lemma {:induction false} UndoRefines(s: Ibs, t: Ibs, deltas: seq<Delta>)
    requires Refines(s, t) && Undoable(t, deltas)
    ensures Undoable(s, deltas) && Refines(Undo(s, deltas), Undo(t, deltas))
    decreases |deltas|
  {
    hide Refines, Ok, Revert;
    if deltas != [] {
      var n := |deltas|;
      var d := deltas[n - 1];
      if ClosesIncarnation(d) {
        IncarnationDelta(d, s, t);
        UndoTwo(s, deltas);
        UndoTwo(t, deltas);
        UndoRefines(Revert(deltas[n - 2], Revert(d, s)), Revert(deltas[n - 2], Revert(d, t)), deltas[..n - 2]);
      } else {
        OneDelta(d, s, t);
        UndoRefines(Revert(d, s), Revert(d, t), deltas[..n - 1]);
      }
    }
  }

  lemma OneDelta(d: Delta, s: Ibs, t: Ibs)
    requires Refines(s, t) && Ok(d, t) && !ClosesIncarnation(d)
    ensures Ok(d, s) && Refines(Revert(d, s), Revert(d, t))
  {
    hide Refines, Revert;
    match d {
      case Create(_) => ObjectDelta(d, s, t);
      case Update(_, _) => ObjectDelta(d, s, t);
      case UpdateBalance(_, _) => ObjectDelta(d, s, t);
      case StorageChange(_, _, _) => StorageDelta(d, s, t);
      case Incarnation(_) =>
      case _ => SubstateDelta(d, s, t);
    }
  }

  lemma UndoTwo(s: Ibs, deltas: seq<Delta>)
    requires |deltas| >= 2
    ensures var n := |deltas|;
      Undo(s, deltas) == Undo(Revert(deltas[n - 2], Revert(deltas[n - 1], s)), deltas[..n - 2])
  {
    var n := |deltas|;
    assert deltas[..n - 1][..n - 2] == deltas[..n - 2];
  }

  // Steps

  /** Going from `s` to `s'` has recorded how to get back to what `s` answers. */
  ghost predicate Step(s: Ibs, s': Ibs) {
    && s'.db == s.db
    && s.journal <= s'.journal
    && s.logs <= s'.logs
    && Undoable(s', s'.journal[|s.journal|..])
    && Refines(Undo(s', s'.journal[|s.journal|..]), s)
  }

  lemma {:induction false} UndoConcat(s: Ibs, first: seq<Delta>, last: seq<Delta>)
    ensures Undo(s, first + last) == Undo(Undo(s, last), first)
    ensures Undoable(s, last) && Undoable(Undo(s, last), first) ==> Undoable(s, first + last)
    decreases |last|
  {
    hide Ok, Revert;
    var all := first + last;
    if last == [] {
      assert all == first;
    } else {
      var n := |last|;
      assert all[..|all| - 1] == first + last[..n - 1];
      UndoConcat(Revert(last[n - 1], s), first, last[..n - 1]);
      if n >= 2 {
        assert all[..|all| - 2] == first + last[..n - 2];
        UndoTwo(s, last);
        UndoConcat(Revert(last[n - 2], Revert(last[n - 1], s)), first, last[..n - 2]);
      }
    }
  }

  lemma StepsCompose(s: Ibs, s1: Ibs, s2: Ibs)
    requires Step(s, s1) && Step(s1, s2)
    ensures Step(s, s2)
  {
    hide Refines, Undoable, Undo;
    var j1, j2 := s1.journal[|s.journal|..], s2.journal[|s1.journal|..];
    assert s2.journal[|s.journal|..] == j1 + j2;
    UndoRefines(Undo(s2, j2), s1, j1);
    UndoConcat(s2, j1, j2);
    RefinesTransitive(Undo(Undo(s2, j2), j1), Undo(s1, j1), s);
  }

  lemma RefinesIgnores(s: Ibs, journal: seq<Delta>, logs: seq<Log>, refund: nat)
    ensures Refines(s.(journal := journal, logs := logs, refund := refund), s)
    ensures Refines(s, s.(journal := journal, logs := logs, refund := refund))
  {
  }

  /** A step that records nothing. */
  lemma QuietStep(s: Ibs, s': Ibs)
    requires s'.journal == s.journal && s.logs <= s'.logs && Refines(s', s)
    ensures Step(s, s')
  {
    hide Refines;
    RefinesDb(s', s);
    assert s'.journal[|s.journal|..] == [];
  }

  lemma RefinesDb(s: Ibs, t: Ibs)
    requires Refines(s, t)
    ensures s.db == t.db && s.incarnations == t.incarnations
  {
  }

  /** A step that records one change, which takes it back exactly. */
  lemma ExactStep(s: Ibs, s': Ibs, d: Delta)
    requires s'.journal == s.journal + [d] && s'.logs == s.logs && Ok(d, s') && !ClosesIncarnation(d) && !d.Incarnation?
    requires Revert(d, s').(journal := s.journal, refund := s.refund) == s
    ensures Step(s, s')
  {
    hide Refines, Revert, Ok;
    RevertKeepsLists(d, s');
    UndoOne(s', d);
    var t := Revert(d, s');
    assert t == s.(journal := t.journal, logs := t.logs, refund := t.refund);
    RefinesIgnores(s, t.journal, t.logs, t.refund);
    StepFrom(s, s', [d]);
  }

  lemma UndoOne(s: Ibs, d: Delta)
    requires Ok(d, s) && !ClosesIncarnation(d)
    ensures Undoable(s, [d]) && Undo(s, [d]) == Revert(d, s)
  {
    hide Revert, Ok;
    assert [d][..0] == [];
    assert Undo(Revert(d, s), []) == Revert(d, s);
  }

  lemma RevertKeepsLists(d: Delta, s: Ibs)
    ensures var t := Revert(d, s); t.journal == s.journal && t.logs == s.logs && t.refund == s.refund && t.db == s.db
  {
  }

  // Operations

  lemma GetObjectStep(s: Ibs, a: Address)
    ensures var (s', o) := GetObject(s, a); Step(s, s') && Refines(s', s) && o == Obj(s, a) && s'.incarnations == s.incarnations
    ensures var (s', o) := GetObject(s, a); o.Some? ==> a in s'.objects && s'.objects[a] == o.value
    ensures var (s', o) := GetObject(s, a); o.None? ==> s' == s && a !in s.objects && a !in s.db.accounts
  {
    var (s', o) := GetObject(s, a);
    SubstateKept(s, s, s', s);
    forall b: Address ensures AddressRefines(s', s, b) {
      assert Obj(s', b) == Obj(s, b);
      forall k: U256 ensures SlotRefines(s', s, b, k) {
        EqualSlot(s', s, b, k);
      }
    }
    QuietStep(s, s');
  }

  lemma EnsureObjectStep(s: Ibs, a: Address)
    ensures var s' := EnsureObject(s, a);
      Step(s, s') && a in s'.objects && s'.objects[a].current.Some? && s'.incarnations == s.incarnations
    ensures Live(EnsureObject(s, a), a) == if Exists(s, a) then Obj(s, a).value.current.value else EMPTY_ACCOUNT
  {
    hide Refines, Step;
    var s' := EnsureObject(s, a);
    GetObjectStep(s, a);
    var (s1, o) := GetObject(s, a);
    if o.None? {
      assert s'.objects - {a} == s1.objects;
      ExactStep(s1, s', Create(a));
      StepsCompose(s, s1, s');
    } else if o.value.current.None? {
      assert s'.objects[a := o.value] == s1.objects;
      ExactStep(s1, s', Update(a, o.value));
      StepsCompose(s, s1, s');
    }
  }

  lemma SetLiveBack(s: Ibs, a: Address, acc: Account)
    requires a in s.objects
    ensures SetLive(s, a, acc).objects[a := s.objects[a]] == s.objects
  {
  }

  lemma WriteBalanceStep(s: Ibs, a: Address, value: U256)
    ensures Step(s, WriteBalance(s, a, value)) && WriteBalance(s, a, value).incarnations == s.incarnations
  {
    hide Refines, Step;
    EnsureObjectStep(s, a);
    var s1 := EnsureObject(s, a);
    var acc := Live(s1, a);
    var s2 := SetLive(s1, a, acc.(balance := value)).(journal := s1.journal + [UpdateBalance(a, acc.balance)]);
    SetLiveBack(s1, a, acc.(balance := value));
    assert s2.objects[a].(current := Some(acc)) == s1.objects[a];
    ExactStep(s1, s2, UpdateBalance(a, acc.balance));
    TouchStep(s2, a);
    StepsCompose(s, s1, s2);
    StepsCompose(s, s2, WriteBalance(s, a, value));
  }

  lemma TouchStep(s: Ibs, a: Address)
    ensures Step(s, TouchAddress(s, a)) && TouchAddress(s, a).incarnations == s.incarnations
  {
    hide Step;
    var s' := TouchAddress(s, a);
    if a == RIPEMD_ADDRESS || a in s.touched {
      assert s'.touched - {RIPEMD_ADDRESS} == s.touched - {RIPEMD_ADDRESS};
      SubstateTouched(s, s');
      QuietStep(s, s');
    } else {
      assert s'.touched - {a} == s.touched;
      ExactStep(s, s', Touch(a));
    }
  }

  lemma SubstateTouched(s: Ibs, s': Ibs)
    requires s' == s.(touched := s'.touched) && s'.touched - {RIPEMD_ADDRESS} == s.touched - {RIPEMD_ADDRESS}
    ensures Refines(s', s)
  {
    forall b: Address ensures AddressRefines(s', s, b) {
      forall k: U256 ensures SlotRefines(s', s, b, k) {
        EqualSlot(s', s, b, k);
      }
    }
  }

  lemma WriteAccountStep(s: Ibs, a: Address, acc: Account)
    ensures Step(s, WriteAccount(s, a, acc)) && WriteAccount(s, a, acc).incarnations == s.incarnations
  {
    hide Refines, Step;
    EnsureObjectStep(s, a);
    var s1 := EnsureObject(s, a);
    SetLiveBack(s1, a, acc);
    ExactStep(s1, WriteAccount(s, a, acc), Update(a, s1.objects[a]));
    StepsCompose(s, s1, WriteAccount(s, a, acc));
  }

  /** Every recorded incarnation counts. */
  ghost predicate Positive(s: Ibs) {
    forall a :: a in s.incarnations ==> s.incarnations[a] > 0
  }

  lemma CreateContractStep(s: Ibs, a: Address)
    requires Positive(s)
    ensures Step(s, CreateContract(s, a)) && Positive(CreateContract(s, a))
  {
    hide Refines, Step;
    GetObjectStep(s, a);
    var s1 := GetObject(s, a).0;
    CreateContractFrom(s1, a);
    assert CreateContract(s, a) == CreateContract(s1, a);
    StepsCompose(s, s1, CreateContract(s, a));
  }

  lemma CreateContractFrom(s: Ibs, a: Address)
    requires Positive(s) && GetObject(s, a).0 == s
    ensures Step(s, CreateContract(s, a))
  {
    var s' := CreateContract(s, a);
    var j := s'.journal[|s.journal|..];
    var first, last := j[0], j[2];
    assert j == [first, Incarnation(a), last];
    CreateContractBack(s, a, first, last);
    hide *;
    var t := Revert(Incarnation(a), Revert(last, s'));
    UndoThree(s', first, a, last);
    var u := Revert(first, t);
    RefinesIgnores(s, u.journal, s.logs, s.refund);
    StepFrom(s, s', j);
  }

  lemma StepFrom(s: Ibs, s': Ibs, j: seq<Delta>)
    requires s'.db == s.db && s'.journal == s.journal + j && s.logs == s'.logs && Undoable(s', j) && Refines(Undo(s', j), s)
    ensures Step(s, s')
  {
    hide Refines, Undoable, Undo;
    assert s'.journal[|s.journal|..] == j;
  }

  lemma CreateContractBack(s: Ibs, a: Address, first: Delta, last: Delta)
    requires Positive(s) && GetObject(s, a).0 == s
    requires CreateContract(s, a).journal == s.journal + [first, Incarnation(a), last]
    ensures CreateContract(s, a).db == s.db && CreateContract(s, a).logs == s.logs
    ensures ClosesIncarnation(last) && last.address == a && !ClosesIncarnation(first) && Ok(last, CreateContract(s, a))
    ensures var t := Revert(Incarnation(a), Revert(last, CreateContract(s, a)));
      Ok(first, t) && Revert(first, t) == s.(journal := Revert(first, t).journal, logs := s.logs, refund := s.refund)
  {
    var s' := CreateContract(s, a);
    var before := s.journal + [first, Incarnation(a), last];
    assert before[|s.journal|] == first && before[|s.journal| + 2] == last;
    var t := Revert(Incarnation(a), Revert(last, s'));
    assert t.incarnations == s.incarnations;
    assert t.storage == s.storage;
    var u := Revert(first, t);
    assert u.objects == s.objects;
  }

  lemma UndoThree(s: Ibs, first: Delta, a: Address, last: Delta)
    requires ClosesIncarnation(last) && last.address == a && !ClosesIncarnation(first) && Ok(last, s)
    requires Ok(first, Revert(Incarnation(a), Revert(last, s)))
    ensures Undoable(s, [first, Incarnation(a), last])
    ensures Undo(s, [first, Incarnation(a), last]) == Revert(first, Revert(Incarnation(a), Revert(last, s)))
  {
    hide Ok, Revert;
    var j := [first, Incarnation(a), last];
    assert j[..1] == [first] && [first][..0] == [];
    UndoTwo(s, j);
    var t := Revert(Incarnation(a), Revert(last, s));
    assert Undoable(t, [first]);
    assert Undo(t, [first]) == Undo(Revert(first, t), []);
  }

  lemma RecordSelfdestructStep(s: Ibs, a: Address)
    ensures Step(s, RecordSelfdestruct(s, a))
  {
    hide Step;
    var s' := RecordSelfdestruct(s, a);
    if a in s.selfDestructs {
      RefinesReflexive(s);
      QuietStep(s, s);
    } else {
      assert s'.selfDestructs - {a} == s.selfDestructs;
      ExactStep(s, s', Selfdestruct(a));
    }
  }

  lemma AccessAccountStep(s: Ibs, a: Address)
    ensures Step(s, AccessAccount(s, a))
  {
    hide Step;
    var s' := AccessAccount(s, a);
    if a in s.accessedAddresses {
      RefinesReflexive(s);
      QuietStep(s, s);
    } else {
      assert s'.accessedAddresses - {a} == s.accessedAddresses;
      ExactStep(s, s', AccountAccess(a));
    }
  }

  lemma AccessStorageStep(s: Ibs, a: Address, k: U256)
    ensures Step(s, AccessStorage(s, a, k))
  {
    hide Step;
    var s' := AccessStorage(s, a, k);
    if k in Keys(s, a) {
      RefinesReflexive(s);
      QuietStep(s, s);
    } else {
      var d := StorageAccess(a, k);
      UndoOne(s', d);
      var t := Revert(d, s');
      forall b: Address ensures Keys(t, b) == Keys(s, b) {
        assert b == a ==> Keys(t, b) == (Keys(s, a) + {k}) - {k};
      }
      forall b: Address ensures AddressRefines(t, s, b) {
        forall x: U256 ensures SlotRefines(t, s, b, x) {
          EqualSlot(t, s, b, x);
        }
      }
      StepFrom(s, s', [d]);
    }
  }

  /** Reading a slot gives what the views say and changes no answer. */
  lemma GetStorageStep(s: Ibs, a: Address, k: U256, original: bool)
    ensures var (s', v) := GetStorage(s, a, k, original);
      Step(s, s') && Refines(s', s) && v == ReadSlot(s, a, k, original) && s'.incarnations == s.incarnations
    ensures Exists(s, a) ==> Settled(GetStorage(s, a, k, original).0, a, k) || (!original && k in St(s, a).current)
    ensures GetStorage(s, a, k, original).0.journal == s.journal && GetStorage(s, a, k, original).0.logs == s.logs
    ensures GetStorage(s, a, k, original).0.refund == s.refund
  {
    hide Step, Refines;
    GetObjectStep(s, a);
    var s1 := GetObject(s, a).0;
    GetStorageFrom(s1, a, k, original);
    assert GetStorage(s, a, k, original) == GetStorage(s1, a, k, original);
    var s' := GetStorage(s, a, k, original).0;
    RefinesTransitive(s', s1, s);
    StepsCompose(s, s1, s');
    SlotsSame(s, s1, a, k);
  }

  lemma SlotsSame(s: Ibs, s1: Ibs, a: Address, k: U256)
    requires s1 == GetObject(s, a).0
    ensures ReadSlot(s1, a, k, true) == ReadSlot(s, a, k, true) && ReadSlot(s1, a, k, false) == ReadSlot(s, a, k, false)
    ensures Exists(s1, a) == Exists(s, a) && St(s1, a) == St(s, a)
  {
  }

  lemma GetStorageFrom(s: Ibs, a: Address, k: U256, original: bool)
    requires GetObject(s, a).0 == s
    ensures var (s', v) := GetStorage(s, a, k, original);
      Step(s, s') && Refines(s', s) && v == ReadSlot(s, a, k, original) && s'.incarnations == s.incarnations
    ensures Exists(s, a) ==> Settled(GetStorage(s, a, k, original).0, a, k) || (!original && k in St(s, a).current)
  {
    hide Step, SlotRefines, SubstateRefines;
    var (s', v) := GetStorage(s, a, k, original);
    SubstateKept(s, s, s', s) by {
      SubstateReflexive(s);
    }
    forall b: Address ensures AddressRefines(s', s, b) {
      if b == a {
        forall x: U256 ensures SlotRefines(s', s, a, x) {
          CachedSlot(s, a, k, original, x);
        }
      } else {
        forall x: U256 ensures SlotRefines(s', s, b, x) {
          EqualSlot(s', s, b, x);
        }
      }
    }
    QuietStep(s, s');
  }

  lemma SubstateReflexive(s: Ibs)
    ensures SubstateRefines(s, s)
  {
  }

  lemma CachedSlot(s: Ibs, a: Address, k: U256, original: bool, x: U256)
    requires GetObject(s, a).0 == s
    ensures SlotRefines(GetStorage(s, a, k, original).0, s, a, x)
  {
  }

  /** Every slot with a pending write is settled, and so is every slot where there is no account. */
  ghost predicate AllSettled(s: Ibs) {
    && (forall a: Address, k: U256 :: k in St(s, a).current ==> Settled(s, a, k))
    && (forall a: Address, k: U256 :: !Exists(s, a) ==> Base(s, a, k) == 0)
  }

  lemma SetStorageStep(s: Ibs, a: Address, k: U256, value: U256)
    requires AllSettled(s)
    ensures Step(s, SetStorage(s, a, k, value)) && SetStorage(s, a, k, value).incarnations == s.incarnations
  {
    hide Step, Refines;
    GetStorageStep(s, a, k, false);
    var (s1, previous) := GetStorage(s, a, k, false);
    if previous != value {
      SettledAfterRead(s, a, k);
      ChangeStep(s1, a, k, previous, value);
      StepsCompose(s, s1, SetStorage(s, a, k, value));
    }
  }

  lemma SettledAfterRead(s: Ibs, a: Address, k: U256)
    requires AllSettled(s)
    ensures var (s', v) := GetStorage(s, a, k, false);
      Settled(s', a, k) && v == ReadSlot(s', a, k, false)
  {
    hide Step;
    GetStorageStep(s, a, k, false);
    var s' := GetStorage(s, a, k, false).0;
    assert AddressRefines(s', s, a);
    assert SlotRefines(s', s, a, k);
  }

  lemma ChangeStep(s: Ibs, a: Address, k: U256, previous: U256, value: U256)
    requires Settled(s, a, k) && previous == ReadSlot(s, a, k, false)
    ensures Step(s, s.(storage := s.storage[a := St(s, a).(current := St(s, a).current[k := value])],
                       journal := s.journal + [StorageChange(a, k, previous)]))
  {
    hide Step, SlotRefines, SubstateRefines;
    var d := StorageChange(a, k, previous);
    var s' := s.(storage := s.storage[a := St(s, a).(current := St(s, a).current[k := value])], journal := s.journal + [d]);
    UndoOne(s', d);
    var t := Revert(d, s');
    SubstateReflexive(s);
    SubstateKept(s, s, t, s);
    forall b: Address ensures AddressRefines(t, s, b) {
      if b == a {
        forall x: U256 ensures SlotRefines(t, s, a, x) {
          ChangedSlot(s, a, k, previous, t, x);
        }
      } else {
        forall x: U256 ensures SlotRefines(t, s, b, x) {
          EqualSlot(t, s, b, x);
        }
      }
    }
    StepFrom(s, s', [d]);
  }

  lemma ChangedSlot(s: Ibs, a: Address, k: U256, previous: U256, t: Ibs, x: U256)
    requires Settled(s, a, k) && previous == ReadSlot(s, a, k, false)
    requires t.db == s.db && t.objects == s.objects && t.incarnations == s.incarnations
    requires St(t, a) == St(s, a).(current := St(s, a).current[k := previous])
    ensures SlotRefines(t, s, a, x)
  {
  }
}
