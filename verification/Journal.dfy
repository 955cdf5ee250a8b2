/**
 The journaled state of a block, on values: a write cache over a backing state, the list of changes
 that can be taken back, and the substate of a transaction.
 */
module Journal {
  import opened Basics
  import opened StateTypes

  datatype Object = Object(initial: Option<Account>, current: Option<Account>)

  datatype Committed = Committed(initial: U256, original: U256)

  datatype Storage = Storage(committed: map<U256, Committed>, current: map<U256, U256>)

  const EMPTY_STORAGE := Storage(map[], map[])

  datatype Delta =
    | Create(address: Address)
    | Update(address: Address, previous: Object)
    | UpdateBalance(address: Address, previousBalance: U256)
    | Incarnation(address: Address)
    | Selfdestruct(address: Address)
    | Touch(address: Address)
    | StorageChange(address: Address, key: U256, previousValue: U256)
    | StorageWipe(address: Address, storage: Storage)
    | StorageCreate(address: Address)
    | StorageAccess(address: Address, key: U256)
    | AccountAccess(address: Address)

  /** Touching this account is never taken back: Appendix K of the Yellow Paper. */
  const RIPEMD_ADDRESS: Address := 3

  type Log = nat

  datatype Ibs = Ibs(
    db: Db,
    objects: map<Address, Object>,
    storage: map<Address, Storage>,
    incarnations: map<Address, nat>,
    journal: seq<Delta>,
    selfDestructs: set<Address>,
    logs: seq<Log>,
    touched: set<Address>,
    refund: nat,
    accessedAddresses: set<Address>,
    accessedStorageKeys: map<Address, set<U256>>)

  // Operations

  /** Looks an object up, caching the one of the backing state. */
  function GetObject(s: Ibs, a: Address): (r: (Ibs, Option<Object>)) {
    if a in s.objects then (s, Some(s.objects[a]))
    else match s.db.ReadAccount(a)
      case Some(acc) =>
        var o := Object(Some(acc), Some(acc));
        (s.(objects := s.objects[a := o]), Some(o))
      case None => (s, None)
  }

  function EnsureObject(s: Ibs, a: Address): Ibs {
    var (s1, obj) := GetObject(s, a);
    match obj
    case Some(o) =>
      if o.current.None? then
        s1.(journal := s1.journal + [Update(a, o)], objects := s1.objects[a := o.(current := Some(EMPTY_ACCOUNT))])
      else s1
    case None =>
      s1.(journal := s1.journal + [Create(a)], objects := s1.objects[a := Object(None, Some(EMPTY_ACCOUNT))])
  }

  /** The account that an object certainly has after `EnsureObject`. */
  function Live(s: Ibs, a: Address): Account {
    if a in s.objects && s.objects[a].current.Some? then s.objects[a].current.value else EMPTY_ACCOUNT
  }

  function SetLive(s: Ibs, a: Address, acc: Account): Ibs {
    var initial := if a in s.objects then s.objects[a].initial else None;
    s.(objects := s.objects[a := Object(initial, Some(acc))])
  }

  function TouchAddress(s: Ibs, a: Address): Ibs {
    if a in s.touched then s
    else
      s.(touched := s.touched + {a},
         journal := if a != RIPEMD_ADDRESS then s.journal + [Touch(a)] else s.journal)
  }

  function WriteBalance(s: Ibs, a: Address, value: U256): Ibs {
    var s1 := EnsureObject(s, a);
    var acc := Live(s1, a);
    TouchAddress(SetLive(s1, a, acc.(balance := value)).(journal := s1.journal + [UpdateBalance(a, acc.balance)]), a)
  }

  function Balance(s: Ibs, a: Address): U256 {
    if Obj(s, a).Some? && Obj(s, a).value.current.Some? then Obj(s, a).value.current.value.balance else 0
  }

  /** Replaces the account after recording the whole object. */
  function WriteAccount(s: Ibs, a: Address, acc: Account): Ibs {
    var s1 := EnsureObject(s, a);
    SetLive(s1, a, acc).(journal := s1.journal + [Update(a, if a in s1.objects then s1.objects[a] else Object(None, None))])
  }

  function SetNonce(s: Ibs, a: Address, nonce: nat): Ibs {
    WriteAccount(s, a, Live(EnsureObject(s, a), a).(nonce := nonce))
  }

  function SetCode(s: Ibs, a: Address, hash: CodeHash): Ibs {
    WriteAccount(s, a, Live(EnsureObject(s, a), a).(codeHash := hash))
  }

  /** A fresh account at an address, keeping only its balance; all its storage is wiped. */
  function CreateContract(s: Ibs, a: Address): Ibs {
    var (s1, prev) := GetObject(s, a);
    var balance := if prev.Some? && prev.value.current.Some? then prev.value.current.value.balance else 0;
    var initial := if prev.Some? then prev.value.initial else None;
    var first := if prev.Some? then Update(a, prev.value) else Create(a);
    var last := if a in s1.storage then StorageWipe(a, s1.storage[a]) else StorageCreate(a);
    s1.(journal := s1.journal + [first] + [Incarnation(a), last],
        incarnations := s1.incarnations[a := (if a in s1.incarnations then s1.incarnations[a] else 0) + 1],
        objects := s1.objects[a := Object(initial, Some(EMPTY_ACCOUNT.(balance := balance)))],
        storage := s1.storage - {a})
  }

  function RecordSelfdestruct(s: Ibs, a: Address): Ibs {
    if a in s.selfDestructs then s
    else s.(selfDestructs := s.selfDestructs + {a}, journal := s.journal + [Selfdestruct(a)])
  }

  function AccessAccount(s: Ibs, a: Address): Ibs {
    if a in s.accessedAddresses then s
    else s.(accessedAddresses := s.accessedAddresses + {a}, journal := s.journal + [AccountAccess(a)])
  }

  function Keys(s: Ibs, a: Address): set<U256> {
    if a in s.accessedStorageKeys then s.accessedStorageKeys[a] else {}
  }

  function AccessStorage(s: Ibs, a: Address, k: U256): Ibs {
    if k in Keys(s, a) then s
    else s.(accessedStorageKeys := s.accessedStorageKeys[a := Keys(s, a) + {k}], journal := s.journal + [StorageAccess(a, k)])
  }

  /** Reads a slot, caching what comes from the backing state. */
  function GetStorage(s: Ibs, a: Address, k: U256, original: bool): (r: (Ibs, U256)) {
    var (s1, obj) := GetObject(s, a);
    if obj.None? || obj.value.current.None? then (s1, 0)
    else
      var st := St(s1, a);
      var s2 := s1.(storage := s1.storage[a := st]);
      if !original && k in st.current then (s2, st.current[k])
      else if k in st.committed then (s2, st.committed[k].original)
      else if obj.value.initial.None? || a in s2.incarnations then (s2, 0)
      else
        var val := s2.db.ReadStorage(a, k);
        (s2.(storage := s2.storage[a := st.(committed := st.committed[k := Committed(val, val)])]), val)
  }

  function SetStorage(s: Ibs, a: Address, k: U256, value: U256): Ibs {
    var (s1, previous) := GetStorage(s, a, k, false);
    if previous == value then s1
    else
      var st := St(s1, a);
      s1.(storage := s1.storage[a := st.(current := st.current[k := value])],
          journal := s1.journal + [StorageChange(a, k, previous)])
  }

  // Taking changes back

  function Revert(d: Delta, s: Ibs): Ibs {
    match d
    case Create(a) => s.(objects := s.objects - {a})
    case Update(a, previous) => s.(objects := s.objects[a := previous])
    case UpdateBalance(a, previous) =>
      if a in s.objects && s.objects[a].current.Some? then
        s.(objects := s.objects[a := s.objects[a].(current := Some(s.objects[a].current.value.(balance := previous)))])
      else s
    case Incarnation(a) =>
      if a in s.incarnations && s.incarnations[a] > 0 then
        s.(incarnations := if s.incarnations[a] == 1 then s.incarnations - {a} else s.incarnations[a := s.incarnations[a] - 1])
      else s
    case Selfdestruct(a) => s.(selfDestructs := s.selfDestructs - {a})
    case Touch(a) => s.(touched := s.touched - {a})
    case StorageChange(a, k, previous) =>
      s.(storage := s.storage[a := St(s, a).(current := St(s, a).current[k := previous])])
    case StorageWipe(a, storage) => s.(storage := s.storage[a := storage])
    case StorageCreate(a) => s.(storage := s.storage - {a})
    case StorageAccess(a, k) => s.(accessedStorageKeys := s.accessedStorageKeys[a := Keys(s, a) - {k}])
    case AccountAccess(a) => s.(accessedAddresses := s.accessedAddresses - {a})
  }

  /** Takes back a list of changes, the last one first. */
  function Undo(s: Ibs, deltas: seq<Delta>): Ibs
    decreases |deltas|
  {
    if deltas == [] then s else Undo(Revert(deltas[|deltas| - 1], s), deltas[..|deltas| - 1])
  }

  datatype Snapshot = Snapshot(journalSize: nat, logSize: nat, refund: nat)

  function TakeSnapshot(s: Ibs): Snapshot {
    Snapshot(|s.journal|, |s.logs|, s.refund)
  }

  function RevertToSnapshot(s: Ibs, snapshot: Snapshot): Ibs {
    if snapshot.journalSize <= |s.journal| && snapshot.logSize <= |s.logs| then
      Undo(s, s.journal[snapshot.journalSize..]).(
        journal := s.journal[..snapshot.journalSize], logs := s.logs[..snapshot.logSize], refund := snapshot.refund)
    else s
  }

  // Views

  /** The object at an address, cached or not. */
  function Obj(s: Ibs, a: Address): Option<Object> {
    if a in s.objects then Some(s.objects[a])
    else match s.db.ReadAccount(a)
      case Some(acc) => Some(Object(Some(acc), Some(acc)))
      case None => None
  }

  predicate Exists(s: Ibs, a: Address) {
    Obj(s, a).Some? && Obj(s, a).value.current.Some?
  }

  function St(s: Ibs, a: Address): Storage {
    if a in s.storage then s.storage[a] else EMPTY_STORAGE
  }

  /** The value of a slot before any write of this block that counts for it. */
  function Base(s: Ibs, a: Address, k: U256): U256 {
    var o := Obj(s, a);
    if o.None? || o.value.initial.None? || a in s.incarnations then 0 else s.db.ReadStorage(a, k)
  }

  function InitialOf(s: Ibs, a: Address, k: U256): U256 {
    if k in St(s, a).committed then St(s, a).committed[k].initial else Base(s, a, k)
  }

  function OriginalOf(s: Ibs, a: Address, k: U256): U256 {
    if k in St(s, a).committed then St(s, a).committed[k].original else Base(s, a, k)
  }

  function CurrentOf(s: Ibs, a: Address, k: U256): U256 {
    if k in St(s, a).current then St(s, a).current[k] else OriginalOf(s, a, k)
  }

  /** Answer of a storage read: nothing is stored where there is no account. */
  function ReadSlot(s: Ibs, a: Address, k: U256, original: bool): U256 {
    if !Exists(s, a) then 0 else if original then OriginalOf(s, a, k) else CurrentOf(s, a, k)
  }
}
