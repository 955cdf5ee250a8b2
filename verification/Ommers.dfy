/** Which headers a block may name as ommers, and what they are paid: section 11.1 of the Yellow Paper. */
module Ommers {
  import opened Basics
  import opened StateTypes

  datatype Header = Header(number: nat, parentHash: Hash, ommersHash: Hash, transactionsRoot: Hash, beneficiary: Address,
    baseFee: Option<nat>, rest: nat)

  datatype Transaction = Transaction(chainId: Option<nat>, maxFee: nat, maxPriorityFee: nat, rest: nat)

  datatype Block = Block(header: Header, ommers: seq<Header>, transactions: seq<Transaction>)

  /** The stored headers and the ommers of the stored bodies, by number and hash. */
  datatype Store = Store(headers: map<(nat, Hash), Header>, bodies: map<(nat, Hash), seq<Header>>)

  /** Hashes of headers and of lists of ommers, roots of transactions, the checks of a header against its parent, and the chain. */
  datatype Rules = Rules(hash: Header -> Hash, ommersHash: seq<Header> -> Hash, transactionsRoot: seq<Transaction> -> Hash,
    validHeader: (Header, Header) -> bool, chainId: nat)

  ghost predicate NoCollisions(r: Rules) {
    && (forall x, y :: r.hash(x) == r.hash(y) ==> x == y)
    && (forall x, y :: r.ommersHash(x) == r.ommersHash(y) ==> x == y)
  }

  /** Headers and bodies are stored under their own number and hash. */
  ghost predicate Filed(r: Rules, store: Store) {
    && (forall id :: id in store.headers ==> id == (store.headers[id].number, r.hash(store.headers[id])))
    && (forall id :: id in store.bodies ==> id in store.headers && store.headers[id].ommersHash == r.ommersHash(store.bodies[id]))
  }

  function Parent(store: Store, h: Header): Option<Header> {
    if h.number > 0 && (h.number - 1, h.parentHash) in store.headers then Some(store.headers[(h.number - 1, h.parentHash)]) else None
  }

  /** Whether `branch` is a sibling of one of `n` headers of the main line, from `mainline` down; and the ommers met on the way. */
  function IsKin(store: Store, branch: Header, mainline: Header, mainlineHash: Hash, n: nat, seen: seq<Header>): (bool, seq<Header>)
    decreases n
  {
    if n > 0 && branch != mainline then
      if (mainline.number, mainlineHash) in store.bodies then
        var seen1 := seen + store.bodies[(mainline.number, mainlineHash)];
        match Parent(store, mainline)
        case Some(parent) =>
          if Parent(store, branch) == Some(parent) then (true, seen1)
          else IsKin(store, branch, parent, mainline.parentHash, n - 1, seen1)
        case None => (false, seen1)
      else (false, seen)
    else (false, seen)
  }

  const GENERATIONS: nat := 6

  /** The transaction is for this chain, or for any, and offers no less than the base fee and than its own priority fee. */
  predicate ValidTransaction(r: Rules, baseFee: Option<nat>, txn: Transaction) {
    && (txn.chainId.Some? ==> txn.chainId.value == r.chainId)
    && (baseFee.Some? ==> baseFee.value <= txn.maxFee)
    && txn.maxPriorityFee <= txn.maxFee
  }

  /** The checks of a block before it is executed. */
  predicate PreValidate(r: Rules, store: Store, b: Block) {
    && b.header.ommersHash == r.ommersHash(b.ommers)
    && b.header.transactionsRoot == r.transactionsRoot(b.transactions)
    && (forall i :: 0 <= i < |b.transactions| ==> ValidTransaction(r, b.header.baseFee, b.transactions[i]))
    && |b.ommers| <= 2
    && !(|b.ommers| == 2 && b.ommers[0] == b.ommers[1])
    && Parent(store, b.header).Some?
    && forall i :: 0 <= i < |b.ommers| ==> ValidOmmer(r, store, b, Parent(store, b.header).value, b.ommers[i])
  }

  predicate ValidOmmer(r: Rules, store: Store, b: Block, parent: Header, ommer: Header) {
    && Parent(store, ommer).Some?
    && r.validHeader(ommer, Parent(store, ommer).value)
    && var (kin, met) := IsKin(store, ommer, parent, b.header.parentHash, GENERATIONS, []);
       kin && ommer !in met
  }

  // Chains

  ghost predicate Linked(r: Rules, chain: seq<Block>) {
    && (forall i :: 0 <= i < |chain| ==> chain[i].header.number == i)
    && (forall i, j :: 0 <= i && j == i + 1 && j < |chain| ==> chain[j].header.parentHash == r.hash(chain[i].header))
    && (forall i :: 0 <= i < |chain| ==> chain[i].header.ommersHash == r.ommersHash(chain[i].ommers))
  }

  /** Every block but the first was accepted, each on what was stored at its time. */
  ghost predicate Accepted(r: Rules, stores: seq<Store>, chain: seq<Block>) {
    && Linked(r, chain) && |stores| == |chain|
    && forall i :: 0 < i < |chain| ==> Filed(r, stores[i]) && PreValidate(r, stores[i], chain[i])
  }

  /** Where a stored parent of a block of the chain is found, it is the block below it. */
  lemma ParentInChain(r: Rules, store: Store, chain: seq<Block>, i: nat)
    requires NoCollisions(r) && Filed(r, store) && Linked(r, chain) && 0 < i < |chain|
    ensures Parent(store, chain[i].header).Some? ==> Parent(store, chain[i].header).value == chain[i - 1].header
  {
    assert chain[i].header.parentHash == r.hash(chain[i - 1].header);
  }

  lemma BodyInChain(r: Rules, store: Store, chain: seq<Block>, i: nat)
    requires NoCollisions(r) && Filed(r, store) && Linked(r, chain) && i < |chain|
    ensures var id := (i, r.hash(chain[i].header)); id in store.bodies ==> store.bodies[id] == chain[i].ommers
  {
  }

  /** The generation at which a header branches off the chain, counted by the number of its sibling. */
  ghost predicate BranchesAt(chain: seq<Block>, branch: Header, k: nat) {
    0 < k < |chain| && branch.number == k && branch.parentHash == chain[k].header.parentHash && branch != chain[k].header
  }

  /**
   * What has been met when the walk from block `m` down ends: nothing but what was met before and the ommers of the blocks visited, and
   * for a kin, which branches off within `n` generations, all ommers of the blocks from its own number on.
   */
  lemma {:induction false} KinBranches(r: Rules, store: Store, chain: seq<Block>, branch: Header, m: nat, n: nat, seen: seq<Header>)
    requires NoCollisions(r) && Filed(r, store) && Linked(r, chain) && m < |chain|
    ensures var (kin, met) := IsKin(store, branch, chain[m].header, r.hash(chain[m].header), n, seen);
      && (forall u :: u in met ==> u in seen || exists j :: 0 <= j <= m && m - n < j && u in chain[j].ommers)
      && (kin ==>
            && BranchesAt(chain, branch, branch.number) && m < branch.number + n && branch.number <= m
            && forall u :: u in met <==> u in seen || exists j :: branch.number <= j <= m && u in chain[j].ommers)
    decreases n
  {
    var main := chain[m].header;
    assert main.number == m;
    if n > 0 && branch != main && (m, r.hash(main)) in store.bodies {
      BodyInChain(r, store, chain, m);
      var seen1 := seen + chain[m].ommers;
      assert forall u :: u in seen1 <==> u in seen || u in chain[m].ommers;
      if Parent(store, main).Some? {
        ParentInChain(r, store, chain, m);
        if Parent(store, branch) == Parent(store, main) {
          SameParent(r, store, chain, branch, m);
          assert IsKin(store, branch, main, r.hash(main), n, seen) == (true, seen1);
        } else {
          KinBranches(r, store, chain, branch, m - 1, n - 1, seen1);
          assert main.parentHash == r.hash(chain[m - 1].header);
          assert IsKin(store, branch, main, r.hash(main), n, seen) == IsKin(store, branch, chain[m - 1].header, main.parentHash, n - 1, seen1);
        }
      }
    }
  }

  lemma SameParent(r: Rules, store: Store, chain: seq<Block>, branch: Header, m: nat)
    requires NoCollisions(r) && Filed(r, store) && Linked(r, chain) && m < |chain|
    requires Parent(store, branch) == Parent(store, chain[m].header) && Parent(store, branch).Some? && branch != chain[m].header
    ensures BranchesAt(chain, branch, m)
  {
    var p := Parent(store, branch).value;
    assert p.number == branch.number - 1 && r.hash(p) == branch.parentHash;
    assert p.number == m - 1 && r.hash(p) == chain[m].header.parentHash;
  }

  /** And a header that branches off within `n` generations is found to be kin when the chain is stored. */
  lemma {:induction false} BranchIsKin(r: Rules, store: Store, chain: seq<Block>, branch: Header, m: nat, n: nat, seen: seq<Header>)
    requires NoCollisions(r) && Filed(r, store) && Linked(r, chain) && m < |chain|
    requires forall i :: 0 <= i <= m ==> var id := (i, r.hash(chain[i].header)); id in store.headers && id in store.bodies
    requires BranchesAt(chain, branch, branch.number) && branch.number <= m < branch.number + n
    ensures IsKin(store, branch, chain[m].header, r.hash(chain[m].header), n, seen).0
    decreases n
  {
    var main := chain[m].header;
    assert main.number == m && chain[m].header.parentHash == r.hash(chain[m - 1].header);
    assert (m, r.hash(main)) in store.bodies && (m - 1, r.hash(chain[m - 1].header)) in store.headers;
    ParentInChain(r, store, chain, m);
    if branch.number < m {
      BranchIsKin(r, store, chain, branch, m - 1, n - 1, seen + store.bodies[(m, r.hash(main))]);
    }
  }

  /** An ommer of an accepted block: a header beside one of the six blocks below, named by none of them. */
  lemma OmmerBeside(r: Rules, stores: seq<Store>, chain: seq<Block>, i: nat, u: Header)
    requires NoCollisions(r) && Accepted(r, stores, chain) && i < |chain| && i > 0 && u in chain[i].ommers
    ensures BranchesAt(chain, u, u.number) && i - GENERATIONS <= u.number <= i - 1
    ensures forall j :: u.number <= j < i ==> u !in chain[j].ommers
  {
    hide NoCollisions, IsKin, Filed, Linked, ValidOmmer, BranchesAt;
    var store := stores[i];
    ParentInChain(r, store, chain, i);
    var k :| 0 <= k < |chain[i].ommers| && chain[i].ommers[k] == u;
    assert ValidOmmer(r, store, chain[i], chain[i - 1].header, chain[i].ommers[k]);
    KinOfValid(r, store, chain, i, u);
    KinBranches(r, store, chain, u, i - 1, GENERATIONS, []);
  }

  lemma KinOfValid(r: Rules, store: Store, chain: seq<Block>, i: nat, u: Header)
    requires Linked(r, chain) && 0 < i < |chain| && ValidOmmer(r, store, chain[i], chain[i - 1].header, u)
    ensures var (kin, met) := IsKin(store, u, chain[i - 1].header, r.hash(chain[i - 1].header), GENERATIONS, []); kin && u !in met
  {
    hide IsKin;
  }

  /** All blocks of the chain are stored, with their bodies. */
  ghost predicate Stored(r: Rules, store: Store, chain: seq<Block>) {
    forall i :: 0 <= i < |chain| ==> var id := (i, r.hash(chain[i].header)); id in store.headers && id in store.bodies
  }

  /** A header that may be an ommer of the next block: beside one of the last six blocks, valid on the block below that, and not yet named. */
  ghost predicate MayBeNamed(r: Rules, chain: seq<Block>, u: Header) {
    && |chain| - 6 <= u.number && BranchesAt(chain, u, u.number) && r.validHeader(u, chain[u.number - 1].header)
    && forall j :: u.number <= j < |chain| ==> u !in chain[j].ommers
  }

  /** Exactly what the next block of a stored chain must be like to be accepted. */
  lemma AcceptedExactly(r: Rules, store: Store, chain: seq<Block>, b: Block)
    requires NoCollisions(r) && Filed(r, store) && Linked(r, chain) && Stored(r, store, chain) && |chain| > 0
    requires b.header.number == |chain| && b.header.parentHash == r.hash(chain[|chain| - 1].header)
    ensures PreValidate(r, store, b) <==>
      && b.header.ommersHash == r.ommersHash(b.ommers) && b.header.transactionsRoot == r.transactionsRoot(b.transactions)
      && (forall i :: 0 <= i < |b.transactions| ==> ValidTransaction(r, b.header.baseFee, b.transactions[i]))
      && |b.ommers| <= 2 && (forall x, y :: 0 <= x < y < |b.ommers| ==> b.ommers[x] != b.ommers[y])
      && (forall i :: 0 <= i < |b.ommers| ==> MayBeNamed(r, chain, b.ommers[i]))
  {
    hide NoCollisions, Linked, Filed, ValidOmmer, MayBeNamed, ValidTransaction;
    TipIsParent(r, store, chain, b);
    forall i | 0 <= i < |b.ommers|
      ensures ValidOmmer(r, store, b, chain[|chain| - 1].header, b.ommers[i]) <==> MayBeNamed(r, chain, b.ommers[i])
    {
      OmmerExactly(r, store, chain, b, b.ommers[i]);
    }
  }

  lemma TipIsParent(r: Rules, store: Store, chain: seq<Block>, b: Block)
    requires NoCollisions(r) && Filed(r, store) && Linked(r, chain) && Stored(r, store, chain) && |chain| > 0
    requires b.header.number == |chain| && b.header.parentHash == r.hash(chain[|chain| - 1].header)
    ensures Parent(store, b.header) == Some(chain[|chain| - 1].header)
  {
    var last := |chain| - 1;
    assert (last, r.hash(chain[last].header)) in store.headers;
  }

  lemma OmmerExactly(r: Rules, store: Store, chain: seq<Block>, b: Block, u: Header)
    requires NoCollisions(r) && Filed(r, store) && Linked(r, chain) && Stored(r, store, chain) && |chain| > 0
    requires b.header.parentHash == r.hash(chain[|chain| - 1].header)
    ensures ValidOmmer(r, store, b, chain[|chain| - 1].header, u) <==> MayBeNamed(r, chain, u)
  {
    hide NoCollisions, Linked, Filed, IsKin, BranchesAt;
    var m: nat := |chain| - 1;
    KinBranches(r, store, chain, u, m, GENERATIONS, []);
    if BranchesAt(chain, u, u.number) {
      BesideHasParent(r, store, chain, u);
      if m < u.number + GENERATIONS {
        NumberInside(chain, u);
        BranchIsKin(r, store, chain, u, m, GENERATIONS, []);
      }
    }
  }

  lemma NumberInside(chain: seq<Block>, u: Header)
    requires BranchesAt(chain, u, u.number)
    ensures 0 < u.number < |chain|
  {
  }

  lemma BesideHasParent(r: Rules, store: Store, chain: seq<Block>, u: Header)
    requires NoCollisions(r) && Filed(r, store) && Linked(r, chain) && Stored(r, store, chain)
    requires BranchesAt(chain, u, u.number)
    ensures 0 < u.number < |chain| && Parent(store, u) == Some(chain[u.number - 1].header)
  {
    var k: nat := u.number - 1;
    assert (k, r.hash(chain[k].header)) in store.headers;
    assert chain[k + 1].header.parentHash == r.hash(chain[k].header);
  }

  /** Along a chain of accepted blocks no header is counted twice: not as ommer of two blocks, nor as ommer and as a block of the chain. */
  lemma NoHeaderCountsTwice(r: Rules, stores: seq<Store>, chain: seq<Block>)
    requires NoCollisions(r) && Accepted(r, stores, chain)
    ensures forall i, u :: 0 < i < |chain| && u in chain[i].ommers ==> forall j :: 0 <= j < |chain| ==> chain[j].header != u
    ensures forall i, j, u :: 0 < i < j < |chain| && u in chain[i].ommers ==> u !in chain[j].ommers
    ensures forall i, x, y :: 0 < i < |chain| && 0 <= x < y < |chain[i].ommers| ==> chain[i].ommers[x] != chain[i].ommers[y]
  {
    hide *;
    forall i, u | 0 < i < |chain| && u in chain[i].ommers ensures forall j :: 0 <= j < |chain| ==> chain[j].header != u {
      NotInChain(r, stores, chain, i, u);
    }
    forall i, j, u | 0 < i < j < |chain| && u in chain[i].ommers ensures u !in chain[j].ommers {
      NotNamedLater(r, stores, chain, i, j, u);
    }
    forall i, x, y | 0 < i < |chain| && 0 <= x < y < |chain[i].ommers| ensures chain[i].ommers[x] != chain[i].ommers[y] {
      NotNamedTwice(r, stores, chain, i, x, y);
    }
  }

  lemma NotInChain(r: Rules, stores: seq<Store>, chain: seq<Block>, i: nat, u: Header)
    requires NoCollisions(r) && Accepted(r, stores, chain) && 0 < i < |chain| && u in chain[i].ommers
    ensures forall j :: 0 <= j < |chain| ==> chain[j].header != u
  {
    hide NoCollisions;
    OmmerBeside(r, stores, chain, i, u);
    hide PreValidate, Filed;
    assert forall j :: 0 <= j < |chain| ==> chain[j].header.number == j;
  }

  lemma NotNamedTwice(r: Rules, stores: seq<Store>, chain: seq<Block>, i: nat, x: nat, y: nat)
    requires Accepted(r, stores, chain) && 0 < i < |chain| && x < y < |chain[i].ommers|
    ensures chain[i].ommers[x] != chain[i].ommers[y]
  {
    hide Linked, Filed, ValidOmmer;
    assert PreValidate(r, stores[i], chain[i]);
  }

  lemma NotNamedLater(r: Rules, stores: seq<Store>, chain: seq<Block>, i: nat, j: nat, u: Header)
    requires NoCollisions(r) && Accepted(r, stores, chain) && 0 < i < j < |chain| && u in chain[i].ommers
    ensures u !in chain[j].ommers
  {
    hide NoCollisions, Accepted;
    OmmerBeside(r, stores, chain, i, u);
    if u in chain[j].ommers {
      OmmerBeside(r, stores, chain, j, u);
    }
  }

  // The checks, one after the other

  datatype Error = WrongOmmersHash | WrongTransactionsRoot | TooManyOmmers | DuplicateOmmer | UnknownParent | InvalidOmmerHeader | NotAnOmmer
    | WrongChainId | MaxFeeLessThanBase | MaxPriorityFeeGreaterThanMax

  method PreValidateTransaction(r: Rules, baseFee: Option<nat>, txn: Transaction) returns (error: Option<Error>)
    ensures error.None? <==> ValidTransaction(r, baseFee, txn)
    ensures error in {None, Some(WrongChainId), Some(MaxFeeLessThanBase), Some(MaxPriorityFeeGreaterThanMax)}
    ensures error == Some(WrongChainId) <==> txn.chainId.Some? && txn.chainId.value != r.chainId
    ensures error == Some(MaxPriorityFeeGreaterThanMax) ==> txn.maxPriorityFee > txn.maxFee
  {
    if txn.chainId.Some? {
      if txn.chainId.value != r.chainId {
        return Some(WrongChainId);
      }
    }
    if baseFee.Some? {
      if txn.maxFee < baseFee.value {
        return Some(MaxFeeLessThanBase);
      }
    }
    if txn.maxPriorityFee > txn.maxFee {
      return Some(MaxPriorityFeeGreaterThanMax);
    }
    return None;
  }

  method PreValidateBlock(r: Rules, store: Store, b: Block) returns (error: Option<Error>)
    ensures error.None? <==> PreValidate(r, store, b)
    ensures var hashesFit := b.header.ommersHash == r.ommersHash(b.ommers) && b.header.transactionsRoot == r.transactionsRoot(b.transactions);
      && (error == Some(WrongOmmersHash) <==> b.header.ommersHash != r.ommersHash(b.ommers))
      && (error in {Some(WrongOmmersHash), Some(WrongTransactionsRoot)} <==> !hashesFit)
      && (error == Some(TooManyOmmers) <==> hashesFit && |b.ommers| > 2)
    ensures error == Some(UnknownParent) ==> Parent(store, b.header).None? || exists i :: 0 <= i < |b.ommers| && Parent(store, b.ommers[i]).None?
    ensures error == Some(InvalidOmmerHeader) ==>
      exists i :: 0 <= i < |b.ommers| && Parent(store, b.ommers[i]).Some? && !r.validHeader(b.ommers[i], Parent(store, b.ommers[i]).value)
    ensures error == Some(NotAnOmmer) ==> Parent(store, b.header).Some?
    ensures error == Some(NotAnOmmer) ==>
      exists i :: 0 <= i < |b.ommers| && !IsKin(store, b.ommers[i], Parent(store, b.header).value, b.header.parentHash, GENERATIONS, []).0
    ensures error == Some(DuplicateOmmer) ==> (|b.ommers| == 2 && b.ommers[0] == b.ommers[1]) || Parent(store, b.header).Some?
    ensures error == Some(DuplicateOmmer) ==>
      || (|b.ommers| == 2 && b.ommers[0] == b.ommers[1])
      || exists i :: 0 <= i < |b.ommers|
           && b.ommers[i] in IsKin(store, b.ommers[i], Parent(store, b.header).value, b.header.parentHash, GENERATIONS, []).1
    ensures error in {Some(WrongChainId), Some(MaxFeeLessThanBase), Some(MaxPriorityFeeGreaterThanMax)} ==>
      exists i :: 0 <= i < |b.transactions| && !ValidTransaction(r, b.header.baseFee, b.transactions[i])
  {
    if b.header.ommersHash != r.ommersHash(b.ommers) {
      return Some(WrongOmmersHash);
    }
    if b.header.transactionsRoot != r.transactionsRoot(b.transactions) {
      return Some(WrongTransactionsRoot);
    }
    if |b.ommers| > 2 {
      return Some(TooManyOmmers);
    }
    if |b.ommers| == 2 && b.ommers[0] == b.ommers[1] {
      return Some(DuplicateOmmer);
    }
    var parent := Parent(store, b.header);
    if parent.None? {
      return Some(UnknownParent);
    }
    for i := 0 to |b.ommers|
      invariant forall j :: 0 <= j < i ==> ValidOmmer(r, store, b, parent.value, b.ommers[j])
    {
      var ommer := b.ommers[i];
      var ommerParent := Parent(store, ommer);
      if ommerParent.None? {
        return Some(UnknownParent);
      }
      if !r.validHeader(ommer, ommerParent.value) {
        return Some(InvalidOmmerHeader);
      }
      var (kin, met) := IsKin(store, ommer, parent.value, b.header.parentHash, GENERATIONS, []);
      if !kin {
        return Some(NotAnOmmer);
      }
      if ommer in met {
        return Some(DuplicateOmmer);
      }
    }
    for i := 0 to |b.transactions|
      invariant forall j :: 0 <= j < i ==> ValidTransaction(r, b.header.baseFee, b.transactions[j])
    {
      error := PreValidateTransaction(r, b.header.baseFee, b.transactions[i]);
      if error.Some? {
        return;
      }
    }
    return None;
  }

  // Rewards

  const ETHER: nat := 1_000_000_000_000_000_000

  function BlockReward(revision: Revision): (wei: nat)
    ensures wei == match revision
      case Frontier => 5_000_000_000_000_000_000
      case Homestead => 5_000_000_000_000_000_000
      case Tangerine => 5_000_000_000_000_000_000
      case Spurious => 5_000_000_000_000_000_000
      case Byzantium => 3_000_000_000_000_000_000
      case _ => 2_000_000_000_000_000_000
  {
    if revision.AtLeast(Constantinople) then 2 * ETHER
    else if revision.AtLeast(Byzantium) then 3 * ETHER
    else 5 * ETHER
  }

  datatype Reward = Reward(address: Address, amount: nat)

  /** Pays the ommers in order, then the miner. */
  method Finalize(header: Header, ommers: seq<Header>, revision: Revision) returns (changes: seq<Reward>)
    requires forall u :: u in ommers ==> u.number + 8 >= header.number
    ensures |changes| == |ommers| + 1
    ensures forall i :: 0 <= i < |ommers| ==> changes[i].address == ommers[i].beneficiary
    ensures forall i :: 0 <= i < |ommers| ==> 8 * changes[i].amount == (8 + ommers[i].number - header.number) * BlockReward(revision)
    ensures changes[|ommers|] == Reward(header.beneficiary, BlockReward(revision) + |ommers| * (BlockReward(revision) / 32))
  {
    var reward := BlockReward(revision);
    var minerReward := reward;
    changes := [];
    for i := 0 to |ommers|
      invariant |changes| == i && minerReward == reward + i * (reward / 32)
      invariant forall j :: 0 <= j < i ==> changes[j].address == ommers[j].beneficiary
      invariant forall j :: 0 <= j < i ==> 8 * changes[j].amount == (8 + ommers[j].number - header.number) * reward
    {
      var generations: nat := 8 + ommers[i].number - header.number;
      EighthOfReward(generations, revision);
      changes := changes + [Reward(ommers[i].beneficiary, generations * reward / 8)];
      minerReward := minerReward + reward / 32;
    }
    changes := changes + [Reward(header.beneficiary, minerReward)];
  }

  lemma EighthOfReward(generations: nat, revision: Revision)
    ensures 8 * (generations * BlockReward(revision) / 8) == generations * BlockReward(revision)
  {
    var eighth := BlockReward(revision) / 8;
    assert BlockReward(revision) == 8 * eighth;
    assert generations * BlockReward(revision) == 8 * (generations * eighth);
  }

  /** What `Finalize` asks for holds in every accepted block, and there an ommer gets between a quarter and seven eighths of the reward. */
  lemma OmmersPaid(r: Rules, stores: seq<Store>, chain: seq<Block>, i: nat, u: Header, revision: Revision, amount: nat)
    requires NoCollisions(r) && Accepted(r, stores, chain) && 0 < i < |chain| && u in chain[i].ommers
    requires 8 * amount == (8 + u.number - i) * BlockReward(revision)
    ensures u.number + 8 >= i && BlockReward(revision) <= 4 * amount && 8 * amount <= 7 * BlockReward(revision)
  {
    hide NoCollisions, Accepted, BranchesAt, BlockReward;
    OmmerBeside(r, stores, chain, i, u);
    var n := 8 + u.number - i;
    assert 2 <= n <= 7;
    assert 2 * BlockReward(revision) <= n * BlockReward(revision) <= 7 * BlockReward(revision);
  }
}
