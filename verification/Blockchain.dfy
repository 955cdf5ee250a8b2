/** Inserting blocks into a chain: unwinding, executing a branch, and making it canonical or going back. */
module Blockchain {
  import opened Basics
  import opened StateTypes
  import opened Journal
  import Transactions
  import Backing
  import opened StateWrites
  import opened BlockWrites
  import opened Replay
  import opened InMemoryState

  type Id = (nat, Hash)

  type Store = map<Id, Block>

  datatype Outcome = Inserted | UnknownParent | Rejected | KnownBad | Failed

  ghost predicate AllStored(r: Rules, store: Store, path: seq<Block>) {
    forall i :: 0 <= i < |path| ==> (i, r.hash(path[i])) in store && store[(i, r.hash(path[i]))] == path[i]
  }

  /** The way from genesis to a stored block, over stored blocks. */
  ghost predicate IsWay(r: Rules, store: Store, path: seq<Block>, id: Id) {
    && Linked(r, path) && AllStored(r, store, path) && Replayed(r, path).Some?
    && id == (|path| - 1, r.hash(Last(path)))
  }

  /** Every stored block can be reached from genesis, replays, and has its total difficulty recorded. */
  ghost predicate StoreOk(r: Rules, store: Store, works: map<Id, nat>) {
    forall id: Id :: id in store ==> id in works && exists path :: IsWay(r, store, path, id) && works[id] == Work(path)
  }

  /** The canonical hashes are those of a chain of stored blocks, linked from the one genesis block. */
  ghost predicate CanonicalOk(r: Rules, store: Store, hashes: seq<Hash>, chain: seq<Block>) {
    && Linked(r, chain) && AllStored(r, store, chain) && Replayed(r, chain).Some?
    && |hashes| == |chain| && (forall i :: 0 <= i < |chain| ==> hashes[i] == r.hash(chain[i]))
    && forall h :: (0, h) in store ==> h == hashes[0]
  }

  /** No stored block has a higher total difficulty than the tip. */
  ghost predicate TipIsBest(store: Store, works: map<Id, nat>, chain: seq<Block>) {
    forall id: Id :: id in store && id in works ==> works[id] <= Work(chain)
  }

  /** The block fails on the state that the chain below it leads to. */
  ghost predicate Fails(r: Rules, path: seq<Block>) {
    Linked(r, path) && |path| > 1 && Replayed(r, Front(path)).Some? && Replayed(r, path).None?
  }

  ghost predicate BadOk(r: Rules, bad: set<Hash>) {
    forall h :: h in bad ==> exists path :: Fails(r, path) && r.hash(Last(path)) == h
  }

  /** A bad block fails again, on whatever chain it is offered. */
  lemma BadFailsAgain(r: Rules, bad: set<Hash>, path: seq<Block>)
    requires Sound(r) && BadOk(r, bad) && Linked(r, path) && r.hash(Last(path)) in bad
    ensures Fails(r, path)
  {
    var p :| Fails(r, p) && r.hash(Last(p)) == r.hash(Last(path));
    OnePath(r, p, path);
  }

  /** What the record of block `i` has to put back. */
  ghost predicate Undone(r: Rules, path: seq<Block>, i: nat, d: Diff) {
    && i < |path| && Replayed(r, path[..i + 1]).Some? && Replayed(r, path[..i]).Some?
    && Restore(Replayed(r, path[..i + 1]).value, d) == Replayed(r, path[..i]).value
  }

  lemma UndonePrefix(r: Rules, p: seq<Block>, q: seq<Block>, i: nat, d: Diff)
    requires Undone(r, p, i, d) && i < |q| && p[..i + 1] == q[..i + 1]
    ensures Undone(r, q, i, d)
  {
    assert p[..i] == p[..i + 1][..i] == q[..i + 1][..i] == q[..i];
  }

  /** The highest canonical block that a block descends from. */
  function CanonicalAncestor(store: Store, hashes: seq<Hash>, b: Block, hash: Hash): Option<nat>
    decreases b.number
  {
    if b.number < |hashes| && hashes[b.number] == hash then Some(b.number)
    else if b.number == 0 || (b.number - 1, b.parentHash) !in store then None
    else
      var parent := store[(b.number - 1, b.parentHash)];
      if parent.number != b.number - 1 then None else CanonicalAncestor(store, hashes, parent, b.parentHash)
  }

  lemma {:induction false} AncestorShared(r: Rules, store: Store, hashes: seq<Hash>, chain: seq<Block>, path: seq<Block>)
    requires Sound(r) && CanonicalOk(r, store, hashes, chain) && Linked(r, path) && AllStored(r, store, Front(path))
    requires |path| == 1 ==> path[0] == chain[0]
    ensures var a := CanonicalAncestor(store, hashes, Last(path), r.hash(Last(path)));
      && a.Some? && a.value < |path| && a.value < |chain| && path[..a.value + 1] == chain[..a.value + 1]
      && (a.value == |path| - 1 <==> |path| <= |hashes| && hashes[|path| - 1] == r.hash(Last(path)))
    decreases |path|
  {
    var b := Last(path);
    assert b.number == |path| - 1;
    if b.number < |hashes| && hashes[b.number] == r.hash(b) {
      CanonicalBlock(r, store, hashes, chain, path);
    } else {
      ParentOnPath(r, store, hashes, chain, path);
      AncestorShared(r, store, hashes, chain, Front(path));
      var a := CanonicalAncestor(store, hashes, Last(Front(path)), r.hash(Last(Front(path)))).value;
      assert Front(path)[..a + 1] == path[..a + 1];
    }
  }

  lemma CanonicalBlock(r: Rules, store: Store, hashes: seq<Hash>, chain: seq<Block>, path: seq<Block>)
    requires Sound(r) && CanonicalOk(r, store, hashes, chain) && Linked(r, path)
    requires |path| <= |hashes| && hashes[|path| - 1] == r.hash(Last(path))
    ensures path == chain[..|path|]
  {
    LinkedPrefix(r, chain, |path|);
    assert Last(chain[..|path|]) == chain[|path| - 1];
    OnePath(r, path, chain[..|path|]);
  }

  lemma ParentOnPath(r: Rules, store: Store, hashes: seq<Hash>, chain: seq<Block>, path: seq<Block>)
    requires Sound(r) && CanonicalOk(r, store, hashes, chain) && Linked(r, path) && AllStored(r, store, Front(path))
    requires |path| == 1 ==> path[0] == chain[0]
    requires !(|path| <= |hashes| && hashes[|path| - 1] == r.hash(Last(path)))
    ensures |path| > 1
    ensures var parent, id := Last(Front(path)), (|path| - 2, Last(path).parentHash);
      parent.number == |path| - 2 && id in store && store[id] == parent && Last(path).parentHash == r.hash(parent)
    ensures Linked(r, Front(path)) && AllStored(r, store, Front(Front(path))) && (|path| == 2 ==> path[0] == chain[0])
  {
    assert hashes[0] == r.hash(chain[0]);
    var i := |path| - 2;
    LinkedPrefix(r, path, |path| - 1);
    assert Front(path)[i] == path[i] && path[i + 1].parentHash == r.hash(path[i]);
    if |path| == 2 {
      assert (0, r.hash(path[0])) in store;
      assert r.hash(path[0]) == hashes[0] == r.hash(chain[0]);
    }
  }

  class Blockchain {
    const r: Rules
    const state: InMemoryState
    var badBlocks: set<Hash>
    /** The blocks of the canonical chain. */
    ghost var chain: seq<Block>

    /** The live state is what `path` leads to, and the records can take it back block by block. */
    ghost predicate Follows(path: seq<Block>)
      reads state`accounts, state`storage, state`accountChanges, state`storageChanges
    {
      && state.Valid() && Replayed(r, path) == Some(state.State())
      && (forall i: nat :: 0 < i < |path| ==> Undone(r, path, i, state.DiffAt(i)))
      && (forall i: nat :: i >= |path| ==> state.DiffAt(i) == NO_DIFF)
    }

    ghost predicate Valid()
      reads this, state
    {
      && Sound(r)
      && StoreOk(r, state.blocks, state.difficulty)
      && CanonicalOk(r, state.blocks, state.canonicalHashes, chain)
      && TipIsBest(state.blocks, state.difficulty, chain)
      && BadOk(r, badBlocks)
      && Follows(chain)
    }

    constructor (rules: Rules, state: InMemoryState, genesis: Block)
      requires Sound(rules) && genesis.number == 0
      requires state.Valid() && state.State() == rules.genesis && forall n: nat :: state.DiffAt(n) == NO_DIFF
      requires state.blocks == map[] && state.difficulty == map[] && state.canonicalHashes == []
      modifies state
      ensures Valid() && this.state == state && r == rules && chain == [genesis] && badBlocks == {}
    {
      hide state.Valid, state.State, state.DiffAt, Sound, Undone, Replayed, Linked, StoreOk, CanonicalOk, TipIsBest;
      r, this.state, badBlocks, chain := rules, state, {}, [genesis];
      new;
      state.InsertBlock(genesis, r.hash(genesis));
      state.CanonizeBlock(0, r.hash(genesis));
      OnlyGenesis(r, genesis, state.canonicalHashes);
    }

    method UnwindLastChanges(ancestor: nat, tip: nat, ghost path: seq<Block>)
      requires Follows(path) && ancestor <= tip && |path| == tip + 1
      modifies state`accounts, state`accountChanges, state`storage, state`storageChanges
      ensures Follows(path[..ancestor + 1])
    {
      hide *;
      var n := tip;
      assert path[..n + 1] == path;
      while n > ancestor
        invariant ancestor <= n <= tip && Follows(path[..n + 1])
      {
        UnwindOne(n, path[..n + 1]);
        assert path[..n + 1][..n] == path[..n];
        n := n - 1;
      }
    }

    method UnwindOne(n: nat, ghost path: seq<Block>)
      requires Follows(path) && |path| == n + 1 && n > 0
      modifies state`accounts, state`accountChanges, state`storage, state`storageChanges
      ensures Follows(path[..n])
    {
      hide Restore, Replayed;
      assert Undone(r, path, n, state.DiffAt(n));
      assert path[..n + 1] == path;
      forall i: nat | 0 < i < n ensures Undone(r, path[..n], i, state.DiffAt(i)) {
        assert path[..i + 1] == path[..n][..i + 1];
        UndonePrefix(r, path, path[..n], i, state.DiffAt(i));
      }
      hide Undone, state.Valid, state.State, state.DiffAt;
      state.UnwindStateChanges(n);
    }

    method ExecuteBlock(b: Block, check: bool, ghost path: seq<Block>) returns (ok: bool)
      requires Sound(r) && Follows(path) && Consistent(state.State()) && b.number == |path| > 0
      modifies state`blockNumber, state`accounts, state`accountChanges, state`storage, state`storageChanges
      ensures ok <==> Execute(r, Replayed(r, path).value, b, check).Some?
      ensures ok && Execute(r, Replayed(r, path).value, b, r.checkRoot).Some? ==> Follows(path + [b]) && Consistent(state.State())
      ensures !ok ==> Follows(path)
    {
      hide *;
      FollowsParts(path);
      ghost var w, q := state.State(), path + [b];
      var result := r.exec(state.State(), b);
      ExecutionGood(r, w, b, check);
      ExecutionGood(r, w, b, r.checkRoot);
      ReplayedMore(r, path, b);
      if result.None? {
        return false;
      }
      state.WriteBlock(result.value, b.number);
      if check && r.root(state.State()) != b.stateRoot {
        state.UnwindStateChanges(b.number);
        AllFollows(path);
        return false;
      }
      if Execute(r, w, b, r.checkRoot).Some? {
        forall i: nat | 0 < i < |q| ensures Undone(r, q, i, state.DiffAt(i)) {
          if i < |path| {
            assert path[..i + 1] == q[..i + 1];
            UndonePrefix(r, path, q, i, state.DiffAt(i));
          } else {
            UndoneLast(r, path, b, state.DiffAt(i));
          }
        }
        AllFollows(q);
      }
      return true;
    }

    method ReExecuteCanonicalChain(ancestor: nat, tip: nat)
      requires Sound(r) && CanonicalOk(r, state.blocks, state.canonicalHashes, chain)
      requires |chain| == tip + 1 && ancestor <= tip && Follows(chain[..ancestor + 1])
      modifies state`blockNumber, state`accounts, state`accountChanges, state`storage, state`storageChanges
      ensures Follows(chain)
    {
      hide *;
      var n := ancestor;
      while n < tip
        invariant ancestor <= n <= tip && Follows(chain[..n + 1])
        invariant CanonicalOk(r, state.blocks, state.canonicalHashes, chain)
      {
        n := n + 1;
        CanonicalStep(r, state.blocks, state.canonicalHashes, chain, n);
        FollowsReplayed(chain[..n]);
        var hash := state.canonicalHashes[n];
        var block := state.blocks[(n, hash)];
        var ok := ExecuteBlock(block, false, chain[..n]);
        assert ok;
      }
      assert chain[..n + 1] == chain;
    }

    lemma FollowsParts(path: seq<Block>)
      requires Follows(path)
      ensures state.Valid() && Replayed(r, path) == Some(state.State())
      ensures forall i: nat :: 0 < i < |path| ==> Undone(r, path, i, state.DiffAt(i))
      ensures forall i: nat :: i >= |path| ==> state.DiffAt(i) == NO_DIFF
    {
    }

    lemma AllFollows(path: seq<Block>)
      requires state.Valid() && Replayed(r, path) == Some(state.State())
      requires forall i: nat :: 0 < i < |path| ==> Undone(r, path, i, state.DiffAt(i))
      requires forall i: nat :: i >= |path| ==> state.DiffAt(i) == NO_DIFF
      ensures Follows(path)
    {
    }

    lemma FollowsReplayed(path: seq<Block>)
      requires Follows(path)
      ensures state.Valid() && Replayed(r, path) == Some(state.State())
    {
    }

    /** The stored blocks above `ancestor` up to the block `hash` with number `n`. */
    method IntermediateChain(n: nat, hash: Hash, ancestor: nat, ghost path: seq<Block>) returns (branch: seq<Block>)
      requires IsWay(r, state.blocks, path, (n, hash)) && ancestor <= n
      ensures branch == path[ancestor + 1..]
    {
      branch := [];
      var h, i := hash, n;
      while i > ancestor
        invariant ancestor <= i <= n && branch == path[i + 1..] && h == r.hash(path[i])
      {
        assert (i, r.hash(path[i])) in state.blocks;
        var block := state.blocks[(i, h)];
        ParentHash(r, path, i);
        branch := [block] + branch;
        h, i := block.parentHash, i - 1;
      }
    }

    /** Makes the blocks of `branch` canonical in place of those above `ancestor`. */
    method Canonize(ancestor: nat, branch: seq<Block>, ghost path: seq<Block>)
      requires ancestor + 1 + |branch| == |path| && branch == path[ancestor + 1..] && |state.canonicalHashes| > ancestor
      requires forall i :: 0 <= i < |path| ==> path[i].number == i
      requires forall i :: 0 <= i <= ancestor ==> state.canonicalHashes[i] == r.hash(path[i])
      modifies state`canonicalHashes
      ensures |state.canonicalHashes| == |path| && forall i :: 0 <= i < |path| ==> state.canonicalHashes[i] == r.hash(path[i])
    {
      var n := |state.canonicalHashes| - 1;
      while n > ancestor
        invariant ancestor <= n && |state.canonicalHashes| == n + 1
        invariant forall i :: 0 <= i <= ancestor ==> state.canonicalHashes[i] == r.hash(path[i])
      {
        assert state.CanonicalHash(n - 1).Some?;
        assert forall i :: 0 <= i <= ancestor ==> state.CanonicalHash(i) == Some(r.hash(path[i]));
        state.DecanonizeBlock(n);
        assert state.CanonicalHash(n).None? && state.CanonicalHash(n - 1).Some?;
        assert forall i :: 0 <= i <= ancestor ==> state.CanonicalHash(i) == Some(r.hash(path[i]));
        n := n - 1;
      }
      for j := 0 to |branch|
        invariant |state.canonicalHashes| == ancestor + 1 + j
        invariant forall i :: 0 <= i < ancestor + 1 + j ==> state.canonicalHashes[i] == r.hash(path[i])
      {
        assert branch[j] == path[ancestor + 1 + j];
        state.CanonizeBlock(branch[j].number, r.hash(branch[j]));
      }
    }

    /**
     Executes the blocks of `branch`, all but the last of which are stored. When one fails the state is
     left as the blocks before it made it.
     */
    method ExecuteBranch(ancestor: nat, branch: seq<Block>, check: bool, ghost path: seq<Block>) returns (executed: nat)
      requires Sound(r) && check == r.checkRoot
      requires branch != [] && ancestor + 1 + |branch| == |path| && branch == path[ancestor + 1..]
      requires Linked(r, path) && Replayed(r, Front(path)).Some? && Follows(path[..ancestor + 1])
      modifies state`blockNumber, state`accounts, state`accountChanges, state`storage, state`storageChanges
      ensures executed <= |branch| && Follows(path[..ancestor + 1 + executed])
      ensures executed == |branch| <==> Replayed(r, path).Some?
      ensures executed < |branch| ==> executed == |branch| - 1 && Follows(Front(path))
    {
      hide *;
      executed := 0;
      while executed < |branch|
        invariant executed <= |branch| && Follows(path[..ancestor + 1 + executed])
        invariant executed == |branch| ==> Replayed(r, path).Some?
      {
        ghost var n := ancestor + 1 + executed;
        FollowsReplayed(path[..n]);
        BranchStep(r, path, n);
        assert branch[executed] == path[n];
        var ok := ExecuteBlock(branch[executed], check, path[..n]);
        if !ok {
          return;
        }
        executed := executed + 1;
      }
    }

    /**
     Inserts a block that is not canonical already. `engineAccepts` is the verdict of the consensus engine on
     its header and body. Afterwards the live state is again what the canonical chain leads to.
     */
    method InsertBlock(b: Block, check: bool, engineAccepts: bool) returns (outcome: Outcome)
      requires Valid() && check == r.checkRoot
      requires !(b.number < |state.canonicalHashes| && state.canonicalHashes[b.number] == r.hash(b))
      modifies this`badBlocks, this`chain, state
      ensures Valid()
      ensures outcome == UnknownParent <==> b.number == 0 || (b.number - 1, b.parentHash) !in old(state.blocks)
      ensures outcome == Rejected <==> b.number > 0 && (b.number - 1, b.parentHash) in old(state.blocks) && !engineAccepts
      ensures outcome == KnownBad <==>
        b.number > 0 && (b.number - 1, b.parentHash) in old(state.blocks) && engineAccepts && r.hash(b) in old(badBlocks)
      ensures outcome == Failed ==> exists path :: Fails(r, path) && Last(path) == b
      ensures outcome == Failed ==> badBlocks == old(badBlocks) + {r.hash(b)}
      ensures outcome != Failed ==> badBlocks == old(badBlocks)
      ensures outcome != Inserted ==> chain == old(chain) && state.blocks == old(state.blocks) && state.State() == old(state.State())
      ensures outcome == Inserted ==> state.blocks == old(state.blocks)[(b.number, r.hash(b)) := b]
      ensures outcome == Inserted ==> exists path: seq<Block> ::
        Linked(r, path) && Last(path) == b && chain == if Work(path) > Work(old(chain)) then path else old(chain)
      ensures outcome == Inserted && chain == old(chain) ==> state.State() == old(state.State())
    {
      hide *;
      ValidParts();
      if b.number == 0 || (b.number - 1, b.parentHash) !in state.blocks {
        return UnknownParent;
      }
      if !engineAccepts {
        return Rejected;
      }
      var hash := r.hash(b);
      if hash in badBlocks {
        return KnownBad;
      }
      ghost var p := WayTo(r, state.blocks, state.difficulty, (b.number - 1, b.parentHash));
      ghost var path := p + [b];
      PathOfNew(r, state.blocks, state.canonicalHashes, chain, p, b);
      var ancestor := CanonicalAncestor(state.blocks, state.canonicalHashes, b, hash).value;
      var tip := |state.canonicalHashes| - 1;
      UnwindLastChanges(ancestor, tip, chain);
      var branch := IntermediateChain(b.number - 1, b.parentHash, ancestor, p);
      branch := branch + [b];
      assert branch == path[ancestor + 1..];
      var executed := ExecuteBranch(ancestor, branch, check, path);
      if executed < |branch| {
        badBlocks := badBlocks + {hash};
        AlsoBad(r, old(badBlocks), path);
        assert Fails(r, path) && Last(path) == b;
        assert path[..ancestor + 1 + executed][..ancestor + 1] == path[..ancestor + 1];
        UnwindLastChanges(ancestor, ancestor + executed, path[..ancestor + 1 + executed]);
        ReExecuteCanonicalChain(ancestor, tip);
        FollowsReplayed(chain);
        AllValid();
        return Failed;
      }
      assert path[..ancestor + 1 + executed] == path;
      StoredNew(r, state.blocks, state.difficulty, state.canonicalHashes, chain, p, b);
      state.InsertBlock(b, hash);
      if state.difficulty[(b.number, hash)] > state.difficulty[(tip, state.canonicalHashes[tip])] {
        Numbered(r, path);
        Hashes(r, old(state.blocks), state.canonicalHashes, chain);
        forall i | 0 <= i <= ancestor ensures state.canonicalHashes[i] == r.hash(path[i]) {
          assert path[i] == path[..ancestor + 1][i] == chain[..ancestor + 1][i] == chain[i];
        }
        Canonize(ancestor, branch, path);
        NewTip(r, state.blocks, state.difficulty, old(state.canonicalHashes), chain, state.canonicalHashes, path);
        chain := path;
      } else {
        OldTip(state.blocks, state.difficulty, chain, path);
        UnwindLastChanges(ancestor, ancestor + executed, path);
        ReExecuteCanonicalChain(ancestor, tip);
        FollowsReplayed(chain);
      }
      AllValid();
      assert Linked(r, path) && Last(path) == b && chain == if Work(path) > Work(old(chain)) then path else old(chain);
      return Inserted;
    }

    lemma ValidParts()
      requires Valid()
      ensures Sound(r) && StoreOk(r, state.blocks, state.difficulty) && CanonicalOk(r, state.blocks, state.canonicalHashes, chain)
      ensures TipIsBest(state.blocks, state.difficulty, chain) && BadOk(r, badBlocks) && Follows(chain)
      ensures |state.canonicalHashes| == |chain| > 0
      ensures state.Valid() && Replayed(r, chain) == Some(state.State())
    {
    }

    lemma AllValid()
      requires Sound(r) && StoreOk(r, state.blocks, state.difficulty) && CanonicalOk(r, state.blocks, state.canonicalHashes, chain)
      requires TipIsBest(state.blocks, state.difficulty, chain) && BadOk(r, badBlocks) && Follows(chain)
      ensures Valid()
    {
    }
  }

  ghost function WayTo(r: Rules, store: Store, works: map<Id, nat>, id: Id): (path: seq<Block>)
    requires StoreOk(r, store, works) && id in store
    ensures IsWay(r, store, path, id) && id in works && works[id] == Work(path)
  {
    var path :| IsWay(r, store, path, id) && works[id] == Work(path);
    path
  }

  lemma PathOfNew(r: Rules, store: Store, hashes: seq<Hash>, chain: seq<Block>, p: seq<Block>, b: Block)
    requires Sound(r) && CanonicalOk(r, store, hashes, chain)
    requires b.number > 0 && IsWay(r, store, p, (b.number - 1, b.parentHash))
    requires !(b.number < |hashes| && hashes[b.number] == r.hash(b))
    ensures var path := p + [b];
      && Linked(r, path) && Front(path) == p && Last(path) == b && |p| == b.number && Replayed(r, p).Some?
      && Work(path) == Work(p) + b.difficulty
    ensures var a := CanonicalAncestor(store, hashes, b, r.hash(b));
      a.Some? && a.value < b.number && a.value < |chain| && p[..a.value + 1] == (p + [b])[..a.value + 1] == chain[..a.value + 1]
  {
    hide Sound, Replayed;
    LinkedMore(r, p, b);
    AncestorShared(r, store, hashes, chain, p + [b]);
    var a := CanonicalAncestor(store, hashes, b, r.hash(b)).value;
    assert p[..a + 1] == (p + [b])[..a + 1];
  }

  lemma Numbered(r: Rules, path: seq<Block>)
    requires Linked(r, path)
    ensures forall i :: 0 <= i < |path| ==> path[i].number == i
  {
  }

  lemma Hashes(r: Rules, store: Store, hashes: seq<Hash>, chain: seq<Block>)
    requires CanonicalOk(r, store, hashes, chain)
    ensures |hashes| == |chain| && forall i :: 0 <= i < |chain| ==> hashes[i] == r.hash(chain[i])
  {
  }

  /** Storing an executed block keeps what is known of the store; the difficulties decide between two chains only. */
  lemma StoredNew(r: Rules, store: Store, works: map<Id, nat>, hashes: seq<Hash>, chain: seq<Block>, p: seq<Block>, b: Block)
    requires Sound(r) && StoreOk(r, store, works) && CanonicalOk(r, store, hashes, chain) && TipIsBest(store, works, chain)
    requires b.number > 0 && IsWay(r, store, p, (b.number - 1, b.parentHash)) && (b.number - 1, b.parentHash) in works
    requires works[(b.number - 1, b.parentHash)] == Work(p) && Work(p + [b]) == Work(p) + b.difficulty
    requires Linked(r, p + [b]) && Replayed(r, p + [b]).Some? && !(b.number < |hashes| && hashes[b.number] == r.hash(b))
    ensures var id := (b.number, r.hash(b)); var store' := store[id := b]; var works' := works[id := Work(p) + b.difficulty];
      && StoreOk(r, store', works') && CanonicalOk(r, store', hashes, chain) && AllStored(r, store', p + [b])
      && BestOfTwo(store', works', chain, p + [b])
      && (|chain| - 1, hashes[|chain| - 1]) in works' && works'[(|chain| - 1, hashes[|chain| - 1])] == Work(chain)
  {
    hide Replayed, Work, Sound, StoreOk, CanonicalOk, AllStored, Linked, TipIsBest, BestOfTwo;
    var id, path := (b.number, r.hash(b)), p + [b];
    var store', works' := store[id := b], works[id := Work(p) + b.difficulty];
    TipWork(r, store, works, hashes, chain);
    WayStays(r, store, p, (b.number - 1, b.parentHash), id, b);
    PathStored(r, store', p, b);
    StoreStays(r, store, works, id, b, path);
    CanonicalStays(r, store, hashes, chain, id, b);
    TipNotNew(r, store, hashes, chain, b);
    BestStays(store, works, chain, id, b, path);
  }

  lemma AllStays(r: Rules, store: Store, path: seq<Block>, id: Id, b: Block)
    requires Sound(r) && AllStored(r, store, path) && id.1 == r.hash(b)
    ensures AllStored(r, store[id := b], path)
  {
    forall i | 0 <= i < |path| ensures (i, r.hash(path[i])) in store[id := b] && store[id := b][(i, r.hash(path[i]))] == path[i] {
      assert (i, r.hash(path[i])) in store && store[(i, r.hash(path[i]))] == path[i];
    }
  }

  lemma WayStays(r: Rules, store: Store, path: seq<Block>, x: Id, id: Id, b: Block)
    requires Sound(r) && IsWay(r, store, path, x) && id.1 == r.hash(b)
    ensures IsWay(r, store[id := b], path, x)
  {
    AllStays(r, store, path, id, b);
  }

  lemma PathStored(r: Rules, store: Store, p: seq<Block>, b: Block)
    requires b.number > 0 && IsWay(r, store, p, (b.number - 1, b.parentHash)) && Linked(r, p + [b]) && Replayed(r, p + [b]).Some?
    requires (b.number, r.hash(b)) in store && store[(b.number, r.hash(b))] == b
    ensures IsWay(r, store, p + [b], (b.number, r.hash(b))) && AllStored(r, store, p + [b])
  {
    hide Replayed;
    var path := p + [b];
    forall i | 0 <= i < |path| ensures (i, r.hash(path[i])) in store && store[(i, r.hash(path[i]))] == path[i] {
      assert i < |p| ==> (i, r.hash(p[i])) in store && store[(i, r.hash(p[i]))] == p[i];
    }
  }

  lemma StoreStays(r: Rules, store: Store, works: map<Id, nat>, id: Id, b: Block, path: seq<Block>)
    requires Sound(r) && StoreOk(r, store, works) && id.1 == r.hash(b) && IsWay(r, store[id := b], path, id)
    ensures StoreOk(r, store[id := b], works[id := Work(path)])
  {
    hide Sound, Work, IsWay;
    var store', works' := store[id := b], works[id := Work(path)];
    forall x: Id | x in store' ensures x in works' && exists q :: IsWay(r, store', q, x) && works'[x] == Work(q) {
      if x != id {
        var q := WayTo(r, store, works, x);
        WayStays(r, store, q, x, id, b);
      }
    }
  }

  lemma CanonicalStays(r: Rules, store: Store, hashes: seq<Hash>, chain: seq<Block>, id: Id, b: Block)
    requires Sound(r) && CanonicalOk(r, store, hashes, chain) && id == (b.number, r.hash(b)) && b.number > 0
    ensures CanonicalOk(r, store[id := b], hashes, chain)
  {
    hide Sound, Replayed;
    AllStays(r, store, chain, id, b);
  }

  lemma TipNotNew(r: Rules, store: Store, hashes: seq<Hash>, chain: seq<Block>, b: Block)
    requires CanonicalOk(r, store, hashes, chain) && !(b.number < |hashes| && hashes[b.number] == r.hash(b))
    ensures |hashes| == |chain| > 0 && (|chain| - 1, hashes[|chain| - 1]) != (b.number, r.hash(b))
  {
  }

  lemma BestStays(store: Store, works: map<Id, nat>, chain: seq<Block>, id: Id, b: Block, path: seq<Block>)
    requires TipIsBest(store, works, chain)
    ensures BestOfTwo(store[id := b], works[id := Work(path)], chain, path)
  {
    hide Work;
  }

  ghost predicate BestOfTwo(store: Store, works: map<Id, nat>, chain: seq<Block>, path: seq<Block>) {
    forall id: Id :: id in store && id in works ==> works[id] <= Work(chain) || works[id] <= Work(path)
  }

  lemma TipWork(r: Rules, store: Store, works: map<Id, nat>, hashes: seq<Hash>, chain: seq<Block>)
    requires Sound(r) && StoreOk(r, store, works) && CanonicalOk(r, store, hashes, chain)
    ensures var id := (|chain| - 1, hashes[|chain| - 1]); id in store && id in works && works[id] == Work(chain)
  {
    var id := (|chain| - 1, hashes[|chain| - 1]);
    assert id in store;
    var q := WayTo(r, store, works, id);
    OnePath(r, q, chain);
  }

  lemma NewTip(r: Rules, store: Store, works: map<Id, nat>, hashes: seq<Hash>, chain: seq<Block>, hashes': seq<Hash>, path: seq<Block>)
    requires CanonicalOk(r, store, hashes, chain) && BestOfTwo(store, works, chain, path) && Work(path) > Work(chain)
    requires Linked(r, path) && AllStored(r, store, path) && Replayed(r, path).Some?
    requires |hashes'| == |path| && forall i :: 0 <= i < |path| ==> hashes'[i] == r.hash(path[i])
    ensures CanonicalOk(r, store, hashes', path) && TipIsBest(store, works, path)
  {
    hide Replayed, Work;
    assert (0, r.hash(path[0])) in store;
  }

  lemma OldTip(store: Store, works: map<Id, nat>, chain: seq<Block>, path: seq<Block>)
    requires BestOfTwo(store, works, chain, path) && Work(path) <= Work(chain)
    ensures TipIsBest(store, works, chain)
  {
    hide Work;
  }

  lemma AlsoBad(r: Rules, bad: set<Hash>, path: seq<Block>)
    requires BadOk(r, bad) && Linked(r, path) && |path| > 1 && Replayed(r, Front(path)).Some? && Replayed(r, path).None?
    ensures BadOk(r, bad + {r.hash(Last(path))}) && Fails(r, path)
  {
    assert Fails(r, path);
  }

  lemma ParentHash(r: Rules, path: seq<Block>, i: nat)
    requires Linked(r, path) && 0 < i < |path|
    ensures path[i].parentHash == r.hash(path[i - 1])
  {
  }

  lemma NumberAt(r: Rules, path: seq<Block>, i: nat)
    requires Linked(r, path) && i < |path|
    ensures path[i].number == i
  {
  }

  lemma Unchecked(r: Rules, w: Db, b: Block)
    ensures Execute(r, w, b, r.checkRoot).Some? ==> Execute(r, w, b, false).Some?
  {
  }

  /** Every canonical block executes again on the state of the chain below it. */
  lemma CanonicalStep(r: Rules, store: Store, hashes: seq<Hash>, chain: seq<Block>, n: nat)
    requires Sound(r) && CanonicalOk(r, store, hashes, chain) && 0 < n < |chain|
    ensures n < |hashes| && (n, hashes[n]) in store && store[(n, hashes[n])] == chain[n] && chain[n].number == n
    ensures chain[..n] + [chain[n]] == chain[..n + 1] && |chain[..n]| == n
    ensures Replayed(r, chain[..n]).Some?
    ensures var w := Replayed(r, chain[..n]).value;
      Consistent(w) && Execute(r, w, chain[n], false).Some? && Execute(r, w, chain[n], r.checkRoot).Some?
  {
    hide Sound, Replayed, Execute, Consistent, Linked;
    assert Linked(r, chain);
    NumberAt(r, chain, n);
    ReplayedPrefix(r, chain, n);
    ReplayedPrefix(r, chain, n + 1);
    Unchecked(r, Replayed(r, chain[..n]).value, chain[n]);
    ReplayedMore(r, chain[..n], chain[n]);
    assert chain[..n] + [chain[n]] == chain[..n + 1];
  }

  lemma BranchStep(r: Rules, path: seq<Block>, n: nat)
    requires Sound(r) && Linked(r, path) && Replayed(r, Front(path)).Some? && 0 < n < |path|
    ensures path[..n] + [path[n]] == path[..n + 1] && |path[..n]| == n && path[n].number == n
    ensures Replayed(r, path[..n]).Some? && Consistent(Replayed(r, path[..n]).value)
    ensures n < |path| - 1 ==> Execute(r, Replayed(r, path[..n]).value, path[n], r.checkRoot).Some?
    ensures n == |path| - 1 ==> path[..n] == Front(path) && path[..n + 1] == path
    ensures n == |path| - 1 ==> Replayed(r, path) == Execute(r, Replayed(r, path[..n]).value, path[n], r.checkRoot)
  {
    hide Sound, Replayed, Execute, Consistent;
    var front := Front(path);
    ReplayedPrefix(r, front, n);
    assert front[..n] == path[..n];
    ReplayedMore(r, path[..n], path[n]);
    assert path[..n] + [path[n]] == path[..n + 1];
    if n < |path| - 1 {
      ReplayedPrefix(r, front, n + 1);
      assert front[..n + 1] == path[..n + 1];
    } else {
      assert path[..n + 1] == path;
    }
  }

  lemma ExecutionGood(r: Rules, w: Db, b: Block, check: bool)
    requires Sound(r) && Consistent(w)
    ensures r.exec(w, b).None? ==> Execute(r, w, b, check).None?
    ensures r.exec(w, b).Some? ==> var s := r.exec(w, b).value;
      && Transactions.Inv(s) && Backing.Backed(s) && s.db == w && (forall a: Address, k: U256 :: !Resurrected(s, a, k))
      && Execute(r, w, b, check) == (if check && r.root(After(s)) != b.stateRoot then None else Some(After(s)))
  {
    assert r.exec(w, b).Some? ==> GoodExecution(w, r.exec(w, b).value);
  }

  lemma ReplayedMore(r: Rules, path: seq<Block>, b: Block)
    requires path != [] && Replayed(r, path).Some?
    ensures Replayed(r, path + [b]) == Execute(r, Replayed(r, path).value, b, r.checkRoot)
  {
    assert (path + [b])[..|path|] == path;
  }

  lemma UndoneLast(r: Rules, path: seq<Block>, b: Block, d: Diff)
    requires path != [] && Replayed(r, path).Some? && Replayed(r, path + [b]).Some?
    requires Restore(Replayed(r, path + [b]).value, d) == Replayed(r, path).value
    ensures Undone(r, path + [b], |path|, d)
  {
    var q := path + [b];
    assert q[..|path| + 1] == q && q[..|path|] == path;
  }

  lemma OnlyGenesis(r: Rules, genesis: Block, hashes: seq<Hash>)
    requires genesis.number == 0 && hashes == [r.hash(genesis)]
    ensures var store: Store := map[(0, r.hash(genesis)) := genesis]; var works: map<Id, nat> := map[(0, r.hash(genesis)) := genesis.difficulty];
      && StoreOk(r, store, works) && CanonicalOk(r, store, hashes, [genesis]) && TipIsBest(store, works, [genesis])
    ensures Replayed(r, [genesis]) == Some(r.genesis)
  {
    var store: Store := map[(0, r.hash(genesis)) := genesis];
    assert Front([genesis]) == [];
    assert Work([genesis]) == Work(Front([genesis])) + genesis.difficulty;
    assert IsWay(r, store, [genesis], (0, r.hash(genesis)));
  }
}
