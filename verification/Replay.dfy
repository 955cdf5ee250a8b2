/** Chains of blocks, and the state that replaying one from genesis leads to. */
module Replay {
  import opened Basics
  import opened StateTypes
  import opened Journal
  import opened Transactions
  import opened Backing
  import opened StateWrites
  import opened BlockWrites

  datatype Block = Block(number: nat, parentHash: Hash, difficulty: nat, stateRoot: Hash, payload: nat)

  /** Hashing of blocks, execution of a block on a state, and the root of a state. */
  datatype Rules = Rules(hash: Block -> Hash, exec: (Db, Block) -> Option<Ibs>, root: Db -> Hash, checkRoot: bool, genesis: Db)

  /** Execution is a function, ends in a state that a block can reach, and resurrects no slot; hashes do not collide. */
  ghost predicate Sound(r: Rules) {
    && (forall b, c :: r.hash(b) == r.hash(c) ==> b == c)
    && Consistent(r.genesis)
    && (forall w: Db, b: Block :: Consistent(w) && r.exec(w, b).Some? ==> GoodExecution(w, r.exec(w, b).value))
  }

  ghost predicate GoodExecution(w: Db, s: Ibs) {
    Inv(s) && Backed(s) && s.db == w && forall a: Address, k: U256 :: !Resurrected(s, a, k)
  }

  /** The state after a block, if it executes and, when asked for, has the root that it says. */
  function Execute(r: Rules, w: Db, b: Block, check: bool): Option<Db> {
    match r.exec(w, b)
    case None => None
    case Some(s) => if check && r.root(After(s)) != b.stateRoot then None else Some(After(s))
  }

  function Replayed(r: Rules, path: seq<Block>): Option<Db> {
    if |path| <= 1 then Some(r.genesis)
    else match Replayed(r, path[..|path| - 1])
      case None => None
      case Some(w) => Execute(r, w, path[|path| - 1], r.checkRoot)
  }

  /** Blocks from number 0 on, each naming the one before as its parent. */
  ghost predicate Linked(r: Rules, path: seq<Block>) {
    && path != []
    && (forall i :: 0 <= i < |path| ==> path[i].number == i)
    && (forall i, j :: 0 <= i && j == i + 1 && j < |path| ==> path[j].parentHash == r.hash(path[i]))
  }

  function Last(path: seq<Block>): Block
    requires path != []
  {
    path[|path| - 1]
  }

  function Front(path: seq<Block>): seq<Block>
    requires path != []
  {
    path[..|path| - 1]
  }

  /** Total difficulty. */
  function Work(path: seq<Block>): nat {
    if path == [] then 0 else Work(Front(path)) + Last(path).difficulty
  }

  lemma LinkedPrefix(r: Rules, path: seq<Block>, n: nat)
    requires Linked(r, path) && 0 < n <= |path|
    ensures Linked(r, path[..n])
  {
  }

  lemma LinkedMore(r: Rules, path: seq<Block>, b: Block)
    requires Linked(r, path) && b.number == |path| && b.parentHash == r.hash(Last(path))
    ensures Linked(r, path + [b]) && Front(path + [b]) == path && Last(path + [b]) == b
    ensures Work(path + [b]) == Work(path) + b.difficulty
    ensures Replayed(r, path + [b]) == if Replayed(r, path).Some? then Execute(r, Replayed(r, path).value, b, r.checkRoot) else None
  {
    assert Front(path + [b]) == path;
  }

  /** There is only one way from genesis to a block. */
  lemma {:induction false} OnePath(r: Rules, p: seq<Block>, q: seq<Block>)
    requires Sound(r) && Linked(r, p) && Linked(r, q) && Last(p) == Last(q)
    ensures p == q
    decreases |p|
  {
    if |p| > 1 {
      OnePathFront(r, p, q);
      OnePath(r, Front(p), Front(q));
      assert p == Front(p) + [Last(p)] && q == Front(q) + [Last(q)];
    }
  }

  lemma OnePathFront(r: Rules, p: seq<Block>, q: seq<Block>)
    requires Sound(r) && Linked(r, p) && Linked(r, q) && Last(p) == Last(q) && |p| > 1
    ensures |q| == |p| && Linked(r, Front(p)) && Linked(r, Front(q)) && Last(Front(p)) == Last(Front(q))
  {
    assert |p| - 1 == Last(p).number == Last(q).number == |q| - 1;
    LinkedPrefix(r, p, |p| - 1);
    LinkedPrefix(r, q, |q| - 1);
    var i := |p| - 2;
    assert r.hash(p[i]) == p[i + 1].parentHash == q[i + 1].parentHash == r.hash(q[i]);
  }

  /** Prefixes of a chain that replays do too, and only accounts have storage on the way. */
  lemma {:induction false} ReplayedPrefix(r: Rules, path: seq<Block>, n: nat)
    requires Sound(r) && Replayed(r, path).Some? && n <= |path|
    ensures Replayed(r, path[..n]).Some? && Consistent(Replayed(r, path[..n]).value)
    decreases |path|
  {
    hide *;
    if |path| <= 1 {
      ReplayedStart(r, path);
      ReplayedStart(r, path[..n]);
    } else {
      var front := path[..|path| - 1];
      ReplayedStep(r, path);
      if n == |path| {
        ReplayedPrefix(r, front, |front|);
        assert front[..|front|] == front && path[..n] == path;
        ExecuteConsistent(r, Replayed(r, front).value, path[n - 1], r.checkRoot);
      } else {
        ReplayedPrefix(r, front, n);
        assert front[..n] == path[..n];
      }
    }
  }

  lemma ReplayedStart(r: Rules, path: seq<Block>)
    requires Sound(r) && |path| <= 1
    ensures Replayed(r, path) == Some(r.genesis) && Consistent(r.genesis)
  {
  }

  lemma ReplayedStep(r: Rules, path: seq<Block>)
    requires |path| > 1
    ensures var front := path[..|path| - 1];
      Replayed(r, path) == if Replayed(r, front).Some? then Execute(r, Replayed(r, front).value, path[|path| - 1], r.checkRoot) else None
  {
  }

  lemma ExecuteConsistent(r: Rules, w: Db, b: Block, check: bool)
    requires Sound(r) && Consistent(w) && Execute(r, w, b, check).Some?
    ensures Consistent(Execute(r, w, b, check).value)
  {
    var s := r.exec(w, b).value;
    assert GoodExecution(w, s);
    AfterConsistent(s);
  }

  /** A chain replays exactly if every block executes on the state below it and, when roots are checked, ends in the root that it names. */
  lemma {:induction false} ReplaysExactly(r: Rules, path: seq<Block>)
    ensures Replayed(r, path).Some? <==> forall i :: 1 <= i < |path| ==> Executes(r, path, i)
    ensures Replayed(r, path).Some? && |path| > 1 ==> var last := |path| - 1;
      Replayed(r, path[..last]).Some? && Replayed(r, path) == Some(After(r.exec(Replayed(r, path[..last]).value, path[last]).value))
    decreases |path|
  {
    hide After;
    if |path| > 1 {
      var front := path[..|path| - 1];
      ReplaysExactly(r, front);
      forall i | 1 <= i < |front| ensures Executes(r, front, i) <==> Executes(r, path, i) {
        assert front[..i] == path[..i];
      }
      assert Replayed(r, path).Some? <==> Replayed(r, front).Some? && Executes(r, path, |path| - 1);
      if Replayed(r, front).Some? {
        assert forall i :: 1 <= i < |front| ==> Executes(r, front, i);
      }
    }
  }

  ghost predicate Executes(r: Rules, path: seq<Block>, i: nat)
    requires 1 <= i < |path|
  {
    && Replayed(r, path[..i]).Some?
    && var after := r.exec(Replayed(r, path[..i]).value, path[i]);
       after.Some? && (r.checkRoot ==> r.root(After(after.value)) == path[i].stateRoot)
  }
}
