/** The overlay over the tables and the in-memory state answer alike, over any number of blocks. */
module Agreement {
  import opened StateTypes
  import opened Journal
  import opened Transactions
  import opened BlockEnd
  import opened Backing
  import opened StateWrites
  import opened BlockWrites
  import InMemoryState
  import Buffer

  /** Each block runs over the two states and is written to both. */
  method WriteBlocks(buffer: Buffer.Buffer, memory: InMemoryState.InMemoryState, first: nat, blocks: seq<seq<BlockStep>>, ghost db: Db)
    requires memory.Valid() && buffer.View() == db == memory.State() && Consistent(db)
    modifies buffer, memory
    ensures memory.Valid() && buffer.View() == AfterBlocks(db, blocks) == memory.State()
    ensures buffer.txn == old(buffer.txn)
    ensures old(buffer.Covers(db, first - 1)) && buffer.pruneFrom <= first ==> buffer.Covers(db, first - 1)
  {
    hide *;
    var i := 0;
    NoBlocks(db, blocks);
    while i < |blocks|
      invariant 0 <= i <= |blocks| && buffer.txn == old(buffer.txn)
      invariant memory.Valid() && buffer.View() == AfterBlocks(db, blocks[..i]) == memory.State()
      invariant old(buffer.Covers(db, first - 1)) && buffer.pruneFrom <= first ==> buffer.Covers(db, first - 1)
    {
      ghost var now := AfterBlocks(db, blocks[..i]);
      OneBlock(db, blocks, i);
      var s := Play(Fresh(memory.State()), blocks[i]);
      memory.WriteBlock(s, first + i);
      buffer.WriteBlock(s, first + i, db, first - 1);
      i := i + 1;
    }
    assert blocks[..i] == blocks;
  }

  lemma NoBlocks(db: Db, blocks: seq<seq<BlockStep>>)
    ensures AfterBlocks(db, blocks[..0]) == db
  {
  }

  lemma OneBlock(db: Db, blocks: seq<seq<BlockStep>>, i: nat)
    requires i < |blocks| && Consistent(db)
    ensures var s := Play(Fresh(AfterBlocks(db, blocks[..i])), blocks[i]);
      && AfterBlocks(db, blocks[..i + 1]) == After(s)
      && s.db == AfterBlocks(db, blocks[..i]) && Inv(s) && Backed(s) && Consistent(s.db)
  {
    hide Inv, Backed, Play, After, Consistent;
    assert blocks[..i + 1][..i] == blocks[..i];
    PlayedBlock(AfterBlocks(db, blocks[..i]), blocks[i]);
    AfterBlocksConsistent(db, blocks[..i]);
  }
}
