# Verified models of the Akula core

Akula is an Ethereum client written in Rust. This project models, in Dafny, the parts of it whose
correctness cannot be read off a single function, and proves properties of them that hold for every
input and every run.

Five groups of modules follow the program's own structure.

**State trie.** `Nibbles`, `HexPrefix`, `Rlp` and `Trie` state the Merkle-Patricia trie of Appendices B, C
and D of the Yellow Paper as a recursive definition over a finite map. `HashBuilder` is the streaming
builder, field by field and in place; `Spine` and `BuilderInvariant` relate its stack and its masks to the
recursive definition, `TrieRun` covers whole runs. `Substitution` is about branch hashes that stand for
subtries, `StoredNodes` and `TrieNode` about the nodes handed to the collector and their bytes, `InlineBranch`
has a trie whose nodes cannot be collected, `KeyCover`
about the cursor arithmetic and the set of changed keys.

**Journaled state.** `Journal` gives the operations on the write cache as functions, `IntraBlockState` the
same as methods that change fields in place. `Undoing` and `Transactions` show that going back to a
snapshot restores all answers, `Effects` says what each operation does to them, `Backing` and `BlockEnd` add the end of transactions and blocks, `Refunds`
the refund counter, `RefundLaw` how far it moves, in gas, `RefundBlocks` the counter over blocks and `Metering` over the calls of a block's
transactions; `CallResults` what calls and creations leave behind; `Balances`, `Messages`, `Records`, `Removals`, `Outcomes`, `Payments` and
`Processor` are about gas and money.

**States.** `StateWrites` and `BlockWrites` describe what a block sends to a `State` and exactly when its
record takes it back. `InMemoryState` and `Buffer` (with `OverlayModel` and `ChangeSets`) are the two implementations,
`Agreement` runs both over the same blocks, `Promotion` keeps the hashed tables.

**Chain.** `Replay` and `Blockchain` cover reorganisation on top of `InMemoryState`; `Ommers` and
`BaseFee` the consensus rules that speak about whole chains.

**Indexes, files and codecs.** `Bitmaps`, `CallTraces`, `CallTraceStage`, `DataProvider`, `Sorting`, `Collector`,
`AccountCodec`, `FixedWidth`.

## How to read it

- Keccak is a parameter everywhere. It needs no property for the trie; it is injective in `Promotion`, and
  block and header hashes are injective in `Blockchain` and `Ommers`.
- Hash maps are walked in an arbitrary order. Where an order could matter the proofs cover all of them.
- `Db` is what a `State` answers to reads. It holds no zero slot, so two of them are equal exactly when all
  reads agree.
- 16-bit masks are sets of nibbles. Ordered tables are maps with a seek.
- Execution of the virtual machine is any tree of the requests it can make of its host (`Messages.Message`). Code
  stores in the account that it runs in, and below a static call not at all (`Metering.Proper`); that this account
  exists is proved (`Metering.PerformMetered`). `Refunds.Action` and `Transactions.Op` are freer runs, any operations
  in any nesting, in which a store of an absent account does nothing.

## Where the code does not meet the plain claim

- Unwinding a block does not restore a slot that was not zero, whose account the block removed, and that
  the block committed again after the account was created anew: the second entry of the change set replaces
  the first. `BlockWrites.UnwindExact` says that this is the only case, `BlockWrites.ResurrectionHappens`
  gives a block that does it. The change sets of `Buffer` fail to restore a slot only if it also has a value after the block
  (`ChangeSets.BlockPutsBack`, with a block in `ChangeSets.RevivalHappens`).
- `find_next_block` looks at one chunk. It misses later blocks exactly when it is asked for the key of a
  chunk that is not the last one (`Bitmaps.FindNextBlock`, with an input in `Bitmaps.MissedTable`).
- `Collector::iter` does not look at the buffer when a run was flushed before and all entries left in the
  buffer have an empty key and an empty value (`Collector.Collector.Iter`, with a run in `Collector.LostEntry`).
- Touching the address 0x03 is not taken back, on purpose: it is touched afterwards if and only if it was at the
  end of what is taken back (`Transactions.AttemptRestoresAnswers`, with a run in `Transactions.RipemdStaysTouched`).
- With a node collector the trie builder fails on an assertion if and only if some branch of the trie holds another
  branch inline, in less than 32 bytes (`TrieRun.BuildTrie`, with a trie in `InlineBranch.InlineBranchNotWide`).
- A buffer of the right length need not hold a trie node: `unmarshal_node` fails on an assertion of the constructor
  if and only if the buffer is not `TrieNode.WellFormed` (`TrieNode.UnmarshalNode`, with a buffer in
  `TrieNode.RejectedBuffer`).

## Model

| member | source | states |
|---|---|---|
| HexPrefix.EncodePath | src/trie/hash_builder.rs:16-35 | the byte loop yields the hex-prefix form of Appendix C |
| HexPrefix.DecodeEncode | src/trie/hash_builder.rs:16-35 | path and terminator flag can be read back from the encoding, for paths of either parity |
| Rlp.ReadString | src/trie/hash_builder.rs:304-324 | a string is read back by the rules of Appendix B from the front of whatever follows it |
| Rlp.ReadList | src/trie/hash_builder.rs:282-324 | and so is a list |
| HashBuilder.HashBuilder.StackCounts | src/trie/hash_builder.rs:142-275 | between two keys the stack holds as many references as bits are set in `groups` |
| HashBuilder.HashBuilder.constructor | src/trie/hash_builder.rs:75-87 | a new builder stands for the empty trie |
| HashBuilder.HashBuilder.MarkDigit | src/trie/hash_builder.rs:158-167 | the next digit enters the groups, and room for the masks changes nothing they mean |
| HashBuilder.HashBuilder.PushHeld | src/trie/hash_builder.rs:174-197 | the reference of the entry held back, with the rest of its path in it for a leaf; a branch hash marks its digit |
| HashBuilder.HashBuilder.PushAbove | src/trie/hash_builder.rs:199-219 | an extension takes the place of the branch below it, on the stack and in the masks |
| HashBuilder.HashBuilder.CloseBranch | src/trie/hash_builder.rs:225-262 | the branch is folded and collected and only the levels above remain, unless the assertion fails |
| HashBuilder.HashBuilder.TrimGroups | src/trie/hash_builder.rs:269-271 | drops exactly the empty levels at the end |
| HashBuilder.HashBuilder.Retreat | src/trie/hash_builder.rs:225-273 | after closing a branch the invariant holds one level up, or the root is reached; when it fails, a branch that the next key completes holds another one inline |
| HashBuilder.HashBuilder.GenStructStep | src/trie/hash_builder.rs:142-275 | one step closes every subtrie that the next key is not in, leaves the references of the open ones on the stack in order, and ends because `current` gets shorter; it fails if and only if nodes are collected and a branch it completes holds another one inline |
| HashBuilder.HashBuilder.BranchRef | src/trie/hash_builder.rs:277-302 | replaces the references of the children by the one of their branch node and returns the hashes of the children that are branches |
| HashBuilder.BranchItems | src/trie/hash_builder.rs:277-296 | the loop over the sixteen digits lists the children in digit order, with the empty string for the absent ones |
| HashBuilder.HashBuilder.CollectBranch | src/trie/hash_builder.rs:224-256 | hands the collector the node of a branch exactly when it or something below it is worth keeping; the assertion on the length of the references holds exactly when no branch child is inline |
| BuilderInvariant.WideLengths | src/trie/hash_builder.rs:240-243 | the references of the branch children all have 33 bytes if and only if each of these branches takes at least 32 |
| HashBuilder.HashBuilder.AddLeaf | src/trie/hash_builder.rs:89-97 | accepts any later key that is not below the last one and keeps the whole invariant between stack, masks, collected nodes and the recursive definition; the exact condition of a failed assertion |
| HashBuilder.HashBuilder.AddBranchNode | src/trie/hash_builder.rs:99-110 | the same for a branch hash, the one at the empty path included |
| HashBuilder.HashBuilder.RootHash | src/trie/hash_builder.rs:112-131 | the root of everything added, by the recursive definition |
| HashBuilder.HashBuilder.Finalize | src/trie/hash_builder.rs:133-140 | nothing is held back any more and the stack holds the root alone |
| TrieRun.BuildTrie | src/trie/hash_builder.rs:74-302 | for every sorted prefix-free run of leaves and branch hashes the root is that of Appendix D, and the collector gets exactly the nodes worth keeping, children first; with a collector the run fails if and only if a branch of the trie holds another one inline |
| InlineBranch.InlineBranchNotWide | src/trie/hash_builder.rs:240-243 | three leaves whose trie has such a branch, of 22 bytes |
| InlineBranch.FailedRun | src/trie/hash_builder.rs:240-243 | a run over them fails with a collector and gives the root without one |
| TrieRun.WideOnTheWay | src/trie/hash_builder.rs:224-256 | a condition on the finished trie is enough for every step on the way |
| TrieRun.NotWideOnTheWay | src/trie/hash_builder.rs:224-256 | a branch that cannot be collected on the way is still there at the end |
| Substitution.CollapseKeepsRef | src/trie/hash_builder.rs:99-110 | one branch hash in place of all leaves of a subtrie that is a branch of at least 32 bytes leaves the reference of every node above it unchanged |
| Substitution.CollapseKeepsRoot | src/trie/hash_builder.rs:185-219 | and so the root, at the empty path too |
| Substitution.MixKeepsRoot | src/trie/hash_builder.rs:185-219 | any mix of leaves and branch hashes cut from a trie has the root of the leaves alone |
| StoredNodes.NodeAtValid | src/trie/node.rs:15-32 | the node stored for a branch passes the checks of `Node::new`: masks within the state mask and one hash per bit |
| StoredNodes.KeptMasks | src/trie/hash_builder.rs:224-256 | a node is stored at or below a branch exactly when its hash mask or its tree mask is not empty |
| StoredNodes.HashAtRank | src/trie/intermediate_hashes.rs:61-73 | the hash found by counting the bits below a digit is that of the child branch at this digit |
| TrieNode.MarshalNode | src/trie/node.rs:67-89 | three masks, then the root hash if any, then the hashes |
| TrieNode.UnmarshalNode | src/trie/node.rs:91-119 | a node is read if and only if the two masks lie within the state mask and there are as many words as the hash mask asks for or one more; it is the one valid node whose marshalled form the buffer is; otherwise, for whole words, the assertions of the constructor fail |
| TrieNode.RejectedBuffer | src/trie/node.rs:23-25 | a buffer on which they fail, with a hash bit outside of the state mask |
| TrieNode.RoundTrip | src/trie/node.rs:67-119 | every valid node survives the round trip |
| TrieNode.BytesMaskBytes | src/trie/node.rs:67-119 | the two bytes of a mask determine the mask |
| TrieNode.MaskBytesOfMask | src/trie/node.rs:67-119 | every two bytes are those of a mask |
| KeyCover.IncrementKey | src/trie/intermediate_hashes.rs:76-91 | the least path of the same length above all extensions of a key, or none exactly when all nibbles are 15; between the two lie the extensions and nothing else |
| KeyCover.FirstUncoveredPrefix | src/trie/intermediate_hashes.rs:175-186 | from the cursor's key on, resuming at the prefix skips the extensions of the key and no other key, in the byte order of packed keys; there is no prefix exactly when nothing can follow |
| KeyCover.PackedOrder | src/trie/intermediate_hashes.rs:175-186 | byte strings are ordered against a packed path as their nibbles are against the path |
| KeyCover.ResizedBound | src/trie/intermediate_hashes.rs:430-438 | padding the prefix with zeros to the length of a key moves no key to the other side |
| KeyCover.PackNibbles | src/trie/hash_builder.rs:327-347 | packs pairs of nibbles, the last one padded by zero |
| KeyCover.UnpackNibbles | src/trie/hash_builder.rs:349-358 | the inverse on bytes |
| KeyCover.UnpackPacked | src/trie/hash_builder.rs:327-358 | unpacking after packing gives the path back, padded to even length |
| KeyCover.PrefixSet.LowerBound | src/trie/prefix_set.rs:12-18 | the position of the first key not below the prefix |
| KeyCover.PrefixSet.Contains | src/trie/prefix_set.rs:12-18 | looking at the first key not below the prefix decides whether any key extends it |
| KeyCover.PrefixSet.Insert | src/trie/prefix_set.rs:20-22 | adds the key to an ordered set without duplicates |
| Undoing.UndoRefines | src/state/delta.rs:50-114 | taking the same changes back keeps two states that answer alike answering alike, whatever their read caches hold |
| Undoing.StepsCompose | src/state/intra_block_state.rs:524-530 | changes recorded one after the other are taken back in the opposite order |
| Transactions.ApplySteps | src/state/intra_block_state.rs:122-483 | every operation keeps the invariant and records enough to get back, nested attempts included |
| Transactions.RevertRestores | src/state/intra_block_state.rs:524-530 | going back to a snapshot is defined at each entry and restores journal, logs, refund and all answers |
| Transactions.AttemptRestoresAnswers | src/state/intra_block_state.rs:517-530 | for any nested run, the answers of exists, balance, nonce, code hash, both kinds of storage, access sets, self-destructs, logs and refund are those at the snapshot, and so are touched addresses; 0x03 alone is touched afterwards if and only if it was at the end of the run |
| Transactions.UndoKeepsRipemd | src/state/delta.rs:50-114 | no entry of the journal takes the touch of 0x03 back |
| Transactions.RipemdStaysTouched | src/state/intra_block_state.rs:292-300 | a run that only touches an address leaves it touched after it was taken back if and only if the address is 0x03 |
| Effects.NonceSet | src/state/intra_block_state.rs:311-322 | the account has the nonce, all else of it and every other account and slot answer as before |
| Effects.CodeSet | src/state/intra_block_state.rs:359-375 | the same for the code hash |
| Effects.BalanceSet | src/state/intra_block_state.rs:237-253 | the same for the balance |
| Effects.ContractCreated | src/state/intra_block_state.rs:149-189 | the new account keeps the balance alone and all its slots read zero, originals too |
| Effects.Destructed | src/state/intra_block_state.rs:191-202 | account and slots are gone, all others stay |
| Effects.SlotWritten | src/state/intra_block_state.rs:460-483 | the slot reads as written, its original value and all other slots as before; without an account the value waits and all reads stay |
| Effects.SubstateMoves | src/state/intra_block_state.rs:204-400 | what each operation adds to touched, self-destructed and warm accounts, warm slots and logs: at most one element, and nothing that was not asked for |
| Effects.OnlySubstate | src/state/intra_block_state.rs:204-441 | reads, and operations on these sets, leave every account and slot as they are |
| Transactions.FreshInv | src/state/intra_block_state.rs:100-116 | the state in which a block begins satisfies the invariant |
| IntraBlockState.IntraBlockState.LookUp | src/state/intra_block_state.rs:42-62 | finds the cached object or caches the one of the backing state, and records nothing |
| IntraBlockState.IntraBlockState.Ensure | src/state/intra_block_state.rs:64-97 | the account exists afterwards, and its creation is recorded when it did not |
| IntraBlockState.IntraBlockState.DoesExist | src/state/intra_block_state.rs:122-132 | whether there is an account |
| IntraBlockState.IntraBlockState.IsDead | src/state/intra_block_state.rs:135-147 | no account, or one without code, nonce and balance |
| IntraBlockState.IntraBlockState.GetBalance | src/state/intra_block_state.rs:230-236 | the balance, zero without an account |
| IntraBlockState.IntraBlockState.SetBalance | src/state/intra_block_state.rs:237-253 | the new balance, the old one recorded, the account touched |
| IntraBlockState.IntraBlockState.AddToBalance | src/state/intra_block_state.rs:255-271 | the same for an addition modulo 2^256 |
| IntraBlockState.IntraBlockState.SubtractFromBalance | src/state/intra_block_state.rs:273-290 | the same for a subtraction modulo 2^256 |
| IntraBlockState.IntraBlockState.TouchAccount | src/state/intra_block_state.rs:292-300 | touches once, and records it but for 0x03 |
| IntraBlockState.IntraBlockState.ChangeNonce | src/state/intra_block_state.rs:311-322 | the new nonce, the whole object recorded |
| IntraBlockState.IntraBlockState.ChangeCode | src/state/intra_block_state.rs:359-375 | the new code hash, the whole object recorded |
| IntraBlockState.IntraBlockState.RecordSelfDestruct | src/state/intra_block_state.rs:204-208 | recorded the first time only |
| IntraBlockState.IntraBlockState.WarmAccount | src/state/intra_block_state.rs:377-385 | cold exactly the first time, and recorded then |
| IntraBlockState.IntraBlockState.WarmSlot | src/state/intra_block_state.rs:387-400 | cold exactly the first time, and recorded then |
| IntraBlockState.IntraBlockState.Snap | src/state/intra_block_state.rs:517-523 | going back to the snapshot at once changes nothing |
| IntraBlockState.IntraBlockState.NewContract | src/state/intra_block_state.rs:149-189 | keeps only the balance, counts an incarnation, wipes the storage and records all of it |
| IntraBlockState.IntraBlockState.ReadSlot | src/state/intra_block_state.rs:402-441 | pending value, committed value, zero after an incarnation, or the backing value, which is cached |
| IntraBlockState.IntraBlockState.WriteSlot | src/state/intra_block_state.rs:460-483 | a pending value and its undo entry, unless nothing changes |
| IntraBlockState.IntraBlockState.RevertDelta | src/state/delta.rs:50-114 | every arm, with the entries it unwraps present |
| IntraBlockState.IntraBlockState.RevertTo | src/state/intra_block_state.rs:524-530 | the loop over the journal reaches the state of the specification and never unwraps a missing entry |
| IntraBlockState.IntraBlockState.Destruct | src/state/intra_block_state.rs:191-202 | counts an incarnation, drops storage and account |
| IntraBlockState.IntraBlockState.FinalizeTransaction | src/state/intra_block_state.rs:532-539 | the two loops move every pending value to the committed ones |
| IntraBlockState.CommitPending | src/state/intra_block_state.rs:534-537 | a pending value becomes the original one and keeps the initial one, zero if there was none |
| BlockEnd.CleanSlate | src/state/intra_block_state.rs:542-553 | accounts and slots answer as before, nothing is warm, touched or self-destructed, and there is nothing to take back |
| IntraBlockState.IntraBlockState.ClearJournalAndSubstate | src/state/intra_block_state.rs:542-553 | the same of the object: all reads stay, all sets are empty, and a snapshot taken now is the first one |
| BlockEnd.DestructInv | src/state/intra_block_state.rs:191-202 | removing an account keeps the invariant though it is not recorded |
| BlockEnd.FinalizeInv | src/state/intra_block_state.rs:532-539 | finalizing keeps the invariant and leaves nothing pending |
| BlockEnd.PlayInv | src/state/intra_block_state.rs:191-224 | the invariant holds in every state that any sequence of transactions, removals and finalizations reaches |
| BlockEnd.FinalizeKeepsCurrent | src/state/intra_block_state.rs:532-539 | what was current in a transaction is original and current in the next |
| BlockEnd.WriteCalls | src/state/intra_block_state.rs:485-515 | the calls of the write are the erasures, the committed slots of living accounts and all cached accounts, each once |
| Backing.PlayBacked | src/state/intra_block_state.rs:42-97 | storage is cached only with its account, through all runs and undos |
| Refunds.ActCovered | src/execution/evm.rs:398-488 | each action, a reverted frame or a new contract included, keeps the counter at the clearing refund times the number of cleared slots or above, and slots of absent accounts at zero |
| Refunds.RefundNeverUnderflows | src/execution/evm.rs:398-488 | over any run from such a state, in any revision, no subtraction from the refund counter underflows |
| RefundBlocks.BlockNeverUnderflows | src/execution/evm.rs:398-488 | over any block, on any state, in any revision: every transaction starts in such a state and none of its subtractions underflows |
| RefundBlocks.TxnBetween | src/state/intra_block_state.rs:191-224 | a transaction with its removals and its end leaves nothing pending and no storage without an account |
| Metering.PerformMetered | src/execution/evm.rs:103-488 | for every tree of calls in which code stores in the account that it runs in: each store has an account, and no subtraction from the refund counter underflows, in any revision |
| Metering.ExecutedMetered | src/execution/processor.rs:127-203 | a transaction starts with the counter covered and leaves nothing pending and no storage without an account |
| Metering.BlockMetered | src/execution/processor.rs:205-218 | so it is over all transactions of a block |
| Refunds.StoreCovered | src/execution/evm.rs:398-488 | one storage write of an account that exists keeps the counter at or above what may be taken back; how far it moves is in `RefundLaw` |
| Refunds.ActsInTurn | src/execution/evm.rs:340-488 | the actions of a run are taken one after the other |
| RefundLaw.StoreRefund | src/execution/evm.rs:398-488 | one storage write: the slot has the new value, no other answer of accounts and slots differs, and the counter moves by the amounts of gas of the revision, written out: 15000 or 4800 for a cleared slot, 19800, 19200 or 19900 for a return to zero, 4800, 4200 or 2800 for a return to another value |
| RefundLaw.SlotRefunds | src/execution/evm.rs:398-488 | over any writes to a slot the net refund depends only on its original value, its values before and after, and how often it returned to the original one; without net metering on how often it was cleared |
| RefundLaw.StoresRefund | src/execution/evm.rs:398-488 | over any writes to any slots the counter follows the number of cleared slots and gains what the returns earn |
| RefundLaw.RunFollows | src/execution/evm.rs:398-488 | the same, exactly, over any run: frames that are taken back gain nothing, and a new contract keeps what its wiped slots were worth |
| Balances.SupplyPut | src/state/intra_block_state.rs:237-290 | changing one balance changes the sum of all by the difference |
| Balances.QuietBalances | src/state/intra_block_state.rs:149-189 | no other operation on the state moves money |
| Messages.CallAccounted | src/execution/evm.rs:222-337 | whether it is kept or taken back, a call keeps the sum of balances but for what was burned, without underflow, and can be undone |
| Messages.CreationAccounted | src/execution/evm.rs:103-219 | the same for a creation |
| CallResults.CallStart | src/execution/evm.rs:222-296 | exactly when the code of a call runs, and on what: the value moved from caller to recipient, or the recipient touched, or nothing changed; no other answer differs |
| CallResults.CallUndone | src/execution/evm.rs:231-337 | a call that is refused, has nothing to run, or fails leaves every answer as it was, but for 0x03 being touched |
| CallResults.CallKept | src/execution/evm.rs:298-337 | a call that runs and succeeds leaves what its code leaves on that start |
| CallResults.PaymentMoves | src/execution/evm.rs:283-318 | a successful call without code moves exactly its value, touches both accounts and changes no other answer |
| CallResults.CreationStart | src/execution/evm.rs:103-166 | exactly when the code of a creation runs, and on what: nonce of the creator up, address warm, endowment moved, the contract with nonce 0 or 1, no code and no storage |
| CallResults.CreationRefused | src/execution/evm.rs:111-115 | a creation that cannot be paid for leaves every answer as it was |
| CallResults.CreationUndone | src/execution/evm.rs:117-219 | a creation at an address in use, or one that deploys nothing, leaves the nonce of the creator raised and the address warm, and no other answer differs |
| CallResults.CreationKept | src/execution/evm.rs:182-219 | a creation that deploys code leaves what its code leaves on that start, and the contract with this code |
| CallResults.DestroyEffect | src/execution/evm.rs:523-533 | where the money goes, that the account is recorded and both are touched; no other answer differs |
| CallResults.ServedInTurn | src/execution/evm.rs:340-396 | requests are served in the order in which they are made, each where the one before left the state |
| CallResults.RequestEffect | src/execution/evm.rs:340-396 | reads, warming and logs leave accounts and slots alone and add exactly what was asked for |
| CallResults.StoreEffect | src/execution/evm.rs:398-488 | a store changes its slot and no other answer of accounts and slots |
| Messages.DestroyAccounted | src/execution/evm.rs:523-533 | a self-destruct loses money only when the beneficiary is the account itself |
| Messages.TransferMoves | src/execution/evm.rs:285-296 | the value leaves the sender and reaches the recipient, one account being both included |
| Messages.DestroyMoves | src/execution/evm.rs:523-528 | the account is left with nothing and another beneficiary gets all it had |
| Records.PerformRecorded | src/execution/evm.rs:103-337 | for every tree of requests, taken back in parts or not: nonces do not fall, accounts do not vanish, and money is burned only if an account is recorded as self-destructed |
| Records.CreationRecorded | src/execution/evm.rs:103-219 | the creator's nonce goes up for good once it owns the endowment |
| Records.TransferOnward | src/execution/evm.rs:284-296 | after the transfer of a call the recipient exists, so that its stores have an account |
| Records.NewAccountOnward | src/execution/evm.rs:153-161 | and so does a created contract |
| Messages.PerformAccounted | src/execution/evm.rs:103-337 | for every tree of requests the sum of balances falls by what self-destructs burned and all arithmetic is exact, below a supply of 2^255 |
| Outcomes.RefundGas | src/execution/processor.rs:290-313 | the refund due, before London with 24000 for each self-destruct, capped at one half, from London on one fifth, of the gas used, and no less than both allow |
| Outcomes.EffectiveGasPrice | src/models/transaction.rs:772-782 | at least the base fee and at most what the sender offered, the base fee plus the priority fee |
| Outcomes.PriorityFee | src/models/transaction.rs:772-778 | at most what the sender allows for it and, with the base fee, for both, and one of the two exactly |
| Processor.BuyGas | src/execution/processor.rs:127-154 | the state in which the interpreter starts |
| Outcomes.BoughtMoney | src/execution/processor.rs:127-154 | what validation checked is enough to pay for the gas without underflow, and only the sender pays |
| Outcomes.BoughtWarm | src/execution/processor.rs:127-154 | exactly sender, recipient and access list are warm, the nonce of a sender that calls is the next one, and no other nonce changes |
| Processor.WarmUp | src/execution/processor.rs:143-154 | the loop does what the operations of the prelude do in turn |
| Processor.PayGas | src/execution/processor.rs:176-185 | both payments in turn |
| Outcomes.PayOutMoney | src/execution/processor.rs:176-185 | the sender gets back the price of the gas left, the miner the priority fee for the gas used, nobody else anything, without overflow |
| Processor.PayRewards | src/execution/processor.rs:220-229 | the rewards in turn |
| Outcomes.RewardedMoney | src/execution/processor.rs:220-229 | every address gets its rewards and the supply grows by them |
| Processor.DestructSelfdestructs | src/state/intra_block_state.rs:209-215 | whatever the order of the set, the state with all of them removed |
| Processor.DestructTouchedDead | src/state/intra_block_state.rs:216-224 | whatever the order of the set, all touched accounts looked up and exactly the empty ones removed |
| Removals.EndAnswers | src/state/intra_block_state.rs:191-224 | self-destructed accounts, and from Spurious Dragon on touched empty ones, are gone with their slots; all else answers in the next transaction as at the end of this one |
| Removals.DeadIs | src/state/intra_block_state.rs:135-147 | empty is an account without nonce, balance and code, or none |
| Removals.EndSupply | src/state/intra_block_state.rs:209-224 | the supply falls by what the self-destructed accounts owned, and by nothing else |
| Processor.ExecutionProcessor.ValidateTransaction | src/execution/processor.rs:71-125 | accepts exactly senders without code, with the right nonce, enough money for gas and value, and gas left in the block; which of these fails first |
| Outcomes.ExecutedMoney | src/execution/processor.rs:127-203 | a transaction takes the base fee for the gas it used and what was burned from the supply |
| Outcomes.ExecutedBalances | src/execution/processor.rs:127-203 | every balance after a transaction, from those the interpreter left |
| Payments.SimpleOutcome | src/execution/processor.rs:127-203 | every balance after a transaction that runs no code or fails: price of the gas used and value from the sender, value to the recipient if it succeeded, priority fee to the miner, nothing else |
| Payments.CodeOfTransaction | src/execution/evm.rs:46-93 | what any successful transaction leaves before gas is paid back: what its code leaves, from where the call or creation it makes starts |
| Outcomes.NothingBurned | src/execution/processor.rs:127-203 | without a self-destruct nothing is burned |
| Outcomes.NonceRaised | src/execution/processor.rs:127-203 | the nonce of the sender is above the one of the transaction, unless it destroyed itself |
| Processor.ExecutionProcessor.ExecuteTransaction | src/execution/processor.rs:127-203 | state, gas used and money burned are those of the specification: gas bought, calls performed, refund, payments and removals in turn; so the supply falls by gas used times base fee and by what self-destructs burned, and the nonce is raised |
| Processor.ExecutionProcessor.ExecuteBlock | src/execution/processor.rs:205-232 | succeeds if and only if every transaction is acceptable where it stands; state, receipts and burned money are those of the transactions in turn; cumulative gas does not fall and stays within the block's limit, the supply changes by rewards, base fees and burns only, and no refund subtraction underflows |
| Outcomes.AfterTxnsMoney | src/execution/processor.rs:205-218 | gas and money over any number of transactions |
| StateWrites.StorageUpdates | src/state/in_memory_state.rs:332-355 | any sequence of storage calls for different slots writes each and records what the caller said was there |
| StateWrites.Erasures | src/state/in_memory_state.rs:244-261 | any sequence of erasures drops and records exactly the slots of the addresses named |
| StateWrites.AccountUpdates | src/state/in_memory_state.rs:308-324 | any sequence of account calls for different addresses writes each and records what the caller said was there |
| BlockWrites.BlockEffect | src/state/intra_block_state.rs:485-515 | effect and record of all calls of a block, in any order of the maps |
| BlockWrites.PlayedBlock | src/state/intra_block_state.rs:485-515 | what these statements ask of a block's state holds of every state that a block reaches |
| BlockWrites.BlockInformed | src/state/intra_block_state.rs:485-515 | every call of a block names the value that the `State` holds at that moment, in any order of the maps |
| BlockWrites.WrittenAnswers | src/state/intra_block_state.rs:485-515 | afterwards the `State` answers all reads as the block's state did |
| BlockWrites.WritesReachAfter | src/state/intra_block_state.rs:485-515 | the outcome does not depend on the order in which the maps are walked |
| BlockWrites.UnwindExact | src/state/in_memory_state.rs:192-219 | the record puts back every account, and a slot if and only if the block did not resurrect it |
| BlockWrites.ResurrectionHappens | src/state/in_memory_state.rs:244-261 | a block whose record does not put a slot back: an account with storage destroys itself, and a later transaction creates it again and writes the slot |
| InMemoryState.InMemoryState.EraseStorage | src/state/in_memory_state.rs:244-261 | drops the slots of an address and records them under the current block only |
| InMemoryState.InMemoryState.UpdateStorage | src/state/in_memory_state.rs:332-355 | writes or removes a slot and records the value before |
| InMemoryState.InMemoryState.UpdateAccount | src/state/in_memory_state.rs:308-324 | writes or removes an account and records the one before |
| InMemoryState.InMemoryState.ReadAccount | src/state/in_memory_state.rs:226-228 | the stored account, if any |
| InMemoryState.InMemoryState.ReadStorage | src/state/in_memory_state.rs:234-242 | the stored value, zero if there is none |
| InMemoryState.InMemoryState.InsertBlock | src/state/in_memory_state.rs:103-145 | stores the block and its total difficulty, with a parent unknown to count as zero |
| InMemoryState.InMemoryState.CanonizeBlock | src/state/in_memory_state.rs:177-186 | the number has this canonical block, and no other number that has one loses it |
| InMemoryState.InMemoryState.DecanonizeBlock | src/state/in_memory_state.rs:188-190 | from the number on there is no canonical block, below it they stay |
| InMemoryState.InMemoryState.UnwindStateChanges | src/state/in_memory_state.rs:192-219 | puts the recorded values back and forgets the record of this block and no other |
| InMemoryState.InMemoryState.WriteBlock | src/state/intra_block_state.rs:485-515 | the state becomes what the block left, and unwinding it is exact unless a slot was resurrected |
| InMemoryState.PutBack | src/state/in_memory_state.rs:192-219 | the two loops restore what the change sets hold |
| Replay.OnePath | src/consensus/blockchain.rs:232-271 | only one chain leads from genesis to a block |
| Replay.ReplayedPrefix | src/consensus/blockchain.rs:189-215 | every prefix of a chain that replays does too |
| Replay.ReplaysExactly | src/consensus/blockchain.rs:149-187 | a chain replays if and only if every block executes on the state below it and, when roots are checked, ends in the root that it names |
| Blockchain.AncestorShared | src/consensus/blockchain.rs:274-291 | the recursion finds the highest canonical block on the way to a block, and below it both chains are the same |
| Blockchain.BadFailsAgain | src/consensus/blockchain.rs:68-70 | a block remembered as bad fails on every chain it can be offered on |
| Blockchain.StoredNew | src/consensus/blockchain.rs:114-128 | storing an executed block keeps all that is known of the store; only two chains can now be the heaviest |
| Blockchain.CanonicalStep | src/consensus/blockchain.rs:189-215 | every canonical block executes again on the state of the chain below it |
| Blockchain.Blockchain.constructor | src/consensus/blockchain.rs:35-53 | a chain of the genesis block alone satisfies the invariant |
| Blockchain.Blockchain.UnwindLastChanges | src/consensus/blockchain.rs:217-230 | the live state becomes that of the ancestor |
| Blockchain.Blockchain.ExecuteBlock | src/consensus/blockchain.rs:149-187 | moves the live state along by one block, or leaves it where it was when the block or its root is wrong |
| Blockchain.Blockchain.ReExecuteCanonicalChain | src/consensus/blockchain.rs:189-215 | never fails and leads back to the tip |
| Blockchain.Blockchain.IntermediateChain | src/consensus/blockchain.rs:232-271 | exactly the stored blocks between ancestor and parent, oldest first |
| Blockchain.Blockchain.ExecuteBranch | src/consensus/blockchain.rs:92-112 | only the new block can fail |
| Blockchain.Blockchain.Canonize | src/consensus/blockchain.rs:130-138 | the canonical hashes become those of the branch on top of the shared part |
| Blockchain.Blockchain.InsertBlock | src/consensus/blockchain.rs:55-147 | the exact conditions of an unknown parent, a refusal by the engine and a known bad block, in this order; whatever the outcome: the live state is the replay of the canonical chain, canonical hashes are linked from genesis, the tip has the highest total difficulty of all stored blocks, and bad blocks fail |
| OverlayModel.ThroughReads | src/state/buffer.rs:101-132 | reads through the overlay answer as one state |
| OverlayModel.EraseRecords | src/state/buffer.rs:134-187 | an erasure records every slot that was not zero, with the value that reads gave, whether it came from the overlay or the table; which entries it adds or replaces, and no other |
| ChangeSets.HoldsMore | src/state/buffer.rs:134-284 | what the change set of a block holds after any calls in the order of a block: the replaced value of every slot and account that a call altered, for other erased slots the value before the block, and nothing else of storage |
| ChangeSets.BlockOrderly | src/state/intra_block_state.rs:485-515 | a block makes its calls in such an order, whichever way the maps are walked |
| ChangeSets.BlockPutsBack | src/state/buffer.rs:134-284 | the change set of a block puts back every account, and a slot if and only if it does not have a value again after its account was removed |
| ChangeSets.RevivalHappens | src/state/buffer.rs:256-284 | a block whose change set does not put a slot back |
| Buffer.Buffer.ReadStorage | src/state/buffer.rs:122-132 | overlay, then erased marker, then table |
| Buffer.Buffer.ReadAccount | src/state/buffer.rs:101-107 | overlay, then table |
| Buffer.Buffer.EraseStorage | src/state/buffer.rs:134-187 | the address has no slot any more, and which entries the change set of the block gets |
| Buffer.Buffer.UpdateAccount | src/state/buffer.rs:223-248 | the account is replaced, and when the change set gets an entry |
| Buffer.Buffer.UpdateStorage | src/state/buffer.rs:256-284 | the slot is replaced, and when the change set gets an entry |
| Buffer.Buffer.WriteBlock | src/state/buffer.rs:218-284 | reads become what the block left; whatever reads differently than in the tables has a change-set entry; the change set of a block puts the state before it back unless a slot was revived |
| Buffer.Buffer.WriteHistory | src/state/buffer.rs:292-337 | moves the change sets to their tables and loses no entry |
| Buffer.Buffer.WriteToDb | src/state/buffer.rs:339-403 | afterwards the tables alone answer as the overlay did |
| Buffer.WriteAccounts | src/state/buffer.rs:347-365 | writes or deletes exactly the accounts of the overlay |
| Buffer.WriteSlots | src/state/buffer.rs:373-395 | the table of slots answers as the overlay did |
| Buffer.WriteAddress | src/state/database.rs:23-41 | discards the erased slots of an address before putting those of the overlay, touching no other address |
| Agreement.WriteBlocks | src/state/buffer.rs:101-284 | over any sequence of blocks, with accounts erased and created again across them, both implementations answer every read alike |
| Promotion.OneAccountMirror | src/stages/hashstate.rs:18-46 | a state has one table of hashed accounts |
| Promotion.OneSlotMirror | src/stages/hashstate.rs:48-76 | a state has one table of hashed storage |
| Promotion.PromoteCleanAccounts | src/stages/hashstate.rs:18-46 | the rebuilt table mirrors the accounts |
| Promotion.PromoteCleanStorage | src/stages/hashstate.rs:48-76 | the rebuilt table mirrors the storage |
| Promotion.PromoteAccounts | src/stages/hashstate.rs:78-101 | updating what the change sets name turns a mirror of the old state into one of the new |
| Promotion.PromoteStorage | src/stages/hashstate.rs:103-135 | the same for storage, slots that became zero included |
| Promotion.ExecuteAndPromote | src/stages/hashstate.rs:162-201 | executing blocks, writing them and promoting incrementally gives the tables of a clean rebuild |
| Ommers.KinBranches | src/consensus/base.rs:113-155 | a header found to be kin is a sibling of one of the given generations, and what has been met is exactly what was met before and the ommers of the blocks from its number on; otherwise nothing but ommers of the blocks visited |
| Ommers.BranchIsKin | src/consensus/base.rs:113-155 | and every such sibling is found when the chain is stored |
| Ommers.PreValidateBlock | src/consensus/base.rs:205-269 | the checks in order accept exactly the blocks whose hashes fit, whose ommers are all valid and whose transactions pass their own checks; what each error means |
| Ommers.AcceptedExactly | src/consensus/base.rs:205-269 | on a stored chain: accepted if and only if hashes and transactions are in order and there are at most two ommers, different ones, each valid on a block of the chain, beside one of the last six blocks, and named by none of the blocks from there on |
| Ommers.PreValidateTransaction | src/consensus/mod.rs:153-176 | accepts exactly transactions of this chain, or of none, that offer the base fee and no higher priority fee than their maximum |
| Ommers.OmmerBeside | src/consensus/base.rs:228-269 | an accepted ommer lies beside one of the six blocks below and was named by none of them |
| Ommers.NoHeaderCountsTwice | src/consensus/base.rs:228-269 | along a chain of accepted blocks no header is an ommer twice, nor an ommer and a block of the chain |
| Ommers.Finalize | src/consensus/ethash/mod.rs:104-139 | who is paid what, with ommer rewards in exact eighths |
| Ommers.OmmersPaid | src/consensus/ethash/mod.rs:104-139 | in accepted blocks the subtraction cannot underflow and an ommer gets between a quarter and seven eighths of the reward |
| BaseFee.FeeStep | src/consensus/base.rs:162-203 | the exact step: unchanged at the target; above it up by the share of the gas above, an eighth of it rounded down, one at least; below it down by the share of the gas left, rounded down; never below 7 wei from 7 on |
| BaseFee.AcceptedExactly | src/consensus/base.rs:40-93 | exactly which headers are accepted on a parent: clock, gas used, limits, extra data, time, drift of the gas limit and base fee |
| BaseFee.FirstError | src/consensus/base.rs:40-93 | which check of a header fails first |
| BaseFee.FeeNeverTooLow | src/consensus/base.rs:40-93 | along accepted headers from the fork on the fee is at least 7 wei and the target that divides is not zero |
| BaseFee.FeeMoves | src/consensus/base.rs:162-203 | and so it moves from header to header, from 1000000000 wei at the fork |
| BaseFee.TimeAdvances | src/consensus/base.rs:65-71 | timestamps increase strictly along accepted headers |
| BaseFee.GasLimitDrifts | src/consensus/base.rs:40-85 | the gas limit stays within its bounds and moves by less than one in 1024, from the doubled limit at the fork |
| Bitmaps.Chunks.Next | src/bitmapdb/mod.rs:65-106 | cuts off the smallest elements, as many as fit, and leaves larger ones |
| Bitmaps.ChunksWithKeys | src/bitmapdb/mod.rs:124-140 | cuts any set into ordered, disjoint, non-empty chunks that fit, when single elements fit |
| Bitmaps.KeysIncrease | src/bitmapdb/mod.rs:124-140 | the keys increase and bound their chunks |
| Bitmaps.TakeFitting | src/bitmapdb/mod.rs:75-101 | the loop takes the longest run of smallest elements that fits, and at least one |
| Bitmaps.PutChunks | src/stages/call_trace_index.rs:209-222 | putting the chunks replaces the open one and keeps the order |
| Bitmaps.AddBlocks | src/stages/call_trace_index.rs:199-224 | adding later blocks keeps the table in order and adds exactly them |
| Bitmaps.Get | src/bitmapdb/mod.rs:13-52 | agrees with the whole set on the range that was asked for |
| Bitmaps.FindNextBlock | src/accessors/state.rs:90-118 | finds the least later block if and only if it is not asked for the key of a chunk that is followed by another |
| Bitmaps.MissedTable | src/accessors/state.rs:90-118 | a table and a query for which the next block is missed |
| Bitmaps.MissedBlock | src/accessors/state.rs:90-118 | and how such a table comes about |
| CallTraces.Collect | src/stages/call_trace_index.rs:56-104 | what is collected does not depend on the flush interval |
| CallTraces.Flush | src/stages/call_trace_index.rs:65-72 | draining loses no block |
| CallTraces.LoadCallTraces | src/stages/call_trace_index.rs:167-229 | joins the parts of an address and adds them, keeping all tables in order |
| CallTraceStage.Execute | src/stages/call_trace_index.rs:39-121 | every address gets exactly the blocks that it was traced in, for any flush interval and buffer capacity, with the parts sorted as bytes through files on the way |
| CallTraceStage.LeValue | src/etl/collector.rs:49-56 | addresses are ordered as their bytes are |
| DataProvider.DataProvider.constructor | src/etl/data_provider.rs:28-54 | the file holds the frames of all entries |
| DataProvider.DataProvider.ToNext | src/etl/data_provider.rs:56-78 | reads the entries back one by one |
| DataProvider.FrameParts | src/etl/data_provider.rs:28-78 | a frame can be told apart from what follows it, whatever its bytes |
| Collector.Merge | src/etl/collector.rs:81-106 | merging sorted runs through a heap of their heads gives all entries in order |
| Collector.Anchor | src/etl/collector.rs:86-94 | the heap holds the first entry of every run |
| Collector.TakeHead | src/etl/collector.rs:97-105 | taking the least head keeps the output sorted, below all that is left, and loses nothing |
| Sorting.OneSorted | src/etl/collector.rs:49-56 | there is only one sorted sequence of given entries |
| Collector.Collector.Flush | src/etl/collector.rs:49-56 | turns the buffer into a sorted run |
| Collector.Collector.Push | src/etl/collector.rs:58-66 | adds one entry, flushed or not |
| Collector.Collector.Iter | src/etl/collector.rs:68-109 | sorted output that holds everything if and only if no unflushed entries without bytes are left behind a flushed run |
| Collector.LostEntry | src/etl/collector.rs:58-80 | a run in which an entry without a byte is lost |
| Collector.SortAll | src/etl/collector.rs:49-109 | with non-empty encodings the output is the sorted input for every buffer capacity |
| AccountCodec.BytesToU64 | src/models/account.rs:47-54 | the array filled from its low end holds the big-endian value |
| AccountCodec.EncodeForStorage | src/models/account.rs:75-104 | flags and parts without zeros in front, within the room that there is: the one encoding of the account |
| AccountCodec.DecodeForStorage | src/models/account.rs:106-132 | an account is found if and only if the flags and the length fit each other, and it is the one that the bytes represent; other bytes are malformed, where the source stops or panics |
| AccountCodec.RoundTrip | src/models/account.rs:75-132 | every account survives the round trip |

## Left out

- Contract code: accounts carry their code hash only; the code tables and `read_code` are not modelled.
- Bytes of RLP headers for payloads of 2^64 bytes and more, which the format does not have.
- The scratch buffer of the trie builder; byte strings are values.
- 64-bit wrap-around of nonces, refunds, incarnations, gas counters and total difficulty, and of the product in the base fee: these are unbounded. Balances wrap, and do not get there.
- The walk of the trie cursor and the loader around it, apart from the key arithmetic and the substitution of branch hashes.
- Unwinding of the execution, hashed-state and call-trace stages on tables, and pruning; reorganisation goes through the in-memory state.
- Historical reads through change sets.
- The interpreter, precompiled contracts, their gas, and intrinsic gas: the requests made of the host and the gas left are inputs.
- Signatures, seals, difficulty formulas, receipts, blooms and header fields without a hard property.
- Changes of balances at irregular blocks.
- Database, network and RPC: tables are maps, errors of the store do not happen.
- Blockchain.Blockchain.InsertBlock: errors other than a block that does not execute or has the wrong root do not occur, blocks that execute resurrect no slot (otherwise unwinding is not exact), and the block is not canonical already, since the length of the branch underflows for one that is; the blocks of the number-indexed vectors are kept in maps by number and hash.
- Blockchain.Blockchain.IntermediateChain: the vector of pairs with hashes is one of blocks, as the hash is a function of the block.
- Buffer.Buffer.EraseStorage: the walk over the table's duplicates is a map union.
- Collector.Merge: the order in which equal entries of different files are taken is not stated; the entries are equal.
- Bitmaps.FindNextBlock: the table is that of one index key; a seek that ends at another key is a seek that finds nothing.
- CallResults.CreationKept: before Homestead a creation that cannot pay for its code succeeds without it; this is code with the empty hash here.
- Messages.PerformAccounted: depth limits and gas of calls are part of the input tree.
