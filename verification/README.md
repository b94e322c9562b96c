# Verified models of the consensus specification helpers

This project models the stateful and arithmetic parts of the Python code around the Ethereum
proof-of-stake consensus specification, and proves what that code is for. Each module follows one
component of the repository.

- **Light client data** (`LightClient*.dfy`, `BlockTree.dfy`). A store with two actions, adding a
  block and selecting a head, over a block tree. It keeps a per-block cache, a database by sync
  committee period, an index of finalized blocks, and prunes. `LightClientModel` has each operation
  as a function from store to store, `LightClientStore` has them as methods that update dictionaries
  in place and are proved equal to those functions, and the other modules prove the invariant, its
  preservation over all runs, and what the store serves. Two results are exact conditions for
  behaviour that differs from what one would expect: selecting a head raises when its state still
  names a finalized block that has been pruned, and a committee lookup advances a saved state in
  place, so that an earlier period can be recorded with the committee of a later one. Both happen on
  runs from genesis (`LightClientExamples`). The saved states are shared objects in the original;
  runs with sharing are proved to be the same (`LightClientSharing`).
- **Merkle trees** (`Merkle*.dfy`, `GeneralizedIndices.dfy`). The streaming algorithm over its
  scratch list, the layered trees, branches, deposits and generalized indices, over any hash of
  pairs; both algorithms give the same root, and both ways to build a proof the same proof.
- **Group Fourier transform** (`ModularArithmetic.dfy`, `Kzg*.dfy`). The in-place transform, the
  Lagrange form of a setup, and the agreement of commitments in both forms. A point is its discrete
  logarithm modulo the group order. That the order has a root of unity of the right order and an
  inverse of the length are hypotheses; primality is not used.
- **Class ordering** (`Dependency*.dfy`). The ordered dictionary, the ordering pass, and the loop
  that repeats it. For cyclic dependencies the loop can stop in a wrong order or not stop at all;
  both are shown on concrete classes, and acyclicity is proved to be the exact condition.
- **Optimistic sync** (`Optimistic*.dfy`). Payload statuses as shared mutable objects, the
  invalidation of a chain segment, and the head that avoids it.
- **Fork transitions** (`Fork*.dfy`). The loop that jumps from fork to fork, against a reference run
  that processes one slot at a time. A block that is asked for is not always made; the exact
  condition is proved.
- **SSZ dumps** (`Ssz*.dfy`). Encoding to plain data and decoding, with and without hash tree roots:
  what a dump looks like, what can be read and as which value, the round trip, and exactly when field
  names that clash with those of roots spoil it.
- **Sync committee rewards** (`Sync*.dfy`). Nested floors, sums over validators, the validation of
  processed balances, and the exact condition under which it agrees with processing seat by seat.

`dafny verify dfyconfig.toml` checks the whole project.

## Model

| member | source | states |
|---|---|---|
| `LightClientReachable.EveryRunIsSafe` | `tests/core/pyspec/eth2spec/test/helpers/light_client_data_collection.py:566-710` | Over every run of allowed `add_new_block` and `select_new_head` actions from genesis no store operation raises, and the store reached agrees with the chain in every cache, index and pruned dictionary, with no stored state ever advanced. The finalized header inside an update, whose construction at lines 292-312 can raise, is not built. |
| `LightClientReachable.EveryRunIsShared` | `tests/core/pyspec/eth2spec/test/helpers/light_client_data_collection.py:690-691` | From genesis, runs in which the saved and the stored states are shared objects reach exactly the same stores. |
| `LightClientReachable.EveryCachedBestIsTrue` | `tests/core/pyspec/eth2spec/test/helpers/light_client_data_collection.py:347-419` | In every store reached from genesis, each stored block at or after the tail has cached data, and its best update is the earliest maximal one among all updates that its own chain signs in its period; absent exactly if there is none. |
| `LightClientReachable.EveryCheckpointIsSelected` | `tests/core/pyspec/eth2spec/test/helpers/light_client_data_collection.py:672-710` | In every store reached from genesis, the finalized checkpoint is that of genesis or, epoch and block together, that of the post-state of a head selected on the way; and no selected head finalizes a newer block. |
| `LightClientReachable.EveryStoreIsPruned` | `tests/core/pyspec/eth2spec/test/helpers/light_client_data_collection.py:698-710` | Every store reached from genesis holds exactly the blocks and states from the newest finalized block on, and cached data for exactly the blocks it may still read. |
| `LightClientTrees.AnyTreeCanBeRun` | `tests/core/pyspec/eth2spec/test/helpers/light_client_data_collection.py:636-710` | From every genesis, any tree of blocks can be added, and any of its blocks selected as head, whatever its post-state finalizes: runs with finality exist. |
| `LightClientTrees.TreeRuns` | `tests/core/pyspec/eth2spec/test/helpers/light_client_data_collection.py:636-669` | Adding any tree block by block succeeds and leaves what is finalized and served as it was. |
| `LightClientSharing.SharedRunIsRun` | `tests/core/pyspec/eth2spec/test/helpers/light_client_data_collection.py:690-710` | Runs in which an in-place advance shows in the stored states, and these are pruned by the slots they show, give the same result, step by step, as runs with separate values. |
| `LightClientSharing.SharedStateIsUnchanged` | `tests/core/pyspec/eth2spec/test/helpers/light_client_data_collection.py:690-710` | What is still stored of a saved state is what was saved of it, and pruning by either slot deletes the same states. |
| `LightClientSharing.RunKeepsSharing` | `tests/core/pyspec/eth2spec/test/helpers/light_client_data_collection.py:212-218` | Every run keeps each advanced state, and its original, below the newest finalized block. |
| `LightClientStart.SetupIsValid` | `tests/core/pyspec/eth2spec/test/helpers/light_client_data_collection.py:566-613` | Setting up from a genesis block and state never raises and establishes the invariant. |
| `LightClientStart.SetupContent` | `tests/core/pyspec/eth2spec/test/helpers/light_client_data_collection.py:566-613` | Right after set-up no best update is cached or served and there is no latest one; only the anchor is stored, cached, indexed and served; the checkpoint is that of the state; and the first period has a committee exactly for a state at slot 0 whose period the fork with sync committees reaches. |
| `LightClientRuns.RunIsSafe` | `tests/core/pyspec/eth2spec/test/helpers/light_client_data_collection.py:636-710` | From any valid store, every run of allowed actions succeeds and keeps the invariant. The finalized header inside an update is not built (lines 292-312). |
| `LightClientRuns.StepIsSafe` | `tests/core/pyspec/eth2spec/test/helpers/light_client_data_collection.py:636-710` | One allowed action succeeds and keeps the invariant. The finalized header inside an update is not built (lines 292-312). |
| `LightClientRuns.SelectHeadExact` | `tests/core/pyspec/eth2spec/test/helpers/light_client_data_collection.py:672-710` | Selecting a stored head, on any branch as long as finality only advances along the chain, raises if and only if the finalized checkpoint block of its post-state has already been pruned; otherwise the invariant is kept. |
| `LightClientRuns.FinalizeExact` | `tests/core/pyspec/eth2spec/test/helpers/light_client_data_collection.py:677-710` | The finalization half of a head change raises if and only if the post-state of the head still names a finalized block older than the newest one of the store. |
| `LightClientFinality.SelectRecords` | `tests/core/pyspec/eth2spec/test/helpers/light_client_data_collection.py:677-698` | After selecting a head whose post-state finalizes a block newer than the newest finalized one, the epoch and the block on record are those of that post-state and the block is the tip of the index; otherwise epoch, block and index are unchanged. |
| `LightClientFinality.RunRecords` | `tests/core/pyspec/eth2spec/test/helpers/light_client_data_collection.py:672-698` | Over every run, the checkpoint on record is the one the run started from or that of a head selected on the way, epoch and block together; it never goes back, and none of these heads finalizes a newer block. |
| `LightClientExamples.StaleFinalityRaises` | `tests/core/pyspec/eth2spec/test/helpers/light_client_data_collection.py:677-682` | A run from genesis after which a head that descends from the newest finalized block cannot be selected: the lookup of the block its state names raises a key error. |
| `LightClientAdd.AddBlockSafe` | `tests/core/pyspec/eth2spec/test/helpers/light_client_data_collection.py:434-442` | Adding a block on a retained parent never raises and keeps the invariant. The finalized header inside an update is not built (lines 292-312). |
| `LightClientAdd.BestStep` | `tests/core/pyspec/eth2spec/test/helpers/light_client_data_collection.py:388-412` | The best update computed from the cached one of the parent is the earliest maximal update of the whole chain of the new block. |
| `LightClientAdd.LatestSignatureStep` | `tests/core/pyspec/eth2spec/test/helpers/light_client_data_collection.py:376-398` | The cached latest signature slot of a new block is the slot of the newest signing block of its chain. |
| `LightClientInvariant.BestIsUnique` | `tests/core/pyspec/eth2spec/test/helpers/light_client_data_collection.py:399-412` | A strict weak order has at most one earliest maximal update per chain, so the cached entry is determined. |
| `LightClientInvariant.BestInExtension` | `tests/core/pyspec/eth2spec/test/helpers/light_client_data_collection.py:347-419` | Blocks added later change nothing about the best update of an older block. |
| `LightClientHead.EntryIsChainBest` | `tests/core/pyspec/eth2spec/test/helpers/light_client_data_collection.py:451-468` | After a head change, each committed period has the brute-force best update of the period-end ancestor of the head, or no entry if that is empty; every other period keeps its entry. |
| `LightClientHead.EntriesDependOnChainOnly` | `tests/core/pyspec/eth2spec/test/helpers/light_client_data_collection.py:451-468` | Two stores of one growing history give a period committed in both the same entry, whatever heads were selected in between. |
| `LightClientHead.LatestIsNewest` | `tests/core/pyspec/eth2spec/test/helpers/light_client_data_collection.py:470-487` | The latest update is the one signed by the newest signing block of the chain of the head whose attested block is at or after the low slot, and it is empty exactly when there is none. |
| `LightClientHead.HeadChangeSafe` | `tests/core/pyspec/eth2spec/test/helpers/light_client_data_collection.py:445-487` | A change to any head still stored never raises on a valid store and keeps the invariant. The finalized header inside an update is not built (lines 292-312). |
| `LightClientServing.CachedBestIsEarliestMaximal` | `tests/core/pyspec/eth2spec/test/helpers/light_client_data_collection.py:347-419` | After any run from any valid store, the cached best of a block is the earliest maximal update of its chain. |
| `LightClientServing.SelectHeadServesChain` | `tests/core/pyspec/eth2spec/test/helpers/light_client_data_collection.py:672-710` | `select_new_head` serves, for each committed period, the best update of the chain of the head, leaves other periods alone, and serves the newest update the chain signs. |
| `LightClientServing.SelectHeadServesBlocks` | `tests/core/pyspec/eth2spec/test/helpers/light_client_data_collection.py:445-487` | In blocks of the head's chain only: a period is served the best update of the newest block in or before it, if that is at or after the tail and no older than the newest finalized block, and else keeps its entry; the latest update is signed by the newest signing block, if its parent is no older than the newest finalized block, and else empty. |
| `LightClientServing.SelectHeadBeforeTail` | `tests/core/pyspec/eth2spec/test/helpers/light_client_data_collection.py:445-449` | A head before the tail changes no update served. |
| `LightClientServing.ReorgRestores` | `tests/core/pyspec/eth2spec/test/helpers/light_client_data_collection.py:451-468` | Switching from head A to others and back to A with finality unchanged restores the best update of every period A commits. |
| `LightClientServing.FinalizationServesTops` | `tests/core/pyspec/eth2spec/test/helpers/light_client_data_collection.py:490-520` | The two independent loops agree: one finalization step saves the states of exactly the newly finalized newest blocks per epoch window, and makes a bootstrap for exactly those at or after the tail. |
| `LightClientServing.WalkSavesTops` | `tests/core/pyspec/eth2spec/test/helpers/light_client_data_collection.py:683-697` | The backward chain walk saves the states of exactly the new window tops. |
| `LightClientServing.HopsServeTops` | `tests/core/pyspec/eth2spec/test/helpers/light_client_data_collection.py:498-511` | The boundary-hopping loop makes a bootstrap for exactly the new window tops at or after the tail. |
| `LightClientServing.ServedBootstrapIsWhole` | `tests/core/pyspec/eth2spec/test/helpers/light_client_data_collection.py:523-538` | Serving a bootstrap never raises; header and branch belong to the block asked for, and the committee is the one on record for its period. |
| `LightClientServing.RunExtends` | `tests/core/pyspec/eth2spec/test/helpers/light_client_data_collection.py:636-710` | Runs only add history and never move the tail. |
| `LightClientSegment.TopIsWindowTop` | `tests/core/pyspec/eth2spec/test/helpers/light_client_data_collection.py:683-697` | A visited block has its state saved exactly when it is the newest block of its epoch window on the finalized chain. |
| `LightClientSegment.SegmentCovers` | `tests/core/pyspec/eth2spec/test/helpers/light_client_data_collection.py:683-697` | The walk misses no block of the chain above the previous finalized slot. |
| `LightClientSegment.SegmentDescends` | `tests/core/pyspec/eth2spec/test/helpers/light_client_data_collection.py:683-697` | The visited blocks lie on the chain, above the previous finalized slot, in strictly descending slot order. |
| `LightClientSegment.IndexMoves` | `tests/core/pyspec/eth2spec/test/helpers/light_client_data_collection.py:683-697` | After the walk the slot index of finalized blocks is exactly the chain of the new finalized block. |
| `LightClientSegment.CheckpointsMove` | `tests/core/pyspec/eth2spec/test/helpers/light_client_data_collection.py:683-697` | After the walk every window top of the finalized chain has a saved checkpoint state. |
| `LightClientFinalize.CommitteeLookupFinds` | `tests/core/pyspec/eth2spec/test/helpers/light_client_data_collection.py:199-218` | Whenever the committee of a period is asked for, the block it starts from is not pruned and its checkpoint state has been saved. |
| `LightClientFinalize.BootstrapsAll` | `tests/core/pyspec/eth2spec/test/helpers/light_client_data_collection.py:498-511` | All bootstraps of a finalization step are made without raising, and no others. |
| `LightClientFinalize.ProcessFinalizationSucceeds` | `tests/core/pyspec/eth2spec/test/helpers/light_client_data_collection.py:490-520` | Processing finalization never raises in a store prepared by the walk. |
| `LightClientFinalize.AdvanceIsSafe` | `tests/core/pyspec/eth2spec/test/helpers/light_client_data_collection.py:683-710` | An advancing checkpoint is indexed, served and pruned without raising, and the invariant holds again. |
| `LightClientCommittee.SelectedCommitteeExact` | `tests/core/pyspec/eth2spec/test/helpers/light_client_data_collection.py:199-218` | What selecting a head records, from what is known before: exactly the periods of the newly finalized window tops at or after the tail are new; the committee of such a period is its own if and only if no later new period is read from the same ancestor of the new finalized block, and is always that of the last such period; earlier records stay. |
| `LightClientCommittee.NewCommitteeExact` | `tests/core/pyspec/eth2spec/test/helpers/light_client_data_collection.py:199-218` | The same for the finalization step alone. |
| `LightClientCommittee.NewPeriodIsLookedUp` | `tests/core/pyspec/eth2spec/test/helpers/light_client_data_collection.py:422-431` | A period is first recorded in a step exactly when a newly finalized window top at or after the tail lies in it. |
| `LightClientCommittee.StartIsRead` | `tests/core/pyspec/eth2spec/test/helpers/light_client_data_collection.py:209-213` | A lookup starts from the ancestor of the newest finalized block at the slot it is read at. |
| `LightClientCommittee.ReadAtFirstSlot` | `tests/core/pyspec/eth2spec/test/helpers/light_client_data_collection.py:199-208` | A committee is read at the first slot of its period from the tail and the Altair fork on, and none is for a period that ends before these. |
| `LightClientExamples.WrongCommitteeExample` | `tests/core/pyspec/eth2spec/test/helpers/light_client_data_collection.py:212-218` | A run from genesis, adding blocks at slots 2, 5, 12 and 13 and selecting a head that finalizes the second, after which period 1 is recorded with the committee of period 2. |
| `LightClientCommittee.SetupSettles` | `tests/core/pyspec/eth2spec/test/helpers/light_client_data_collection.py:566-613` | After set-up no saved state is past the periods finalized. |
| `LightClientCommittee.RunSettles` | `tests/core/pyspec/eth2spec/test/helpers/light_client_data_collection.py:199-218` | Along whole runs no saved state is ever past the periods finalized, so the exact condition applies to every step. |
| `LightClientStore.LightClientDataCollection.constructor` | `tests/core/pyspec/eth2spec/test/helpers/light_client_data_collection.py:566-613` | The objects are set up with the content of the model store, without any update, and valid for a genesis state. |
| `LightClientStore.LightClientDataCollection.GetAncestorOfBlockId` | `tests/core/pyspec/eth2spec/test/helpers/light_client_data_collection.py:178-187` | The loop along parent roots finds the ancestor at or below the slot, or nothing if the walk leaves the dictionary. |
| `BlockTree.AncestorIsHighest` | `tests/core/pyspec/eth2spec/test/helpers/light_client_data_collection.py:178-187` | The ancestor found at a slot is the highest block of the chain at or below that slot. |
| `LightClientTime.TimesAreStretches` | `tests/core/pyspec/eth2spec/test/helpers/light_client_data_collection.py:686-688` | Epochs and periods are stretches of slots, the boundary at or after a slot starts an epoch less than an epoch later, and two slots share a window exactly when they share that boundary. |
| `BlockTree.OnChainStep` | `tests/core/pyspec/eth2spec/test/helpers/light_client_data_collection.py:178-187` | The chain of a block is the block and the chain of its parent. |
| `LightClientStore.LightClientDataCollection.SearchFinalizedSlot` | `tests/core/pyspec/eth2spec/test/helpers/light_client_data_collection.py:190-196` | The loop down the slots finds the highest indexed block at or below the slot. |
| `LightClientStore.LightClientDataCollection.GetCurrentSyncCommitteeForFinalizedPeriod` | `tests/core/pyspec/eth2spec/test/helpers/light_client_data_collection.py:199-218` | The lookup, with the in-place advance of the saved state, equals its specification including each error. |
| `LightClientStore.LightClientDataCollection.CacheLcData` | `tests/core/pyspec/eth2spec/test/helpers/light_client_data_collection.py:254-277` | Caching updates the dictionary as specified, or raises if the entry exists. |
| `LightClientStore.LightClientDataCollection.CreateLcUpdate` | `tests/core/pyspec/eth2spec/test/helpers/light_client_data_collection.py:347-419` | The new entry and each key error equal the specification. |
| `LightClientStore.LightClientDataCollection.AddNewBlock` | `tests/core/pyspec/eth2spec/test/helpers/light_client_data_collection.py:434-442` | Adding a block equals its specification, and on a retained parent never raises and keeps the invariant. |
| `LightClientStore.LightClientDataCollection.CreateLcBootstrap` | `tests/core/pyspec/eth2spec/test/helpers/light_client_data_collection.py:422-431` | Header, branch and committee are stored as specified. |
| `LightClientStore.LightClientDataCollection.CommitBestUpdates` | `tests/core/pyspec/eth2spec/test/helpers/light_client_data_collection.py:451-468` | The loop from the newest period down leaves exactly the specified dictionary of best updates. |
| `LightClientStore.LightClientDataCollection.UpdateLatest` | `tests/core/pyspec/eth2spec/test/helpers/light_client_data_collection.py:470-487` | The latest update after the loop is the specified one. |
| `LightClientStore.LightClientDataCollection.ProcessHeadChange` | `tests/core/pyspec/eth2spec/test/helpers/light_client_data_collection.py:445-487` | A change to any head still stored equals its specification. |
| `LightClientStore.LightClientDataCollection.RecordFinalized` | `tests/core/pyspec/eth2spec/test/helpers/light_client_data_collection.py:685-695` | One visited block is indexed, and its state saved if it opens a window. |
| `LightClientStore.LightClientDataCollection.WalkBack` | `tests/core/pyspec/eth2spec/test/helpers/light_client_data_collection.py:683-697` | The walk back to the previous finalized block leaves the specified index and saved states, and the new checkpoint, epoch and block, on record. |
| `LightClientStore.LightClientDataCollection.RecordChain` | `tests/core/pyspec/eth2spec/test/helpers/light_client_data_collection.py:683-697` | The loop over the parents indexes every visited block and saves the states of the window tops. |
| `LightClientStore.LightClientDataCollection.CreateBootstraps` | `tests/core/pyspec/eth2spec/test/helpers/light_client_data_collection.py:498-511` | The hops from boundary to boundary terminate and leave the specified database. |
| `LightClientStore.LightClientDataCollection.ProcessFinalization` | `tests/core/pyspec/eth2spec/test/helpers/light_client_data_collection.py:490-520` | Bootstraps and pruning equal their specification. |
| `LightClientStore.LightClientDataCollection.Advance` | `tests/core/pyspec/eth2spec/test/helpers/light_client_data_collection.py:683-710` | Walk, bootstraps and pruning together restore the invariant. |
| `LightClientStore.LightClientDataCollection.SelectNewHead` | `tests/core/pyspec/eth2spec/test/helpers/light_client_data_collection.py:672-710` | For every stored head, on any branch as long as finality only advances along the chain: raises exactly when the finalized block of its state has been pruned; otherwise the invariant holds, and epoch and block of the finalized checkpoint are those of the post-state of the head if its block is newer, and unchanged if not. |
| `Merkle.MerkleizeChunks` | `tests/core/pyspec/eth2spec/utils/merkle_minimal.py:47-89` | Fails exactly if there are more chunks than the limit; otherwise gives the root of the perfect tree over the chunks padded with zeros to the least sufficient depth, and the zero chunk at limit 0. |
| `Merkle.Merge` | `tests/core/pyspec/eth2spec/utils/merkle_minimal.py:64-75` | Merging one chunk is one increment of the binary counter kept in the scratch list. |
| `Merkle.MergeLeaves` | `tests/core/pyspec/eth2spec/utils/merkle_minimal.py:77-83` | After all chunks, each scratch position of a set bit of the count holds the root of that block of chunks. |
| `Merkle.CounterStep` | `tests/core/pyspec/eth2spec/utils/merkle_minimal.py:64-75` | One carry of the counter joins two complete neighbouring blocks into the next larger one. |
| `Merkle.BuildZeroHashes` | `tests/core/pyspec/eth2spec/utils/merkle_minimal.py:5-9` | A table of 100 entries: the zero chunk, and then each the hash of two of the one before it. |
| `Merkle.RootIsPerfect` | `tests/core/pyspec/eth2spec/utils/merkle_minimal.py:47-89` | The layered node definition at the top is the root of the plain perfect tree over the zero-padded chunks. |
| `Merkle.NextPowerOfTwo` | `tests/core/pyspec/eth2spec/utils/merkle_minimal.py:60-61` | The bit length of limit - 1 is the least depth whose tree has room for the limit. |
| `Merkle.LeastDepthIsUnique` | `tests/core/pyspec/eth2spec/utils/merkle_minimal.py:60-61` | There is only one least sufficient depth, so the result is determined. |
| `MerkleTrees.CalcMerkleTreeFromLeaves` | `tests/core/pyspec/eth2spec/utils/merkle_minimal.py:12-20` | Layer h, position i is the root of the i-th zero-padded subtree of depth h. |
| `MerkleTrees.GetMerkleRoot` | `tests/core/pyspec/eth2spec/utils/merkle_minimal.py:30-36` | The root of the perfect tree of the greatest depth with no more leaves than asked for, over as many values as it holds, zero chunks in place of missing ones; the zero chunk if none are asked for. |
| `MerkleTrees.MerkleizeChunksAndGetMerkleRoot` | `tests/core/pyspec/eth2spec/utils/test_merkle_minimal.py:67-80` | For limit zero and every power of two with room for the chunks, `merkleize_chunks` and `get_merkle_root` give the same root. |
| `MerkleTrees.DepthsAgree` | `tests/core/pyspec/eth2spec/utils/merkle_minimal.py:30-61` | Rounding the depth down and rounding it up agree exactly at the powers of two. |
| `MerkleTrees.GetMerkleProof` | `tests/core/pyspec/eth2spec/utils/merkle_minimal.py:39-44` | The proof lists the roots of the sibling subtrees, for every index below 2^d, also past the last leaf. |
| `MerkleTrees.IsValidMerkleBranch` | `specs/phase0/beacon-chain.md:755-769` | The loop computes the fold of the branch along the bits of the index and compares it with the root. |
| `MerkleTrees.BranchFolds` | `tests/core/pyspec/eth2spec/utils/merkle_minimal.py:39-44` | Folding any leaf with its proof gives the root of the tree. |
| `MerkleTrees.BranchBinds` | `tests/core/pyspec/eth2spec/utils/merkle_minimal.py:39-44` | With an injective hash, only the leaf at that index folds to the root with any branch of that length. |
| `MerkleTrees.DepositFromContext` | `tests/core/pyspec/eth2spec/test/helpers/deposits.py:64-76` | The branch with the length appended verifies one level above the deposit tree, for every deposit list and index in it. |
| `MerkleTrees.DepositFolds` | `tests/core/pyspec/eth2spec/test/helpers/deposits.py:66-73` | The branch with the length chunk folds to the list root with the length mixed in. |
| `MerkleTrees.DepositBinds` | `tests/core/pyspec/eth2spec/test/helpers/deposits.py:66-73` | With an injective hash, a branch that verifies at that depth carries the deposit at that index and the right length. |
| `GeneralizedIndices.BuildProof` | `tests/core/pyspec/eth2spec/test/helpers/merkle.py:4-21` | The proof holds the siblings along the path, lowest first; it fails exactly if the path leaves the tree. |
| `GeneralizedIndices.ProofRecoversRoot` | `tests/core/pyspec/eth2spec/test/helpers/merkle.py:4-21` | Folding the node at a generalized index with its proof gives the root of the anchor. |
| `GeneralizedIndices.ProofBinds` | `tests/core/pyspec/eth2spec/test/helpers/merkle.py:4-21` | With an injective hash, no other node folds to the root with a proof of that length. |
| `GeneralizedIndices.ConcatGeneralizedIndices` | `pysetup/spec_builders/eip7732.py:19-23` | The accumulator of the loop is the fold of the binary concatenation, whose path is all the paths one after the other. |
| `GeneralizedIndices.ConcatPaths` | `pysetup/spec_builders/eip7732.py:19-23` | The path of a concatenation is the path of the first index followed by that of the second; depths add. |
| `GeneralizedIndices.ConcatIsMonoid` | `pysetup/spec_builders/eip7732.py:19-23` | Concatenation is associative with identity 1. |
| `GeneralizedIndices.NavigateConcat` | `ssz/merkle-proofs.md:193-205` | Going along a concatenation is going along the first path and then, in that subtree, along the second. |
| `GeneralizedIndices.BesideConcat` | `tests/core/pyspec/eth2spec/test/helpers/merkle.py:4-21` | The siblings along a concatenation are those inside the inner node followed by those above it. |
| `GeneralizedIndices.ConcatComposes` | `tests/core/pyspec/eth2spec/test/helpers/merkle.py:4-21` | The proof at concat(a, b) is the proof of b inside node a followed by the proof of a. |
| `MerkleIndices.ProofsAgree` | `tests/core/pyspec/eth2spec/test/helpers/merkle.py:4-21` | In the perfect tree over padded leaves, generalized index 2^d + i is leaf i, and the proof collected on the way down to it is the branch that `get_merkle_proof` reads off the layers. |
| `KzgFft.Fft` | `tests/core/pyspec/eth2spec/utils/kzg.py:35-48` | For every power-of-two length and every domain of powers of a root whose half power is -1, output k is the polynomial with the given coefficients at domain element k. |
| `KzgFft.FillOutput` | `tests/core/pyspec/eth2spec/utils/kzg.py:43-48` | The butterflies written in place give both halves of the output. |
| `KzgFft.Butterfly` | `tests/core/pyspec/eth2spec/utils/kzg.py:43-47` | One pair of half results gives the values at an element and at its negative. |
| `KzgFft.HornerSplit` | `tests/core/pyspec/eth2spec/utils/kzg.py:41-42` | A polynomial is its even half plus x times its odd half, both at the square. |
| `KzgFft.EvalPolyInCoeffForm` | `tests/core/pyspec/eth2spec/test/helpers/blob.py:46-53` | The loop over the reversed coefficients is the value of the polynomial modulo the group order. |
| `KzgSetup.HornerIsSum` | `tests/core/pyspec/eth2spec/test/helpers/blob.py:46-53` | The Horner form of a polynomial is the sum of its coefficients times the powers of the point, the first coefficient times the zeroth. |
| `KzgSetup.GetLagrange` | `tests/core/pyspec/eth2spec/utils/kzg.py:76-86` | For every setup of power-of-two length: each position holds the inverse transform up to multiples of the order, and for every polynomial both ways to commit give the same point; it fails exactly if an assertion on the root does. |
| `KzgSetup.CommitmentsAgree` | `tests/core/pyspec/eth2spec/utils/kzg.py:76-86` | Evaluations times the Lagrange form sum to the same point as coefficients times the monomial form, for every setup and every coefficient vector. |
| `KzgSetup.InverseTransform` | `tests/core/pyspec/eth2spec/utils/kzg.py:80-86` | Summing evaluations weighted by the powers at negative positions gives n times the coefficient. |
| `KzgSetup.RootSum` | `tests/core/pyspec/eth2spec/utils/kzg.py:51-56` | Orthogonality: the powers of w^e over a full turn sum to n if n divides e and to zero otherwise, for any modulus. |
| `KzgSetup.FullTurn` | `tests/core/pyspec/eth2spec/utils/kzg.py:81-81` | A root whose half power is -1 has n-th power 1, as the assertion on it demands. |
| `KzgSetup.BackIsForward` | `tests/core/pyspec/eth2spec/utils/kzg.py:86-86` | Reading the transform at a negative index is evaluating at the inverse power. |
| `KzgSetup.GenerateSetup` | `tests/core/pyspec/eth2spec/utils/kzg.py:25-32` | Element j is the generator times the j-th power of the secret; length zero still gives one element. |
| `KzgSetup.ComputeRootOfUnity` | `tests/core/pyspec/eth2spec/utils/kzg.py:51-56` | 7 to the group order divided by the length, reduced: its power `length` is that of 7 to the group order, hence congruent to one where that is; fails exactly if the length does not divide the group order. |
| `KzgSetup.ComputeRootsOfUnity` | `tests/core/pyspec/eth2spec/utils/kzg.py:59-73` | The loop lists the successive powers of the root, which are powers of 7. |
| `KzgSetup.MultiExp` | `tests/core/pyspec/eth2spec/utils/bls.py:262-296` | The generic loop is the sum of products over the common length, and fails exactly on an empty list. |
| `KzgSetup.CommitmentIsValueAtSecret` | `tests/core/pyspec/eth2spec/utils/kzg.py:25-32` | With a generated setup, a commitment is the generator times the value of the polynomial at the secret. |
| `DependencyOrder.PopsMoveAfter` | `pysetup/helpers.py:218-221` | The pops and re-insertions for one dependency amount to this: a key standing before its dependency moves to directly behind it, otherwise nothing changes. |
| `DependencyOrder.MoveNext` | `pysetup/helpers.py:220-221` | One more key of the tail moved to the end. |
| `DependencyPasses.MoveAfterKeepsBefore` | `pysetup/helpers.py:218-221` | A move puts the key behind the dependency and disturbs no pair that the moved key does not lead. |
| `DependencyPasses.PassesReorder` | `pysetup/helpers.py:201-221` | Any number of passes only permutes the keys. |
| `DependencyPasses.PassSettles` | `pysetup/helpers.py:205-221` | A pass over settled ranks settles one more rank and leaves the order of the settled ones alone. |
| `DependencyPasses.LowNeverMovesAgain` | `setup.py:376-380` | After n passes no class of depth at most n ever moves again, whatever number of passes follows. |
| `DependencyPasses.SettlesWithin` | `setup.py:376-380` | With dependency chains of length at most D, D passes give a topological order that every further pass leaves alone. |
| `DependencyPasses.StableIffTopological` | `setup.py:376-380` | For acyclic dependencies, one pass changes nothing if and only if every class comes after all its dependencies. |
| `DependencyPasses.TopologicalStays` | `pysetup/helpers.py:205-221` | In a topological order no individual move of a pass happens. |
| `DependencyPasses.StableTopologicalIffAcyclic` | `setup.py:376-380` | A stable order is topological if and only if the dependencies are acyclic. |
| `DependencyPasses.CyclicPairIsStable` | `setup.py:376-380` | Two classes that need each other: the pass changes nothing, the loop ends, and the order is wrong. |
| `DependencyPasses.CyclicTriangleNeverSettles` | `setup.py:376-380` | Three classes with cyclic dependencies whose passes alternate between two orders for ever. |
| `DependencyTable.ClassTable.Reinsert` | `pysetup/helpers.py:221-221` | Popping and re-inserting moves a key to the end and keeps every definition. |
| `DependencyTable.ClassTable.PlaceAfter` | `pysetup/helpers.py:218-221` | One dependency moves the key as specified; a dependency that is no class raises and changes nothing. |
| `DependencyTable.ClassTable.PlaceAfterEach` | `pysetup/helpers.py:218-221` | All dependencies of one class; raises exactly if one is no class. |
| `DependencyTable.ClassTable.DependencyOrderClassObjects` | `pysetup/helpers.py:201-221` | One pass in the order of the snapshot; definitions unchanged, keys permuted; raises exactly if some dependency is no class. |
| `DependencyTable.ClassTable.OrderUntilStable` | `setup.py:376-380` | For every table on which the passes reach a stable order at all, so that the loop ends: it ends within one pass after reaching it, with the same definitions; every class is then preceded by all that its definition mentions if and only if what the definitions mention is acyclic; raises exactly if some dependency is no class. |
| `DependencyPasses.AcyclicStabilizes` | `setup.py:376-380` | Acyclic dependencies with chains of length at most D reach a stable order within D passes, so that the loop ends within D + 1. |
| `OptimisticSync.GetValidFlagValue` | `tests/core/pyspec/eth2spec/test/helpers/optimistic_sync.py:78-85` | The flag is set exactly for a status that is neither INVALID nor INVALID_BLOCK_HASH. |
| `OptimisticSync.MegaStore.InvalidateSegment` | `tests/core/pyspec/eth2spec/test/helpers/optimistic_sync.py:116-127` | Exactly the status objects filed under the segment become invalid; raises exactly if a block of it has no status or the chain leaves the store before a stop. |
| `OptimisticSync.MegaStore.ReportPayload` | `tests/core/pyspec/eth2spec/test/helpers/optimistic_sync.py:105-127` | The status is filed and, if invalid, spreads to the whole segment. |
| `OptimisticSync.MegaStore.AddOptimisticBlock` | `tests/core/pyspec/eth2spec/test/helpers/optimistic_sync.py:88-155` | After an invalid report the whole segment is invalidated; the head is in or under an invalidated block exactly where the justified root is. |
| `OptimisticSync.MegaStore.UpdateHead` | `tests/core/pyspec/eth2spec/test/helpers/optimistic_sync.py:149-150` | The head ends the greedy walk from the justified root, and is under an invalidated block exactly where that root is. |
| `OptimisticSync.MegaStore.AddOptimisticBlockByStatus` | `tests/core/pyspec/eth2spec/test/helpers/optimistic_sync.py:88-155` | With only a status given, an invalid one always raises, for want of a latest valid hash, and no other one does; no other block is affected. |
| `OptimisticTree.GetOptHeadBlockRoot` | `tests/core/pyspec/eth2spec/test/helpers/optimistic_sync.py:158-180` | For every acyclic tree the loop ends, at a block without a child left, along a path on which no child left at any step is heavier than the one taken, and none equally heavy has a larger root. |
| `OptimisticTree.MaxChild` | `tests/core/pyspec/eth2spec/test/helpers/optimistic_sync.py:178-180` | No child is heavier than the one chosen, and none equally heavy has a larger root. |
| `OptimisticTree.WalkIsHeaviest` | `tests/core/pyspec/eth2spec/test/helpers/optimistic_sync.py:158-180` | Whatever is the head ends such a path. |
| `OptimisticTree.HeadIsUnique` | `tests/core/pyspec/eth2spec/test/helpers/optimistic_sync.py:158-180` | The head is determined by tree, weights and invalidated blocks. |
| `OptimisticTree.HeadAvoidsInvalidated` | `tests/core/pyspec/eth2spec/test/helpers/optimistic_sync.py:158-180` | The head is an invalidated block or under one if and only if the justified root is. |
| `OptimisticTree.HeadAvoidsBelow` | `tests/core/pyspec/eth2spec/test/helpers/optimistic_sync.py:158-180` | In particular for every invalidated block strictly below the justified root. |
| `OptimisticTree.HeadOfPrunedTree` | `tests/core/pyspec/eth2spec/test/helpers/optimistic_sync.py:158-180` | The optimistic head is the head of the plain fork choice on the tree without the invalidated blocks and all their descendants. |
| `OptimisticTree.SegmentIsChain` | `tests/core/pyspec/eth2spec/test/helpers/optimistic_sync.py:118-127` | The segment is the chain from the reported block up to, but excluding, the first block with the latest valid hash or the zero hash. |
| `ForkTransition.TransitionAcrossForks` | `tests/core/pyspec/eth2spec/test/helpers/fork_transition.py:227-252` | Arrives exactly at the last slot with the history of the slot-by-slot run; every upgrade in it is to a listed fork whose predecessor the slot before was processed under, at the first slot of its epoch; a block asked for is made only there, exactly if the last slot comes next, has an upgrade or follows one; raises exactly if the schedule is not well timed. |
| `ForkTransition.LinearScheduleArrives` | `tests/core/pyspec/eth2spec/test/helpers/fork_transition.py:227-252` | Under strictly increasing fork epochs it always succeeds, upgrades to each due fork once, in order, at its first slot, and returns the last fork due. |
| `ForkTransition.NoDueForkIsMissed` | `tests/core/pyspec/eth2spec/test/helpers/fork_transition.py:227-252` | With distinct predecessors, fork epochs that increase along them and all upgrades defined, it succeeds, and no listed fork that follows the one it ends under has an epoch at or before that of the last slot. |
| `ForkTransition.MakesBlockByEvents` | `tests/core/pyspec/eth2spec/test/helpers/fork_transition.py:232-251` | The condition for a block, told in what happened on the way: the last slot comes next, has an upgrade, or follows one. |
| `ForkTransition.TimingComposes` | `tests/core/pyspec/eth2spec/test/helpers/fork_transition.py:227-252` | A transition succeeds if and only if both halves do, wherever it is cut. |
| `ForkTransition.DoFork` | `tests/core/pyspec/eth2spec/test/helpers/fork_transition.py:186-214` | One slot, the upgrade and the optional block; raises exactly off the first slot of the fork epoch or without an upgrade function. |
| `ForkTransition.TransitionUntilFork` | `tests/core/pyspec/eth2spec/test/helpers/fork_transition.py:217-219` | Ends one slot before the fork; raises exactly if that slot is past. |
| `ForkTransition.TransitionTo` | `tests/core/pyspec/eth2spec/test/helpers/state.py:26-33` | Processes every slot up to the given one; raises exactly if that is past. |
| `ForkTransition.PassFork` | `tests/core/pyspec/eth2spec/test/helpers/fork_transition.py:244-251` | Passing a fork extends the reference run and removes it from the forks due. |
| `ForkTransition.OneStretch` | `tests/core/pyspec/eth2spec/test/helpers/fork_transition.py:232-251` | One turn of the loop: to the next due fork, or to the end. |
| `ForkSchedule.SlotBySlotComposes` | `tests/core/pyspec/eth2spec/test/helpers/fork_transition.py:227-252` | A run cut anywhere and continued is the same run. |
| `ForkSchedule.RunUpgrades` | `tests/core/pyspec/eth2spec/test/helpers/fork_transition.py:227-252` | The upgrades of a run are those to the due forks, each once, in order, at the first slot of its epoch; the run ends under the last. |
| `ForkSchedule.GetNextForkTransition` | `tests/core/pyspec/eth2spec/test/helpers/forks.py:69-77` | The first listed fork whose predecessor is the given one, with its own epoch; none exactly if no listed fork has that predecessor; raises exactly if that epoch is not in the future. |
| `ForkSchedule.RunIsChained` | `tests/core/pyspec/eth2spec/test/helpers/fork_transition.py:227-252` | Every event of a run follows from the one before it: the next slot under the same fork, or the upgrade to a listed fork whose predecessor that is. |
| `ForkSchedule.DueIsChain` | `tests/core/pyspec/eth2spec/test/helpers/forks.py:69-77` | The due forks follow each other in the schedule, at strictly increasing epochs, none later than the epoch of the last slot, and the next fork is later. |
| `ForkSchedule.IncreasingIsWellTimed` | `tests/core/pyspec/eth2spec/test/helpers/forks.py:69-77` | Under strictly increasing epochs the assertion on the fork epoch never fails. |
| `SszRoundTrip.RoundTrip` | `tests/core/pyspec/eth2spec/debug/decode.py:9-42` | decode(encode(v), T) = v with and without roots, all root assertions passing, for every unambiguous type in the model. |
| `SszRoundTrip.EncodeInjective` | `tests/core/pyspec/eth2spec/debug/encode.py:8-41` | Different values of a type have different dumps. |
| `SszRoundTrip.FieldsFill` | `tests/core/pyspec/eth2spec/debug/encode.py:25-33` | The dictionary of a container holds exactly the entries of its fields and of their roots. |
| `SszRoundTrip.DecodeTyped` | `tests/core/pyspec/eth2spec/debug/decode.py:9-42` | Whatever is read from any data is a value of the type. |
| `SszRoundTrip.RootsAreChecked` | `tests/core/pyspec/eth2spec/debug/decode.py:19-30` | A container is read only if every root present in the data is the root of what was read. |
| `SszShape.DumpIffShape` | `tests/core/pyspec/eth2spec/debug/encode.py:8-41` | For every value, with and without roots and whatever the field names: numbers and Booleans as such, bytes as "0x" and two lower-case digits each, lists item by item, containers with exactly the keys of their fields, those with "_hash_tree_root" and "hash_tree_root" if roots are wanted, unions with exactly "selector" and "value"; and nothing else has that shape. |
| `SszReading.DecodeIff` | `tests/core/pyspec/eth2spec/debug/decode.py:9-42` | The reader accepts exactly the data told of there, as exactly that value: digits of either case after any two characters, Booleans as numbers, every field present, and every root present compared with that of what was read. |
| `SszClashes.PlainReadsBackIff` | `tests/core/pyspec/eth2spec/debug/decode.py:19-30` | For every type with distinct names in each container: a dump without roots reads back if and only if every field anywhere in the value that has the name of a root holds that root. |
| `SszClashes.NamesApartIff` | `tests/core/pyspec/eth2spec/debug/decode.py:19-30` | A container of unambiguous fields that has any value at all always reads back, for every value and hash, with and without roots, if and only if no field name clashes with that of a root. |
| `SszClashes.ContainerReadsBackIff` | `tests/core/pyspec/eth2spec/debug/decode.py:19-30` | One container reads back if and only if its fields do and none of them stands for a root that it is not. |
| `SszClashes.ClashingNameFails` | `tests/core/pyspec/eth2spec/debug/decode.py:27-29` | A field named like the root of the container breaks the round trip, with roots and without. |
| `SszValues.HexRoundTrip` | `tests/core/pyspec/eth2spec/debug/encode.py:22-23` | The hexadecimal text of any bytes reads back to them. |
| `SszDump.EncodeValue` | `tests/core/pyspec/eth2spec/debug/encode.py:8-41` | The recursion with its dictionary filled in a loop is the specified dump, and has the shape of `SszShape.DumpIffShape`. |
| `SszDump.EncodeContainer` | `tests/core/pyspec/eth2spec/debug/encode.py:24-33` | The loop over the fields fills the specified dictionary. |
| `SszDump.DecodeValue` | `tests/core/pyspec/eth2spec/debug/decode.py:9-42` | The recursion is the specified reader; what it returns is of the type and can be read there, when it fails nothing can, and on a dump it returns the value. |
| `SszDump.DecodeContainer` | `tests/core/pyspec/eth2spec/debug/decode.py:19-30` | The loop stops at the first field that is missing, unreadable or at odds with its root. |
| `SyncRewards.InclusionRewardIsOneFloor` | `tests/core/pyspec/eth2spec/test/helpers/sync_committee.py:47-52` | The nested floors are one floor of 2/64 of the reward per increment times the whole increments, per seat and slot: seats times reward is within the sync weight, and less than one unit per seat and slot is lost. |
| `SyncRewards.ProposerShareIsOneSeventh` | `tests/core/pyspec/eth2spec/test/helpers/sync_committee.py:70-75` | The share of the proposer for one set bit is a seventh of the inclusion reward, rounded down. |
| `SyncRewards.RewardPerSeat` | `tests/core/pyspec/eth2spec/test/helpers/sync_committee.py:55-67` | A validator gets one inclusion reward for each of its seats with the bit set, and loses one for each of the others. |
| `SyncRewards.RewardsAddUp` | `tests/core/pyspec/eth2spec/test/helpers/sync_committee.py:55-67` | Over all validators rewards sum to one inclusion reward per set bit and penalties to one per unset bit, even with repeated members. |
| `SyncRewards.SlotBound` | `tests/core/pyspec/eth2spec/test/helpers/sync_committee.py:70-75` | Proposer and participants of a slot together stay within set bits times reward times 64/56, and fall short of it by at most one unit per set bit. |
| `SyncRewards.EpochBound` | `tests/core/pyspec/eth2spec/test/helpers/sync_committee.py:47-75` | Over an epoch all of them together stay within 2/56 of the base rewards, whatever the participation. |
| `SyncProcessing.ValidateSyncCommitteeRewards` | `tests/core/pyspec/eth2spec/test/helpers/sync_committee.py:87-111` | Succeeds exactly if every balance is the expected one. |
| `SyncProcessing.ExpectedBySeats` | `tests/core/pyspec/eth2spec/test/helpers/sync_committee.py:87-111` | The expected balance, counted by seats: one inclusion reward for each seat with the bit set, a seventh of one per set bit for the proposer, less one for each other seat, never below zero. |
| `SyncProcessing.ApplySyncRewards` | `specs/altair/beacon-chain.md:550-558` | Changing the balances seat by seat in place gives every validator the saturating run of its changes. |
| `SyncProcessing.ProcessedAsExpected` | `tests/core/pyspec/eth2spec/test/helpers/sync_committee.py:87-111` | The processed balance is the one the validation expects if and only if no tail of its changes gains more than is left at the end. |
| `SyncProcessing.CoveredPenaltyAsExpected` | `tests/core/pyspec/eth2spec/test/helpers/sync_committee.py:87-111` | A validator that can pay its penalty always has the expected balance. |
| `SyncProcessing.ShortBalanceDiffers` | `tests/core/pyspec/eth2spec/test/helpers/sync_committee.py:87-111` | A validator without balance that holds all n >= 2 seats of a committee and misses only the first ends with one reward more than the validation expects. |
| `SyncProcessing.AppliedIsReflected` | `specs/altair/beacon-chain.md:553-558` | A saturating run ends at its total, or at its best tail if it ran dry. |
| `SyncProcessing.DeltasAddUp` | `tests/core/pyspec/eth2spec/test/helpers/sync_committee.py:55-75` | The changes of one validator add up to its reward, its share as proposer and its penalty. |
| `SyncProcessing.SupplyChange` | `tests/core/pyspec/eth2spec/test/helpers/sync_committee.py:55-75` | When all penalties can be paid, the sum of all balances changes by exactly rewards plus proposer reward less penalties. |

## Left out

- LightClientReachable.EveryRunIsSafe: the finalized header of an update is not built (light_client_data_collection.py:292-312). There the header can be unbound, and the call at lines 306-310 passes three arguments where the callee takes four, so that it raises once a signed update has a finalized block past genesis. Update payloads are named by their attested and signing blocks instead.
- LightClientRuns.RunIsSafe: the same construction is left out.
- LightClientRuns.StepIsSafe: the same construction is left out.
- LightClientAdd.AddBlockSafe: the same construction is left out.
- LightClientHead.HeadChangeSafe: the same construction is left out.
- LightClientStore.LightClientDataCollection.CreateLcUpdate: the content of an update is not built, for the same reason.
- LightClientStore.LightClientDataCollection.AddNewBlock: the content of an update is not built, for the same reason.
- LightClientStore.LightClientDataCollection.UpdateLatest: the content of the finality update is not built, for the same reason.
- LightClientStore.LightClientDataCollection.CacheLcData: of a cached entry the committee branch, the best update and the latest signature slot are kept; the next committee branch, the finality branch and the finalized slot only go into update contents.
- LightClientStore.LightClientDataCollection.GetCurrentSyncCommitteeForFinalizedPeriod: the saved state is a value of its own; LightClientSharing.SharedRunIsRun compares with shared objects for stores and runs, not for the recorded test output, which reads saved states (lines 714-716).
- LightClientStore.LightClientDataCollection.SelectNewHead: a head whose state finalizes a newer block on a branch without the newest finalized block is not covered; two such finalized checkpoints would conflict.
- LightClientServing.ServedBootstrapIsWhole: whether the committee on record is that of the block's own period is the matter of LightClientCommittee.SelectedCommitteeExact.
- KzgSetup.GetLagrange: the existence of a primitive root and of the inverse of the length is assumed, because it rests on the primality of the BLS modulus.
- KzgSetup.MultiExp: covers the generic loop only; the branches that call a native library, and the choice of the zero point by point type, are foreign code.
- MerkleTrees.GetMerkleRoot: the depth is computed by bit lengths; the original takes a floating-point logarithm, which agrees for the sizes it is used with.
- MerkleTrees.DepositFromContext: the depth of the deposit tree is a parameter; the original fixes 32.
- DependencyTable.ClassTable.OrderUntilStable: tables on which the passes never reach a stable order are excluded, because the original loop does not end on them; DependencyPasses.CyclicTriangleNeverSettles gives one.
- ForkTransition.DoFork: the fork record of the state and its versions, which the original asserts after the upgrade, are the business of the upgrade functions.
- SszDump.EncodeValue: integers wider than eight bytes, which the original dumps as text, bit lists and bit vectors are not values here.
- SszDump.DecodeValue: data for a list must be a list, and numbers must be numbers of at most eight bytes; the original also iterates strings and dictionaries, reads numeric text, and skips white space in hexadecimal text.
- OptimisticSync.MegaStore.AddOptimisticBlock: fork choice itself (adding the block, filtering the tree, weights, whether the block is a candidate) is a parameter; the copies of blocks and states in the optimistic store are not kept.
- SyncRewards.InclusionRewardIsOneFloor: balances and rewards are unbounded naturals; the 64-bit range of the original is not modelled.
- Upgrades of light client objects between forks: one fork, with any strict weak order as ranking.
- Recording of test steps, file output, yielded vectors and hexadecimal formatting.
- The state transition, block building and fork upgrade functions: they appear as environment, as events in a history, or as parameters.
- Block filters of state transitions across slots (fork_transition.py:105-141): they would add only easy members.
- Parsing of class definitions for the names they mention, and of Markdown and YAML: the dependencies of a class are a parameter.
- BLS signatures, pairings, point serialisation and SHA-256.
- That PayloadStatus dictionaries are shared between stores because they are a class attribute.
