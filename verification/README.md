# Verified models of the block tree, blocksync, BLS aggregation and their helpers

This project models the parts of monad-bft where state, order of arrival and index
bookkeeping meet, and proves what they keep over every run.

* **Block tree** (`ConsensusTypes`, `BlockForest`, `BlockTreeRuns`, `BlockTreeOrder`, `BlockTreeExamples`,
  `Traversal`, `ForestQueries`, `CoherencySearch`, `TreeStore`, `BlockTrees`, `BlockTreeDriver`).  `Tree` and `BlockTree` are classes
  with the fields of the Rust structs.  `Forest` is their abstract value.  Each mutating method is
  proved to be one step on that value, and runs of such steps carry the theorems: everything ever
  committed is one parent-linked chain, no assertion in `prune` fires, garbage collection keeps
  exactly the branch of the new root, and neither arrival order nor hash-map order shows.
* **Blocksync** (`BlockSyncModel`, `BlockSyncSteps`, `BlockSyncs`, `BlockSyncRelation`, `BlockSyncProgress`,
  `BlockSyncPeers`, `BlockSyncRuns`).  `BlockSync` is a
  class with the six request maps, the mode and the in-flight counter; every handler is a method.
  Ghost fields record outstanding ledger fetches, armed timers, emitted ranges, and the books of
  accepted, cancelled and cleared requests.  `Step` relates the state before an event, its commands and
  the state after it; runs are built from such steps, and `RunEvents` shows that the handlers go through
  such a run for every sequence of events.  `BlockSyncProgress` and `BlockSyncPeers` say what a step does
  to each request and each waiting peer in terms of the fields of the state and the commands alone.
* **BLS aggregation** (`BlsTree`, `BlsCollection`, `BlsRetry`, `SignerMaps`).  The binary heap is filled in
  place, the search for bad signatures walks it with a queue, votes are collected by dropping what it
  reports and trying again, and the signer bitmap codec works on bytes.
* **Timeout certificates** (`Timeouts`) and the **RLP offset scanner** (`Rlp`, `RlpScanner`).

## Hypotheses

* Hashes are ideal: a block id is either a bare digest or the hash of a header, a body id likewise,
  and hashing is injective.  A QC names its block by id, so the parent relation is well founded.
* Every block offered to the tree is well formed (`Header.WellFormed`): its round exceeds the round of
  its own QC, and that QC was formed no earlier than the round of the parent.  It is an inequality
  because a reproposal is certified in a later round (monad-consensus-types/src/block.rs:72-75).
* `prune` is called under `BranchHypothesis`: a connected block whose QC round reaches the round of the
  new root descends from the new root.  This is what the commit rule gives; consensus safety itself is
  not claimed.  The hypothesis is used only in the `Prune` case of `Allowed`.
  `PruneKeepsCoherenceIff` says exactly how much of it is needed and `PruneCanStrandCoherentBlock`
  shows a reachable tree on which coherence is lost without it.
* Policies obey `SeqNumRule`; `PassthruObeysSeqNumRule` proves it of the pass-through policy.  The Ethereum
  policy makes the same comparison (monad-eth-block-policy/src/lib.rs:1162) but is not part of this model.
* Ledger header answers verify (the code asserts it), and caches file a body under its own id.
* Signature points form a commutative monoid.  A validator's key stands for the signature it would make
  on the message, so a node verifies iff its signature equals the expected sum and that sum is not
  the point at infinity (section 3.3.4 of draft-irtf-cfrg-bls-signature-05).
* RLP inputs are well formed and lengths fit in 64 bits (Appendix B of the Ethereum Yellow Paper).

The peer chosen by `pick_peer`, the super-majority test, the walking order of hash maps, the block policy with its state
backend, the signature collector of a timeout certificate, timers and the ledger are parameters or
arbitrary choices.

## Where the code and its documentation differ

* The documentation of `prune` (monad-blocktree/src/blocktree.rs:137, 187) says that blocks of a lower
  round are removed.  The code compares the *QC round* of each block with the round of the new root
  (lines 192-194), so it also removes later siblings that extend an older block.  The model follows the
  code.

## Expected properties that hold only under a condition

* "The search reports nobody iff the aggregate verifies" fails when the signers' keys add up to
  infinity.  `NobodyBlamedIffVerifies` gives the exact condition and `InfinityKeyExample` a committee on
  which it fails.
* "Coherent blocks stay connected to the root" survives `prune` exactly under the condition of
  `PruneKeepsCoherenceIff`; `PruneCanStrandCoherentBlock` is a run on which it fails, and with it the
  check of a later `prune`.
* `maybe_fill_path_to_root` panics on its checked subtraction exactly when a known ancestor-or-self of
  the QC block, other than a child of the root, has a sequence number below the root's
  (`WalkUnderflowsIff`); `FillCanPanic` is a run that leads there.
* `num_blocks` of the returned range is the length of the missing segment exactly under the condition of
  `FillCountIff`; `FillCanMiscount` is a run after which four blocks are asked for and one is missing.
  The code carries a note about null blocks at that place.
* "Encoding a decoded signer map gives the bytes back" holds iff the padding bits are zero
  (`EncodeOfDecodeIff`); decoding ignores them, as `PaddingIsIgnored` shows on one byte.

## Model

| member | source | states |
|---|---|---|
| `ConsensusTypes.PassthruObeysSeqNumRule` | monad-consensus-types/src/block.rs:427-463 | whatever the pass-through policy accepts carries the next sequence number of what it extends, so the run theorems apply to it |
| `TreeStore.Tree.constructor` | monad-blocktree/src/tree.rs:175-181 | an empty tree satisfies the payload index invariant |
| `TreeStore.Tree.SetCoherent` | monad-blocktree/src/tree.rs:68-71 | fails exactly on unknown ids; changes that one flag and nothing else |
| `TreeStore.Tree.Remove` | monad-blocktree/src/tree.rs:73-96 | takes out and returns exactly that entry, keeps every other entry and the payload index; its assertions do not fire |
| `TreeStore.Tree.ChildrenOf` | monad-blocktree/src/tree.rs:98-121 | the scan collects, once each, exactly the blocks naming the id as parent |
| `TreeStore.Tree.Insert` | monad-blocktree/src/tree.rs:98-137 | adds one incoherent entry with a correct child list, appends it to its parent's list only, keeps the payload index; its assertions do not fire |
| `TreeStore.Tree.GetPayload` | monad-blocktree/src/tree.rs:139-146 | a body is found iff some block of the tree names it, and it is the body with that id |
| `TreeStore.PayloadIffNamed` | monad-blocktree/src/tree.rs:73-146 | under the index invariant a body id is present iff a block names it |
| `TreeStore.PayloadsDetermined` | monad-blocktree/src/tree.rs:73-137 | the payload index with its active_blocks sets is a function of the tree entries |
| `TreeStore.PayloadsAfterRemove` | monad-blocktree/src/tree.rs:73-96 | dropping a block from its active set, and the body with its last user, restores the index invariant |
| `TreeStore.PayloadsAfterInsert` | monad-blocktree/src/tree.rs:98-137 | adding a block to the active set of its body restores the index invariant |
| `BlockForest.AddKeepsChildLists` | monad-blocktree/src/blocktree.rs:222-235 | after an add every child list and the root's list hold, once each, exactly the blocks naming that parent |
| `BlockForest.AddKeepsInv` | monad-blocktree/src/blocktree.rs:222-235 | add in any order keeps the index agreement, rounds above the root, coherence closure and sequence linking |
| `BlockForest.FirstIncoherentSplits` | monad-blocktree/src/blocktree.rs:245-257 | no incoherent block on the path iff the end is coherent; otherwise the block above the first incoherent one is coherent |
| `BlockForest.UpdateKeepsInv` | monad-blocktree/src/blocktree.rs:237-323 | accepting blocks keeps the whole invariant, and sequence numbers stay consecutive along coherent links |
| `BlockForest.TwoSweepsPrune` | monad-blocktree/src/blocktree.rs:160-204 | removing the committed path and then the old blocks equals one sweep by QC round |
| `BlockForest.AncestorsAreOlder` | monad-consensus-types/src/block.rs:72-75 | a proper ancestor's round is at most the descendant's QC round |
| `BlockForest.CoherentIsConnected` | monad-blocktree/src/blocktree.rs:406-416 | in every reachable tree a coherent block has a path to the current root |
| `BlockForest.PruneKeepsLinks` | monad-blocktree/src/blocktree.rs:186-214 | prune, which edits no child list, leaves every surviving child list exact and all rounds above the new root, with no branch hypothesis |
| `BlockForest.DescendantsSurvivePrune` | monad-blocktree/src/blocktree.rs:186-214 | every descendant of the new root survives with its flag and child list unchanged and stays connected |
| `BlockForest.PruneKeepsCoherenceIff` | monad-blocktree/src/blocktree.rs:186-214 | coherence closure survives prune if and only if every coherent block certified at or above the new root's round descends from it |
| `BlockForest.PruneKeepsInv` | monad-blocktree/src/blocktree.rs:152-218 | under the branch hypothesis prune keeps the whole invariant and sequence linking |
| `BlockForest.ConnectedSurvivorsAreDescendants` | monad-blocktree/src/blocktree.rs:186-214 | under the branch hypothesis a connected block survives prune iff it descends from the new root; the half from descendant to survivor needs no hypothesis |
| `BlockForest.PruneKeepsBranchIff` | monad-blocktree/src/blocktree.rs:186-214 | among connected blocks prune keeps exactly the branch of the new root if and only if the branch hypothesis holds |
| `BlockForest.PathCoherentIff` | monad-blocktree/src/blocktree.rs:166-184 | the climb of prune meets only blocks that are there and coherent if and only if the path exists and is coherent throughout |
| `BlockForest.CoherentHasCoherentPath` | monad-blocktree/src/blocktree.rs:153-184 | under the full invariant the climb succeeds for every coherent block and for no other |
| `BlockTreeRuns.ChainsJoin` | monad-blocktree/src/blocktree.rs:152-218 | two committed lists that meet form one chain |
| `BlockTreeRuns.ChainRoundsIncrease` | monad-blocktree/src/blocktree.rs:131-133 | along a chain rounds strictly increase, blocks differ and sequence numbers count positions |
| `BlockTreeRuns.CoherentPathIsChain` | monad-blocktree/src/blocktree.rs:165-184 | the path to a coherent block is a chain from the root ending at that block |
| `BlockTreeRuns.StepKeepsInv` | monad-blocktree/src/blocktree.rs:152-323 | every allowed call keeps the invariant, and what it commits extends the old root to the new root |
| `BlockTreeRuns.RunsCommitOneChain` | monad-blocktree/src/blocktree.rs:152-218 | over every run the concatenation of all lists returned by prune is one parent-linked chain from the initial root to the current one, rounds increasing, sequence numbers consecutive |
| `BlockTreeRuns.NothingIsCommittedTwice` | monad-blocktree/src/blocktree.rs:152-218 | over every run no block is committed twice and the i-th and j-th commits differ by j - i in sequence number |
| `BlockTreeRuns.PruneNeverPanics` | monad-blocktree/src/blocktree.rs:153-183 | in every reachable tree a coherent block's path exists and is coherent throughout, so the three assertions of prune hold |
| `BlockTreeExamples.PruneCanStrandCoherentBlock` | monad-blocktree/src/blocktree.rs:179-214 | a run (three adds, two updates with the pass-through policy) after which a commit that breaks the branch hypothesis leaves a coherent block with no way to the root, so that prune to it fails its check |
| `BlockTreeExamples.ForkIsReached` | monad-blocktree/src/blocktree.rs:222-323 | for any two rivals off genesis and a child of the second that the pass-through policy accepts, three adds and two updates lead to the tree in which all three are coherent |
| `BlockTreeOrder.AddsLeadTo` | monad-blocktree/src/blocktree.rs:222-235 | what any series of adds leads to, without mentioning the order: old entries as they were, plus every block above the root that came, incoherent |
| `BlockTreeOrder.ArrivalOrderIsIrrelevant` | monad-blocktree/src/blocktree.rs:222-235 | the same blocks in any order and with any repetition give the same tree |
| `BlockTreeOrder.SameTreeSameChildren` | monad-blocktree/src/tree.rs:98-137 | child lists of equal trees are permutations of each other |
| `BlockTreeOrder.StepsKeepSameTree` | monad-blocktree/src/blocktree.rs:152-323 | no call distinguishes, or drives apart, two trees differing in child-list order only |
| `BlockTreeOrder.RunsAreDetermined` | monad-blocktree/src/blocktree.rs:152-323 | two runs with the same calls commit the same blocks and hold the same tree, however the hash maps were walked |
| `Traversal.SearchStep` | monad-blocktree/src/blocktree.rs:330-376 | visiting the front of the queue keeps the search invariant: queued and visited ids are disjoint, duplicate-free and closed |
| `Traversal.SearchComplete` | monad-blocktree/src/blocktree.rs:330-376 | when the queue is empty exactly the region below the starting points has been visited |
| `Traversal.RootRegionIsConnected` | monad-blocktree/src/blocktree.rs:330-376 | the region below the root's child list is exactly the set of connected blocks |
| `CoherencySearch.AcceptedIsVisitedAndPasses` | monad-blocktree/src/blocktree.rs:259-320 | the blocks the search visits and passes are exactly those whose every block from the start down to them passes the policy |
| `CoherencySearch.ExtendedBranchIsPath` | monad-blocktree/src/blocktree.rs:266-283 | exactly one list of tree blocks starts at a child of the root, is parent-linked and ends at the parent of a block: the path above it |
| `CoherencySearch.AcceptedMeaning` | monad-blocktree/src/blocktree.rs:259-320 | the search accepts a block iff it is at or below the start and the policy, shown the whole branch, accepts every block from the start down to it |
| `CoherencySearch.CoherenceStopsOnce` | monad-blocktree/src/blocktree.rs:245-257 | at most one incoherent ancestor-or-self of a block has a coherent parent: the one the search starts from |
| `CoherencySearch.UpdateMeaning` | monad-blocktree/src/blocktree.rs:237-323 | the iff of `TryUpdateCoherency` for every update step, with nothing but flags changed |
| `CoherencySearch.UpdateAccepts` | monad-blocktree/src/blocktree.rs:259-320 | an accepting visit keeps the search invariant with flag, result list and queue extended |
| `CoherencySearch.UpdateRejects` | monad-blocktree/src/blocktree.rs:259-320 | a rejecting visit keeps the search invariant and queues nothing |
| `CoherencySearch.UpdateMarksAccepted` | monad-blocktree/src/blocktree.rs:259-320 | at the end the accepted set is the fixpoint, and none of it was coherent before |
| `CoherencySearch.UpdateFinished` | monad-blocktree/src/blocktree.rs:259-323 | the marked tree is the fixpoint and the list holds exactly the newly coherent blocks, parents first |
| `CoherencySearch.FirstIncoherentOnPath` | monad-blocktree/src/blocktree.rs:245-257 | the linear search of the path finds the block the recursive definition names |
| `ForestQueries.CommitTargetIsPrunable` | monad-consensus-types/src/quorum_certificate.rs:102-117 | a committable block sits on a QC exactly one round above the QC of its parent; its target is its coherent connected grandparent; pruning to it meets prune's precondition, strictly raises the root round and keeps the block's branch |
| `ForestQueries.CommittableIff` | monad-consensus-types/src/quorum_certificate.rs:102-117 | the commit rule names a block iff the parent is in the tree and the QC rounds of block and parent are consecutive, and then names the grandparent; it names a coherent block other than the root iff `Committable` holds, which speaks of header fields and flags only |
| `ForestQueries.CoherentDescendants` | monad-blocktree/src/blocktree.rs:543-582 | descending through coherent children reaches exactly the coherent descendants |
| `ForestQueries.CanonicalTipStaysOnBranch` | monad-blocktree/src/blocktree.rs:584-614 | the tip is the root or coherent, and if the QC's block is connected the tip is an ancestor, itself, or a descendant of it |
| `ForestQueries.CanonicalTipIsHighest` | monad-blocktree/src/blocktree.rs:584-614 | if the QC's block is coherent and not the root, the tip is a coherent descendant of it of maximal round |
| `ForestQueries.CanonicalTipAcrossGap` | monad-blocktree/src/blocktree.rs:593-600 | if the QC's block is not connected, no coherent block of the tree has a higher round than the tip |
| `ForestQueries.CanonicalTipIsDeepest` | monad-blocktree/src/blocktree.rs:587-613 | if the QC's block is connected and not coherent, the tip is a coherent ancestor of it and every coherent ancestor of it is an ancestor of the tip |
| `ForestQueries.LastCoherentIsDeepest` | monad-blocktree/src/blocktree.rs:443-451 | the last coherent block of a path is coherent, on the path, and below every other coherent block on it |
| `ForestQueries.ParentChainLinked` | monad-blocktree/src/blocktree.rs:529-541 | the parent chain is linked, ends at the block asked for, and stops only at an unknown parent |
| `ForestQueries.FirstUnknownIsRoot` | monad-blocktree/src/blocktree.rs:385-397 | walking up ends at the root iff the block is connected, and at an unknown ancestor-or-self otherwise |
| `ForestQueries.SeqNumCountsSegment` | monad-blocktree/src/blocktree.rs:385-403 | along consecutive sequence numbers the difference to the root is the length of the segment |
| `ForestQueries.FillAsksForMissingSegment` | monad-blocktree/src/blocktree.rs:378-404 | the case of consecutive sequence numbers from the root through a known block: the range ends at the first unknown ancestor and num_blocks is exactly the missing segment |
| `ForestQueries.FillCountIff` | monad-blocktree/src/blocktree.rs:378-404 | for every returned range, num_blocks is the length of the missing segment if and only if the oldest known block carries the sequence number following it (or one block is missing and that number is too low to count); an unknown QC block is asked for alone, rightly iff it is the child of the root |
| `ForestQueries.WalkUnderflowsIff` | monad-blocktree/src/blocktree.rs:385-397 | the checked subtraction fails if and only if some known ancestor-or-self of the QC block that is not a child of the root has a sequence number below the root's |
| `ForestQueries.FillOutcomes` | monad-blocktree/src/blocktree.rs:378-404 | for every QC: nothing iff it is not above the root or its path is complete without an underflow, a panic iff it is above the root and some number on its path underflows, a request in all other cases |
| `BlockTreeExamples.FillCanMiscount` | monad-blocktree/src/blocktree.rs:385-403 | a run after which one block is missing and four are asked for |
| `BlockTreeExamples.FillCanPanic` | monad-blocktree/src/blocktree.rs:390-397 | a run after which the subtraction fails |
| `BlockTrees.BlockTree.constructor` | monad-blocktree/src/blocktree.rs:117-125 | a fresh tree is the forest with only the root |
| `BlockTrees.BlockTree.Add` | monad-blocktree/src/blocktree.rs:222-235 | one add step: refused iff known or not above the root, otherwise linked into its parent's list and given its own children |
| `BlockTrees.BlockTree.Prune` | monad-blocktree/src/blocktree.rs:152-218 | on every linked tree: its checks hold if and only if the path is there and coherent; then it returns that path, installs the new root with the round, sequence number, epoch and timestamp of its header and its child list, and removes by QC round, keeping links always and the full invariant under the branch hypothesis |
| `BlockTrees.BlockTree.TakePath` | monad-blocktree/src/blocktree.rs:160-184 | on every linked tree the climb fails exactly when a block of the path is missing or incoherent; otherwise it returns the whole path in commit order, and it removes only blocks the sweep would remove |
| `BlockTrees.BlockTree.CollectGarbage` | monad-blocktree/src/blocktree.rs:186-204 | what remains are exactly the entries whose QC round reaches the round given, unchanged |
| `BlockTrees.BlockTree.GetBlocksOnPathFromRoot` | monad-blocktree/src/blocktree.rs:419-440 | a path is returned iff the block is connected, and it is the path from the root |
| `BlockTrees.BlockTree.GetParentBlockChain` | monad-blocktree/src/blocktree.rs:529-541 | computes the parent chain whose linking is proved separately |
| `BlockTrees.BlockTree.MaybeFillPathToRoot` | monad-blocktree/src/blocktree.rs:378-404 | nothing iff the QC is not above the root or the path is complete; a panic iff a subtraction underflows; otherwise the range ending at the first unknown ancestor |
| `BlockTrees.BlockTree.FindIncoherent` | monad-blocktree/src/blocktree.rs:248-257 | the first incoherent block of the path, or none |
| `BlockTrees.BlockTree.TryUpdateCoherency` | monad-blocktree/src/blocktree.rs:237-323 | a block is coherent afterwards iff it was before, or it lies at or below the block where coherence stops on the way to the given one and the policy, shown the whole branch from the child of the root to the parent, accepts every block in between; the result lists exactly the newly coherent blocks, once each, parents before children; invariant kept |
| `BlockTrees.BlockTree.CheckNext` | monad-blocktree/src/blocktree.rs:263-283 | the answer is that of the policy on the block, the parent-linked list of all blocks between the root and it in the original tree, and the root, although flags have changed meanwhile |
| `BlockTrees.BlockTree.UpdateFrom` | monad-blocktree/src/blocktree.rs:259-323 | the queue search computes the fixpoint from the first incoherent block |
| `BlockTrees.BlockTree.VisitNext` | monad-blocktree/src/blocktree.rs:263-320 | one iteration of the search keeps its invariant: the front of the queue is marked, listed and followed by its children iff the policy passes it |
| `BlockTrees.BlockTree.GetHighCommittableQc` | monad-blocktree/src/blocktree.rs:330-376 | a QC of maximal round among connected blocks whose QC is one round above the QC of their parent and whose grandparent is coherent and not the root; the returned QC satisfies the round equation; none iff there is no such block |
| `BlockTrees.BlockTree.HigherQc` | monad-blocktree/src/blocktree.rs:334-372 | one visit keeps the maximum, over the blocks visited so far, of the QCs that satisfy the round equation and have a coherent grandparent other than the root |
| `BlockTrees.BlockTree.HighestRoundCoherentDescendant` | monad-blocktree/src/blocktree.rs:543-582 | a coherent descendant of maximal round |
| `BlockTrees.BlockTree.GetHighestCoherentBlockOnPathFromRoot` | monad-blocktree/src/blocktree.rs:443-451 | the last coherent block of the path, none iff there is no path or that block is the root |
| `BlockTrees.BlockTree.GetCanonicalCoherentTip` | monad-blocktree/src/blocktree.rs:584-614 | always coherent; with a gap above the QC's block, of maximal round in the whole tree; the root for a QC of the root; the deepest coherent ancestor of an incoherent block; the best coherent descendant of a coherent one |
| `BlockTreeDriver.Call` | monad-blocktree/src/blocktree.rs:152-323 | any allowed call on the object is one step, fails no check, and leaves the tree and its payload index valid |
| `BlockTreeDriver.RunCalls` | monad-blocktree/src/blocktree.rs:117-323 | for every permitted sequence of calls the object goes through a run of exactly these calls, valid at every point, and all it returns from prune is one chain from the initial root to its present root |
| `BlockSyncModel.HeadersDetermined` | monad-blocksync/src/blocksync.rs:508-533 | two header lists that verify for the same range are equal |
| `BlockSyncModel.EmittedBlocksDetermined` | monad-blocksync/src/blocksync.rs:910-951 | two complete block lists for the same range are equal, whoever answered |
| `BlockSyncModel.BodyArrivedKeepsInv` | monad-blocksync/src/blocksync.rs:817-858 | taking a body in keeps the counter equal to the initiated entries, every missing body requested, bodies matching headers, and the tracked ranges |
| `BlockSyncModel.HeadersArrivedKeepsInv` | monad-blocksync/src/blocksync.rs:664-716 | moving a range to the completed map keeps it tracked in exactly one map, with a request entry for every missing body |
| `BlockSyncModel.InitiateKeepsInv` | monad-blocksync/src/blocksync.rs:612-635 | starting a waiting request below the limit keeps the counter exact and the request attended |
| `BlockSyncModel.AbsorbOneMore` | monad-blocksync/src/blocksync.rs:565-610 | handing out cached bodies one by one, in any order, equals handing out the set at once |
| `BlockSyncModel.EmitOfIsComplete` | monad-blocksync/src/blocksync.rs:910-951 | the headers and bodies of a range held in good order are the complete range |
| `BlockSyncSteps.SelfRequestedRests` | monad-blocksync/src/blocksync.rs:293-330 | after a self request the range is tracked, everything is attended and the books balance, with a mode switch clearing all older ranges |
| `BlockSyncSteps.CancelledRests` | monad-blocksync/src/blocksync.rs:332-354 | a cancellation drops exactly that range, and only for the current requester, and is booked |
| `BlockSyncSteps.EmitWorks` | monad-blocksync/src/blocksync.rs:910-951 | emitting a filled range sends a complete range to the current mode and moves it from tracked to emitted |
| `BlockSyncSteps.RetryHeadersWorks` | monad-blocksync/src/blocksync.rs:733-777 | after a failed ledger fetch the re-armed timer attends the header request, peer or no peer |
| `BlockSyncSteps.RetryPayloadWorks` | monad-blocksync/src/blocksync.rs:856-901 | the same for a body request, with the scheduler still saturated |
| `BlockSyncSteps.LedgerAnsweredWorks` | monad-blocksync/src/blocksync.rs:954-1043 | an answered ledger fetch leaves at most the answered request unattended |
| `BlockSyncs.JoinedHeadersVerify` | monad-blocksync/src/blocksync.rs:966-1005 | ledger headers joined to the cached suffix verify for the rebuilt range |
| `BlockSyncs.CachedSuffix` | monad-blocksync/src/blocksync.rs:378-421 | the cached suffix either answers the whole request or leaves a ledger part from which the original range is rebuilt |
| `BlockSyncs.CachedPartFits` | monad-blocksync/src/blocksync.rs:378-421 | what either kind of cache holds of a range answers it or leaves a ledger part that rebuilds it |
| `BlockSyncs.BlockSync.constructor` | monad-blocksync/src/blocksync.rs:196-216 | a fresh state satisfies the invariant with empty books |
| `BlockSyncs.BlockSync.HandleSelfRequest` | monad-blocksync/src/blocksync.rs:293-330 | new state, commands and books of a self request; empty ranges and tracked ranges do nothing; invariant kept |
| `BlockSyncs.BlockSync.ClearSelfRequests` | monad-blocksync/src/blocksync.rs:229-234 | all self requests and the in-flight counter are gone |
| `BlockSyncs.BlockSync.HandleSelfCancelRequest` | monad-blocksync/src/blocksync.rs:332-354 | drops the range from whichever map tracks it for this requester; invariant kept |
| `BlockSyncs.BlockSync.HandleCompletedRanges` | monad-blocksync/src/blocksync.rs:910-951 | emits every filled range once, with its headers and bodies as held, and nothing else, and leaves no filled range behind |
| `BlockSyncs.BlockSync.LetGo` | monad-blocksync/src/blocksync.rs:926-946 | one filled range is taken out and emitted with every header joined to its body; the two expects do not fire |
| `BlockSyncs.BlockSync.GetCachedPayload` | monad-blocksync/src/blocksync.rs:535-553 | found iff the block cache or some completed range has the body, and the body has that id |
| `BlockSyncs.BlockSync.TakeBody` | monad-blocksync/src/blocksync.rs:817-858 | the request goes, the counter follows without underflow, every range missing the body gets it |
| `BlockSyncs.BlockSync.UseCachedPayloads` | monad-blocksync/src/blocksync.rs:565-610 | absorbs exactly the cached ids and resets exactly the timers of those that had gone to a peer |
| `BlockSyncs.BlockSync.InitiateWaiting` | monad-blocksync/src/blocksync.rs:612-635 | ends with ten in flight or nothing waiting, and fetches exactly the requests it started, once each |
| `BlockSyncs.BlockSync.TryInitiatePayloadRequestsForSelf` | monad-blocksync/src/blocksync.rs:556-640 | the scheduler pass as a relation of states and commands; afterwards it is saturated and no filled range is held back |
| `BlockSyncs.BlockSync.AcceptHeaders` | monad-blocksync/src/blocksync.rs:664-716 | valid headers move the range to the completed map, queue the bodies not requested yet, and reset the timer iff a peer answered |
| `BlockSyncs.BlockSync.RetryHeaders` | monad-blocksync/src/blocksync.rs:733-777 | the request is sent to the chosen peer and to nobody else, the entry names that peer, and the timer is armed with or without a peer |
| `BlockSyncs.BlockSync.RetryPayload` | monad-blocksync/src/blocksync.rs:856-901 | the same for a body request |
| `BlockSyncs.BlockSync.HandleHeadersResponseForSelf` | monad-blocksync/src/blocksync.rs:643-785 | whoever answers and whoever was asked: verified headers for a tracked range end its header request, the range is held or emitted with exactly these headers, and the timer is taken back if a peer answered; assertions hold, invariant kept; responses for untracked ranges change nothing |
| `BlockSyncs.BlockSync.HandlePayloadResponseForSelf` | monad-blocksync/src/blocksync.rs:789-907 | the same for bodies: the request is gone and no range still held lacks the body; filled ranges are emitted in the same call |
| `BlockSyncs.BlockSync.HandlePeerResponse` | monad-blocksync/src/blocksync.rs:1046-1059 | any response of any peer keeps the invariant, and a good answer to a request in progress is used as above with its timer taken back |
| `BlockSyncs.BlockSync.HandleTimeout` | monad-blocksync/src/blocksync.rs:1062-1158 | a request in progress is sent to the chosen peer and to nobody else, its entry names that peer and its timer is armed again; any other timeout is ignored; invariant kept |
| `BlockSyncs.BlockSync.HandlePeerRequest` | monad-blocksync/src/blocksync.rs:357-449 | a peer is answered at once if and only if the cache has all it asks for (a body is then sent as found); otherwise exactly the missing part is fetched and the peer recorded; nothing happens iff the range is empty |
| `BlockSyncs.BlockSync.ServeHeaders` | monad-blocksync/src/blocksync.rs:366-424 | headers are sent if and only if the whole range is in the block tree, and then verify; otherwise the missing prefix is fetched, with the cached suffix kept so that the two rebuild the range |
| `BlockSyncs.BlockSync.HandleLedgerResponse` | monad-blocksync/src/blocksync.rs:954-1043 | every waiting peer gets one answer for the range or body it asked for, found iff the ledger found it, then the own request is served; invariant kept |
| `BlockSyncs.BlockSync.ReplyHeaders` | monad-blocksync/src/blocksync.rs:966-1005 | header answers: one per asker, for the original range, each passing the asker's own verification |
| `BlockSyncs.BlockSync.ReplyPayloads` | monad-blocksync/src/blocksync.rs:1007-1035 | body answers: one per waiting peer and to nobody else |
| `BlockSyncRelation.ScheduledRests` | monad-blocksync/src/blocksync.rs:556-640 | any scheduler pass keeps every initiated request attended, the count exact and full, and no filled range behind, from the states and commands alone |
| `BlockSyncRelation.ScheduledEmits` | monad-blocksync/src/blocksync.rs:556-640 | a scheduler pass emits exactly the ranges it lets go, once each, complete and for the current mode |
| `BlockSyncRelation.ResponseRests` | monad-blocksync/src/blocksync.rs:643-907 | any response of anybody leaves the state attended, settled and balanced; from the ranges named in its commands it follows that exactly those that went are emitted, once each and complete |
| `BlockSyncRelation.StepKeepsOk` | monad-blocksync/src/blocksync.rs:293-1158 | every event keeps the whole state invariant |
| `BlockSyncRelation.StepDecidesFate` | monad-blocksync/src/blocksync.rs:293-1158 | after any event a range is tracked iff the event is an accepted request for it, or it was tracked and is neither emitted, nor cancelled by the current requester, nor cleared by a non-empty request of the other one; it is emitted at most once and only if tracked |
| `BlockSyncRelation.StepIsSound` | monad-blocksync/src/blocksync.rs:293-1158 | every emit of any event is a complete range and every header answer verifies for the range it names |
| `BlockSyncRelation.StepAnswersRequests` | monad-blocksync/src/blocksync.rs:357-449 | every answer of any event goes to a peer that is waiting for exactly that or asking for it in this event |
| `BlockSyncModel.GoodAnswersAreUsed` | monad-blocksync/src/blocksync.rs:643-907 | every handled response, from the ledger or a peer, that brings what a request in progress asks for is used as above |
| `BlockSyncProgress.StepAsks` | monad-blocksync/src/blocksync.rs:733-901 | for every event, request and peer: SendRequest is issued, then once, iff the event is the timeout of the request in progress or the ledger's refusal of it while it was with the ledger, and the peer is the one chosen; ScheduleTimeout is issued once iff so, whatever the peer |
| `BlockSyncProgress.StepTargets` | monad-blocksync/src/blocksync.rs:1062-1158 | after such an event the request is with the chosen peer, unless it is a body at hand and is dropped; no other event changes where a request in progress is, short of a change of requester |
| `BlockSyncProgress.HeadersAreUsed` | monad-blocksync/src/blocksync.rs:643-732 | for every step: verified headers for a tracked range end that header request and no other, the range is held or emitted with exactly these headers, and a peer's answer takes back the timer |
| `BlockSyncProgress.BodyIsUsed` | monad-blocksync/src/blocksync.rs:789-855 | for every step: the body of an initiated request removes it from the requests, no held range lacks it, and a peer's answer takes back the timer |
| `BlockSyncProgress.HeaderRequestsLeft` | monad-blocksync/src/blocksync.rs:643-785 | a response ends a header request iff it brings verified headers for it |
| `BlockSyncProgress.BodyRequestsLeft` | monad-blocksync/src/blocksync.rs:556-907 | exactly which bodies are requested after a response |
| `BlockSyncProgress.ResponseTakesBack` | monad-blocksync/src/blocksync.rs:574-592 | a response takes back a timer iff a peer brought what was asked for, or the request had gone to a peer and its body is at hand |
| `BlockSyncProgress.ResponseFetches` | monad-blocksync/src/blocksync.rs:612-636 | a response has a body fetched from the ledger iff it starts that request |
| `BlockSyncProgress.SelfRequestFetches` | monad-blocksync/src/blocksync.rs:293-330 | a self request has its headers fetched exactly when it is accepted, and is then in progress at the ledger under the requester as mode |
| `BlockSyncProgress.StepKeepsUnheld` | monad-blocksync/src/blocksync.rs:556-609 | every step keeps that no request is held for a body some range has kept |
| `BlockSyncPeers.CachedPartIsLongest` | monad-blocksync/src/blocksync.rs:378-421 | no longer linked part of the range ending at its last block is in the block tree than the one set aside |
| `BlockSyncPeers.HeadersAreServed` | monad-blocksync/src/blocksync.rs:357-423 | a header request is answered at once, with headers that verify, iff the whole range is in the block tree; otherwise one ledger fetch is made and the peer waits for the range it asked for |
| `BlockSyncPeers.BodyIsServed` | monad-blocksync/src/blocksync.rs:424-449 | a body request is answered at once with that body iff it is cached or kept; otherwise it is fetched and the peer waits |
| `BlockSyncPeers.LedgerHeadersGoOut` | monad-blocksync/src/blocksync.rs:954-1044 | headers from the ledger, or the lack of them, go to every peer waiting on that ledger range, for the range it asked for |
| `BlockSyncPeers.LedgerBodyGoesOut` | monad-blocksync/src/blocksync.rs:954-1044 | a body from the ledger, or the lack of it, goes to every peer waiting for it |
| `BlockSyncPeers.NobodyIsForgotten` | monad-blocksync/src/blocksync.rs:357-449 | a waiting peer goes on waiting through every event until it is answered or asks for other headers |
| `BlockSyncRuns.RunsRest` | monad-blocksync/src/blocksync.rs:293-1158 | the state invariant holds after every run |
| `BlockSyncRuns.NothingIsStranded` | monad-blocksync/src/blocksync.rs:157-162 | after every run each header request and each initiated body request has an armed timer or an unanswered ledger fetch, the in-flight count is exact, at most 10, and 10 unless nothing waits, a range is in one map only, every missing body is requested and no filled range is held |
| `BlockSyncRuns.BooksCountEvents` | monad-blocksync/src/blocksync.rs:293-354 | the ghost books are the numbers of events that accept, cancel or clear the range, and of its emits in the log |
| `BlockSyncRuns.RequestsAreAccountedFor` | monad-blocksync/src/blocksync.rs:293-354 | over every run the number of accepted requests for a range equals its emits plus its cancellations plus its clearings, plus one if it is tracked |
| `BlockSyncRuns.LastEventDecides` | monad-blocksync/src/blocksync.rs:293-1158 | at every point of every run the fate of each range is decided as above |
| `BlockSyncRuns.TrackedUntilEnded` | monad-blocksync/src/blocksync.rs:293-354 | a range tracked at some point of a run is tracked at every later point until it is emitted, cancelled or cleared |
| `BlockSyncRuns.RunsAreSound` | monad-blocksync/src/blocksync.rs:910-951 | everything emitted or answered in any run is sound |
| `BlockSyncRuns.EmitsAgree` | monad-blocksync/src/blocksync.rs:910-951 | two emits of the same range in any two runs carry the same blocks |
| `BlockSyncRuns.WaitingWasRequested` | monad-blocksync/src/blocksync.rs:357-449 | in every run a peer recorded as waiting asked for exactly that in an earlier event |
| `BlockSyncRuns.AnswersWereRequested` | monad-blocksync/src/blocksync.rs:357-449 | in every run each answer sent is for a range or body its receiver asked for |
| `BlockSyncRuns.EveryPeerIsServed` | monad-blocksync/src/blocksync.rs:357-449 | over every run, a peer that asked for a body or a range that is not empty has been answered, waits for the ledger, or has asked for other headers since |
| `BlockSyncRuns.PeersWereAsked` | monad-blocksync/src/blocksync.rs:733-901 | over every run, whenever an entry names a peer the request was sent to that peer |
| `BlockSyncRuns.NothingKeptIsAskedFor` | monad-blocksync/src/blocksync.rs:556-609 | after every run no body is requested that some range has kept |
| `BlockSyncRuns.LastResponseDecides` | monad-blocksync/src/blocksync.rs:556-907 | in every run, a response leaves a body requested iff it was or its header is new, it did not come with the response, and it is not at hand when the response is used |
| `BlockSyncRuns.Handle` | monad-blocksync/src/blocksync.rs:293-1158 | the handlers refine the step relation: each event leads from the old state to the new one by exactly that step, with those commands |
| `BlockSyncRuns.RunEvents` | monad-blocksync/src/blocksync.rs:293-1158 | for every sequence of events the handlers go through a run of exactly these events, ending in the object's state with the issued commands as its log |
| `BlsTree.CountsAddIffDisjoint` | monad-bls/src/aggregation_tree.rs:206-227 | the count comparison in merge_nodes holds iff the signer sets are disjoint |
| `BlsTree.LeavesSplit` | monad-bls/src/aggregation_tree.rs:119-159 | the leaves under an inner heap node are the disjoint union of those under its children, for every number of leaves |
| `BlsTree.LeafAggregates` | monad-bls/src/aggregation_tree.rs:137-147 | a leaf holds its signer alone and its signature |
| `BlsTree.MergeAggregates` | monad-bls/src/aggregation_tree.rs:206-227 | merging two disjoint aggregates passes both assertions and aggregates the union |
| `BlsTree.NewTree` | monad-bls/src/aggregation_tree.rs:119-159 | every node of the finished heap holds the signer set and the sum of exactly the leaves beneath it |
| `BlsTree.CopyLeaves` | monad-bls/src/aggregation_tree.rs:137-147 | the last n slots hold the given signatures in order |
| `BlsTree.MergeUp` | monad-bls/src/aggregation_tree.rs:149-158 | filling the inner nodes backwards in place yields the heap |
| `BlsTree.UnblamedSumMatches` | monad-bls/src/aggregation_tree.rs:161-203 | under every node whose ancestors all fail, the unreported signatures sum to what their signers should have signed |
| `BlsTree.VerifiedRootBlamesNobody` | monad-bls/src/aggregation_tree.rs:161-203 | if the root verifies nothing is reported, even if bad signatures cancel |
| `BlsTree.NobodyBlamedIffVerifies` | monad-bls/src/aggregation_tree.rs:161-203 | the full aggregate verifies if and only if nothing is reported and the signers' aggregate key is not infinity |
| `BlsTree.InfinityKeyEscapesSearch` | monad-bls/src/aggregation_tree.rs:39-74 | honest signers whose keys cancel: nothing is reported and the aggregate does not verify |
| `BlsTree.InfinityKeyExample` | monad-bls/src/aggregation_tree.rs:39-74 | a committee of two on which the equivalence fails |
| `BlsTree.HonestLeafVerifies` | monad-bls/src/aggregation_tree.rs:39-74 | a leaf verifies iff its signature is the expected one and not infinity |
| `BlsCollection.LeafNamesItsSigner` | monad-bls/src/aggregation_tree.rs:174-192 | the first set bit of a leaf recovers the signature and its signer; the expects do not fire |
| `BlsCollection.VerifyTree` | monad-bls/src/aggregation_tree.rs:161-203 | the queue search terminates and reports, once each, exactly the leaves that fail along with all their ancestors; Ok iff there is none; on the tree of no signatures it accepts an empty mapping and panics on any other |
| `BlsCollection.EmptyNodeVerifiesIff` | monad-bls/src/aggregation_tree.rs:39-74 | the node of no signers verifies iff the mapping is empty |
| `BlsCollection.SumOverPermuted` | monad-bls/src/aggregation_tree.rs:119-159 | sums do not depend on the order of the signatures |
| `BlsCollection.AggregateIgnoresOrder` | monad-bls/src/aggregation_tree.rs:119-159 | the aggregate of one order of the signatures is the aggregate of every order |
| `BlsCollection.RootAggregatesAll` | monad-bls/src/aggregation_tree.rs:119-159 | every leaf is under the root once |
| `BlsCollection.CollectSignatures` | monad-bls/src/aggregation_tree.rs:344-362 | the first pass either stops at the first signature that contradicts an earlier one of the same node and reports both in this order, or yields the distinct signatures and all non-members |
| `BlsCollection.NonMembersCounted` | monad-bls/src/aggregation_tree.rs:344-362 | the reported non-members are all given signatures of nodes outside the mapping, each as often as it was given |
| `BlsCollection.NewCollection` | monad-bls/src/aggregation_tree.rs:339-376 | the error cases exactly, the panic on no signatures with a non-empty mapping included; a collection aggregates all distinct signatures whatever the order and verifies iff its key is not infinity; a report names only individually invalid signatures and the rest matches |
| `BlsCollection.CollectionIsAggregate` | monad-bls/src/aggregation_tree.rs:339-376 | if nobody is reported the root aggregates every listing of the input |
| `BlsCollection.BlameMeansWholeFails` | monad-bls/src/aggregation_tree.rs:161-203 | if somebody is reported the aggregate of the whole input does not verify |
| `BlsCollection.ReportIsFaulty` | monad-bls/src/aggregation_tree.rs:161-203 | every reported signature is individually invalid, the unreported ones sum to what was expected, and some are unreported only within the signer limit |
| `BlsRetry.RestAggregateMatches` | monad-consensus/src/vote_state.rs:139-182 | once the reported signatures are dropped, the aggregate of the rest is what its signers should have signed |
| `BlsRetry.RestVerifiesIff` | monad-consensus/src/vote_state.rs:139-182 | the rest verifies if and only if its aggregate key is not infinity |
| `BlsRetry.RetryReportsNobody` | monad-consensus/src/vote_state.rs:139-182 | the search over the rest reports nobody unless that key is infinity |
| `BlsRetry.CollectVotes` | monad-consensus/src/vote_state.rs:139-205 | the retry loop terminates, drops only voters whose signature fails by itself, stops with a collection of all that are left iff they are enough, which verifies iff their key is not infinity, and calls the collection at most twice when no keys cancel |
| `SignerMaps.Encode` | monad-bls/src/aggregation_tree.rs:279-299 | the wire form holds bit k of the map at bit k from the back, zero padding, and the bit count modulo 2^32 |
| `SignerMaps.Decode` | monad-bls/src/aggregation_tree.rs:301-333 | the two rejections and the bits read back, as a function of the wire form |
| `SignerMaps.DecodeOfEncode` | monad-bls/src/aggregation_tree.rs:279-333 | decoding an encoding gives the map back for every length up to 16384 and is rejected beyond |
| `SignerMaps.EncodeOfDecodeIff` | monad-bls/src/aggregation_tree.rs:279-333 | an accepted wire form is the encoding of what it decodes to iff its padding bits are zero |
| `SignerMaps.PaddingIsIgnored` | monad-bls/src/aggregation_tree.rs:301-333 | two wire forms of one map, of which only the one without padding bits is its encoding |
| `SignerMaps.EncodingIsUnique` | monad-bls/src/aggregation_tree.rs:279-299 | the bytes are determined by the bits |
| `SignerMaps.EncodingIsTheNumber` | monad-bls/src/aggregation_tree.rs:279-299 | the bytes, read as a big-endian number, are the bitmap read as a binary number with the first signer as its highest digit |
| `Timeouts.RankOrderIsTotal` | monad-consensus-types/src/timeout.rs:323-384 | the rank comparison is antisymmetric, transitive, total, and equal only on equal ranks |
| `Timeouts.RankOrderInRounds` | monad-consensus-types/src/timeout.rs:323-384 | QCs order by round, tips by tip round and then QC round, and a QC is above a tip of its own round |
| `Timeouts.PartialOrderFollowsRank` | monad-consensus-types/src/timeout.rs:116-128 | one extend is greater than another iff its rank is; incomparable iff different with equal rank |
| `Timeouts.HigherOfTwo` | monad-consensus-types/src/timeout.rs:480-490 | one comparison keeps the running maximum |
| `Timeouts.AddToGroup` | monad-consensus-types/src/timeout.rs:480-483 | one more timeout keeps the signers partitioned by their TimeoutInfo |
| `Timeouts.GroupIsComplete` | monad-consensus-types/src/timeout.rs:480-483 | a group has one vote for each timeout with its info, by its node with its signature, and no other |
| `Timeouts.NewTimeoutCertificate` | monad-consensus-types/src/timeout.rs:470-512 | one signature collection per distinct TimeoutInfo over exactly its signers, a high_extend no input outranks, and failure only with the error of some group |
| `Timeouts.TipRoundsDistinct` | monad-consensus-types/src/timeout.rs:470-512 | for timeouts of one epoch and round the groups have distinct (QC round, tip round) pairs |
| `Timeouts.HighExtendIsMaximum` | monad-consensus-types/src/timeout.rs:441-460 | if each info matches its extend, the chosen rank is the maximum over tip_rounds and is reached there |
| `Timeouts.EveryTimeoutIsCertified` | monad-consensus-types/src/timeout.rs:470-512 | every timeout has an entry with its rounds and its vote in that group, and in plain rounds is not above the chosen extend |
| `Rlp.UintOfBigEndian` | monad-archive/src/rlp_offset_scanner.rs:70-89 | big-endian bytes read back to the number, without a leading zero |
| `Rlp.ItemAt` | monad-archive/src/rlp_offset_scanner.rs:123-145 | cutting a list's content at the offsets of an item gives exactly that item's encoding |
| `RlpScanner.DecodeUint` | monad-archive/src/rlp_offset_scanner.rs:70-89 | the loop computes the big-endian value and fails exactly on no bytes, a leading zero, or a value beyond 64 bits |
| `RlpScanner.LengthsOfItem` | monad-archive/src/rlp_offset_scanner.rs:29-67 | at any encoded item the decoded lengths are its content and total length |
| `RlpScanner.RangesCoverContent` | monad-archive/src/rlp_offset_scanner.rs:123-145 | one range per item, each slicing to that item's encoding, contiguous, covering the content |
| `RlpScanner.ScanItems` | monad-archive/src/rlp_offset_scanner.rs:107-118 | the scanning loop returns the ranges of all items and stops at the end |
| `RlpScanner.GetRlpListRanges` | monad-archive/src/rlp_offset_scanner.rs:123-145 | on every well-formed list, the item ranges |
| `RlpScanner.GetTransactionRanges` | monad-archive/src/rlp_offset_scanner.rs:93-120 | on every well-formed block, the ranges of its transactions within the block |
| `RlpScanner.GetAllTxOffsets` | monad-archive/src/rlp_offset_scanner.rs:149-209 | fails iff the three counts differ; otherwise its shifted transaction ranges are those of get_transaction_ranges, next to the receipt and trace ranges |

## Left out

- Pacemaker, safety rules, message validation and the rest of the vote state (rounds, stake, double votes): only their consequences appear, as hypotheses; consensus safety is not claimed.
- Cryptography, hashing, point compression and lazy signatures (monad-bls/src/bls.rs): replaced by ideal ids and an abstract commutative monoid.
- `pick_peer` weights and randomness: any optional peer.
- Metrics counters, logging and debug formatting.
- Overflow of u64 additions on rounds and sequence numbers: these are unbounded here; the one checked subtraction that can fail is modelled.
- Timestamps along committed chains: the pass-through policy compares a child of the root only with 0.
- Answers per peer request: a second request of a peer with the same missing ledger prefix overwrites the first, so answers are counted per recorded request.
- Stale timers: a cancellation or mode switch takes back no timer, as in the code, so a timer may fire for a request that is gone; it is ignored then.
- RLP framing of the signer map and of the other messages (alloy_rlp): the map is modelled as a bit count and a byte list.
- RLP scanner on malformed input: `DecodeLength` and `DecodeUint` follow the code there, the theorems about ranges are for well-formed encodings.
- BlockTrees.BlockTree.Prune: the branch hypothesis is a hypothesis of the caller; without it only links, index agreement, the returned path and when the checks fail are promised.
- `get_seq_num_of_qc`, `get_timestamp_of_qc`, `get_block_round_of_qc` and the other one-line accessors: they read one field of the entry or of the root and change nothing, so no property above depends on them.
- Block persistence, archive readers, command line tools, cloud storage, compression, chain configuration and benches.
- Circuit breaker, timestamp bounds and vote delay percentiles.
