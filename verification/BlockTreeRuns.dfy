/** Whole runs of a block tree: any interleaving of add, try_update_coherency and
    prune from a fresh tree. */
module BlockTreeRuns {
  import opened ConsensusTypes
  import opened BlockForest

  datatype Event =
    | Add(block: FullBlock)
    | UpdateCoherency(id: BlockId, policy: Policy)
    | Prune(newRoot: BlockId)

  /** One call, with the list `prune` returns (empty for the other calls). */
  ghost predicate Step(f: Forest, e: Event, f': Forest, committed: seq<FullBlock>) {
    match e
    case Add(b) => AddStep(f, b, f') && committed == []
    case UpdateCoherency(id, policy) =>
      && committed == []
      && f' == if Connected(f, id) && FirstIncoherent(f, id).Some?
               then Updated(f, policy, FirstIncoherent(f, id).value) else f
    case Prune(n) =>
      if n == f.root.blockId then f' == f && committed == []
      else n in f.entries && f' == Pruned(f, n) && Connected(f, n) && committed == PathBlocks(f, n)
  }

  /** What the environment owes each call: well-formed blocks, policies that check the
      sequence number, and commits of coherent blocks under the branch hypothesis. */
  ghost predicate Allowed(f: Forest, e: Event) {
    match e
    case Add(b) => GoodBlock(b)
    case UpdateCoherency(_, policy) => SeqNumRule(policy)
    case Prune(n) => CoherentAt(f, n) && (n in f.entries ==> BranchHypothesis(f, n))
  }

  datatype Run = Start(root: RootInfo) | Then(before: Run, event: Event, forest: Forest, committed: seq<FullBlock>)

  function Initial(r: Run): RootInfo {
    match r case Start(root) => root case Then(before, _, _, _) => Initial(before)
  }

  function Last(r: Run): Forest {
    match r case Start(root) => NewForest(root) case Then(_, _, f, _) => f
  }

  /** Everything `prune` has returned so far, in order. */
  function Committed(r: Run): seq<FullBlock> {
    match r case Start(_) => [] case Then(before, _, _, out) => Committed(before) + out
  }

  ghost predicate IsRun(r: Run) {
    match r
    case Start(root) => root.Consistent()
    case Then(before, e, f, out) => IsRun(before) && Allowed(Last(before), e) && Step(Last(before), e, f, out)
  }

  // ----- Committed chains -----

  function EndOf(root: RootInfo, blocks: seq<FullBlock>): RootInfo {
    if blocks == [] then root else RootInfoOf(blocks[|blocks| - 1])
  }

  /** `b` extends a chain that ends at `tip`. */
  predicate Extends(tip: RootInfo, b: FullBlock) {
    && b.GetParentId() == tip.blockId
    && tip.round < b.GetBlockRound()
    && b.GetSeqNum() == tip.seqNum + 1
  }

  /** Parent-linked from `root`, rounds increasing, sequence numbers consecutive. */
  ghost predicate IsChain(root: RootInfo, blocks: seq<FullBlock>) {
    forall i :: 0 <= i < |blocks| ==> Extends(EndOf(root, blocks[..i]), blocks[i])
  }

  lemma ChainsJoin(root: RootInfo, a: seq<FullBlock>, b: seq<FullBlock>)
    requires IsChain(root, a) && IsChain(EndOf(root, a), b)
    ensures IsChain(root, a + b) && EndOf(root, a + b) == EndOf(EndOf(root, a), b)
  {
    forall i | 0 <= i < |a + b|
      ensures Extends(EndOf(root, (a + b)[..i]), (a + b)[i])
    {
      if i < |a| {
        assert (a + b)[..i] == a[..i];
      } else {
        assert (a + b)[..i] == a + b[..i - |a|];
      }
    }
  }

  /** No block is committed twice. */
  lemma {:induction false} ChainRoundsIncrease(root: RootInfo, blocks: seq<FullBlock>, i: nat, j: nat)
    requires IsChain(root, blocks) && i < j < |blocks|
    ensures blocks[i].GetBlockRound() < blocks[j].GetBlockRound()
    ensures blocks[i] != blocks[j]
    ensures blocks[j].GetSeqNum() == blocks[i].GetSeqNum() + (j - i)
    decreases j
  {
    assert Extends(EndOf(root, blocks[..j]), blocks[j]);
    if i < j - 1 {
      ChainRoundsIncrease(root, blocks, i, j - 1);
    }
  }

  /** The path to a coherent block is a chain from the root. */
  lemma {:induction false} CoherentPathIsChain(f: Forest, id: BlockId)
    requires Inv(f) && SeqLinked(f) && CoherentAt(f, id) && Connected(f, id)
    ensures IsChain(f.root, PathBlocks(f, id))
    ensures EndOf(f.root, PathBlocks(f, id)) ==
            if id == f.root.blockId then f.root else RootInfoOf(f.entries[id].block)
    decreases id
  {
    if id != f.root.blockId {
      var p := ParentOf(id);
      CoherentPathIsChain(f, p);
      var b := f.entries[id].block;
      assert b.header.WellFormed();
      var tip := EndOf(f.root, PathBlocks(f, p));
      assert Extends(tip, b);
      assert [b][..0] == [];
      assert IsChain(tip, [b]);
      ChainsJoin(f.root, PathBlocks(f, p), [b]);
    }
  }

  // ----- The run theorem -----

  lemma StepKeepsInv(f: Forest, e: Event, f': Forest, out: seq<FullBlock>)
    requires Inv(f) && SeqLinked(f) && Allowed(f, e) && Step(f, e, f', out)
    ensures Inv(f') && SeqLinked(f')
    ensures IsChain(f.root, out) && f'.root == EndOf(f.root, out)
  {
    match e
    case Add(b) => AddKeepsInv(f, b, f');
    case UpdateCoherency(id, policy) =>
      if Connected(f, id) && FirstIncoherent(f, id).Some? {
        FirstIncoherentSplits(f, id);
        UpdateKeepsInv(f, policy, FirstIncoherent(f, id).value);
      }
    case Prune(n) =>
      if n != f.root.blockId {
        CoherentPathIsChain(f, n);
        PruneKeepsInv(f, n);
      }
  }

  /** In every run every reachable tree satisfies the invariant, and everything ever
      committed forms one chain from the initial root to the current one. */
  lemma {:induction false} RunsCommitOneChain(r: Run)
    requires IsRun(r)
    ensures Inv(Last(r)) && SeqLinked(Last(r))
    ensures IsChain(Initial(r), Committed(r))
    ensures Last(r).root == EndOf(Initial(r), Committed(r))
  {
    match r
    case Start(_) =>
    case Then(before, e, f, out) =>
      RunsCommitOneChain(before);
      StepKeepsInv(Last(before), e, f, out);
      ChainsJoin(Initial(before), Committed(before), out);
  }

  /** No block is ever committed twice, at any two points of any run. */
  lemma NothingIsCommittedTwice(r: Run, i: nat, j: nat)
    requires IsRun(r) && i < j < |Committed(r)|
    ensures Committed(r)[i].GetId() != Committed(r)[j].GetId()
    ensures Committed(r)[i].GetBlockRound() < Committed(r)[j].GetBlockRound()
    ensures Committed(r)[j].GetSeqNum() == Committed(r)[i].GetSeqNum() + (j - i)
  {
    RunsCommitOneChain(r);
    ChainRoundsIncrease(Initial(r), Committed(r), i, j);
  }

  /** In every reachable tree, prune's own checks hold of any coherent block: it is in
      the tree, its path to the root is complete and every block on it is coherent. */
  lemma PruneNeverPanics(r: Run, n: BlockId, k: nat)
    requires IsRun(r) && CoherentAt(Last(r), n)
    ensures Connected(Last(r), n)
    ensures k < |PathBlocks(Last(r), n)| ==> CoherentAt(Last(r), PathBlocks(Last(r), n)[k].GetId())
  {
    RunsCommitOneChain(r);
    CoherentHasCoherentPath(Last(r), n);
    PathCoherentIff(Last(r), n);
  }
}
