/** Runs that show what the block tree does not promise. */
module BlockTreeExamples {
  import opened Collections
  import opened ConsensusTypes
  import opened BlockForest
  import opened BlockTreeRuns
  import opened ForestQueries

  function EmptyBlock(parent: BlockId, qcRound: Round, round: Round, seqNum: SeqNum): FullBlock {
    var body := Body([]);
    FullBlock(Header(round, 1, QuorumCertificate(Vote(parent, qcRound, 1), 0), 0, seqNum, seqNum, [], body.GetId()), body)
  }

  function GenesisRoot(seqNum: SeqNum): RootInfo {
    RootInfo(0, seqNum, 1, Digest(0), 0)
  }

  // ----- prune without the branch hypothesis -----

  /** Two rivals off genesis, both acceptable to the pass-through policy; the second has a child
      certified after the round of the first. */
  predicate Rivals(left: FullBlock, right: FullBlock, child: FullBlock) {
    && GoodBlock(left) && GoodBlock(right) && GoodBlock(child)
    && left.GetParentId() == Digest(0) && right.GetParentId() == Digest(0) && child.GetParentId() == right.GetId()
    && left.GetId() != right.GetId() && left.GetId() != child.GetId() && right.GetId() != child.GetId()
    && PassthruCheck(left, [], GenesisRoot(0)).Ok? && PassthruCheck(right, [], GenesisRoot(0)).Ok?
    && PassthruCheck(child, [right], GenesisRoot(0)).Ok?
    && right.GetParentRound() < left.GetBlockRound() <= child.GetParentRound()
  }

  /** The tree of the three, with the flags of the two sides. */
  function Fork(left: FullBlock, right: FullBlock, child: FullBlock, l: bool, r: bool): Forest {
    Forest(GenesisRoot(0), [left.GetId(), right.GetId()],
           map[left.GetId() := Entry(left, l, []),
               right.GetId() := Entry(right, r, [child.GetId()]),
               child.GetId() := Entry(child, r, [])])
  }

  function ForkWithoutChild(left: FullBlock, right: FullBlock): Forest {
    Forest(GenesisRoot(0), [left.GetId(), right.GetId()],
           map[left.GetId() := Entry(left, false, []), right.GetId() := Entry(right, false, [])])
  }

  function LeftOnly(left: FullBlock): Forest {
    Forest(GenesisRoot(0), [left.GetId()], map[left.GetId() := Entry(left, false, [])])
  }

  lemma ForkAdds(left: FullBlock, right: FullBlock, child: FullBlock)
    requires Rivals(left, right, child)
    ensures AddStep(NewForest(GenesisRoot(0)), left, LeftOnly(left))
    ensures AddStep(LeftOnly(left), right, ForkWithoutChild(left, right))
    ensures AddStep(ForkWithoutChild(left, right), child, Fork(left, right, child, false, false))
  {
  }

  lemma ForkPaths(left: FullBlock, right: FullBlock, child: FullBlock, l: bool, r: bool)
    requires Rivals(left, right, child)
    ensures var f := Fork(left, right, child, l, r);
            && Connected(f, left.GetId()) && PathBlocks(f, left.GetId()) == [left]
            && Connected(f, right.GetId()) && PathBlocks(f, right.GetId()) == [right]
            && Connected(f, child.GetId()) && PathBlocks(f, child.GetId()) == [right, child]
            && PathBlocks(f, Digest(0)) == []
  {
    var f := Fork(left, right, child, l, r);
    assert Connected(f, Digest(0)) && PathBlocks(f, Digest(0)) == [];
    assert PathBlocks(f, right.GetId()) == PathBlocks(f, Digest(0)) + [right];
    assert PathBlocks(f, left.GetId()) == PathBlocks(f, Digest(0)) + [left];
    assert PathBlocks(f, child.GetId()) == PathBlocks(f, right.GetId()) + [child];
  }

  lemma ForkAccepts(left: FullBlock, right: FullBlock, child: FullBlock, l: bool, r: bool)
    requires Rivals(left, right, child)
    ensures var f := Fork(left, right, child, l, r);
            && Accepted(f, PassthruCheck, left.GetId(), left.GetId()) && !Accepted(f, PassthruCheck, right.GetId(), left.GetId())
            && !Accepted(f, PassthruCheck, left.GetId(), right.GetId()) && Accepted(f, PassthruCheck, right.GetId(), right.GetId())
            && !Accepted(f, PassthruCheck, left.GetId(), child.GetId()) && Accepted(f, PassthruCheck, right.GetId(), child.GetId())
  {
    var f := Fork(left, right, child, l, r);
    ForkPaths(left, right, child, l, r);
    assert Passes(f, PassthruCheck, left.GetId()) && Passes(f, PassthruCheck, right.GetId());
    assert Passes(f, PassthruCheck, child.GetId());
    assert !Accepted(f, PassthruCheck, left.GetId(), Digest(0)) && !Accepted(f, PassthruCheck, right.GetId(), Digest(0));
  }

  /** A tree is the updated one if it differs in the flags of the accepted blocks only. */
  lemma UpdatedIs(f: Forest, policy: Policy, u: BlockId, g: Forest)
    requires g.root == f.root && g.rootChildren == f.rootChildren && g.entries.Keys == f.entries.Keys
    requires forall id :: id in f.entries ==>
               g.entries[id] == f.entries[id].(coherent := f.entries[id].coherent || Accepted(f, policy, u, id))
    ensures Updated(f, policy, u) == g
  {
    assert Updated(f, policy, u).entries == g.entries;
  }

  lemma ForkUpdates(left: FullBlock, right: FullBlock, child: FullBlock, l: bool, u: BlockId)
    requires Rivals(left, right, child) && u == (if l then right else left).GetId()
    ensures Updated(Fork(left, right, child, l, false), PassthruCheck, u) == Fork(left, right, child, true, l)
  {
    ForkAccepts(left, right, child, l, false);
    UpdatedIs(Fork(left, right, child, l, false), PassthruCheck, u, Fork(left, right, child, true, l));
  }

  predicate FirstIncoherentAt(f: Forest, id: BlockId, u: BlockId) {
    Connected(f, id) && FirstIncoherent(f, id) == Some(u)
  }

  lemma ForkStarts(left: FullBlock, right: FullBlock, child: FullBlock)
    requires Rivals(left, right, child)
    ensures FirstIncoherentAt(Fork(left, right, child, false, false), left.GetId(), left.GetId())
    ensures FirstIncoherentAt(Fork(left, right, child, true, false), child.GetId(), right.GetId())
  {
    ForkPaths(left, right, child, false, false);
    ForkPaths(left, right, child, true, false);
    assert FirstIncoherent(Fork(left, right, child, true, false), right.GetId()) == Some(right.GetId());
  }

  function ForkAdded(left: FullBlock, right: FullBlock, child: FullBlock): Run {
    var r1 := Then(Start(GenesisRoot(0)), Add(left), LeftOnly(left), []);
    var r2 := Then(r1, Add(right), ForkWithoutChild(left, right), []);
    Then(r2, Add(child), Fork(left, right, child, false, false), [])
  }

  function ForkRun(left: FullBlock, right: FullBlock, child: FullBlock): Run {
    var r4 := Then(ForkAdded(left, right, child), UpdateCoherency(left.GetId(), PassthruCheck),
                   Fork(left, right, child, true, false), []);
    Then(r4, UpdateCoherency(child.GetId(), PassthruCheck), Fork(left, right, child, true, true), [])
  }

  lemma ForkAddedIsRun(left: FullBlock, right: FullBlock, child: FullBlock)
    requires Rivals(left, right, child)
    ensures IsRun(ForkAdded(left, right, child))
  {
    ForkAdds(left, right, child);
    var r1 := Then(Start(GenesisRoot(0)), Add(left), LeftOnly(left), []);
    assert Step(Last(r1.before), r1.event, r1.forest, []);
    assert IsRun(r1);
    assert IsRun(Then(r1, Add(right), ForkWithoutChild(left, right), []));
  }

  /** Three adds and two updates lead to the fork with every block coherent. */
  lemma ForkIsReached(left: FullBlock, right: FullBlock, child: FullBlock)
    requires Rivals(left, right, child)
    ensures IsRun(ForkRun(left, right, child)) && Last(ForkRun(left, right, child)) == Fork(left, right, child, true, true)
  {
    ForkAddedIsRun(left, right, child);
    ForkStarts(left, right, child);
    ForkUpdates(left, right, child, false, left.GetId());
    ForkUpdates(left, right, child, true, right.GetId());
    PassthruObeysSeqNumRule();
  }

  /** The block is coherent, and yet prune would fail on it. */
  ghost predicate Stranded(f: Forest, id: BlockId) {
    CoherentAt(f, id) && !Connected(f, id) && !PathCoherent(f, id)
  }

  lemma ForkStrands(left: FullBlock, right: FullBlock, child: FullBlock)
    requires Rivals(left, right, child)
    ensures var f, n := Fork(left, right, child, true, true), left.GetId();
            && n in f.entries && CoherentAt(f, n) && !BranchHypothesis(f, n)
            && Stranded(Pruned(f, n), child.GetId())
  {
    var f, n, c := Fork(left, right, child, true, true), left.GetId(), child.GetId();
    var f' := Pruned(f, n);
    assert ParentOf(c) == right.GetId() && right.GetId() !in f'.entries && f'.root.blockId == n;
    assert !Reaches(f'.entries, n, right.GetId()) && !PathCoherent(f', right.GetId());
    ForkPaths(left, right, child, true, true);
    assert !Reaches(f.entries, n, Digest(0)) && !Reaches(f.entries, n, right.GetId());
    assert !Reaches(f.entries, n, c);
  }

  const LEFT := EmptyBlock(Digest(0), 0, 1, 1)
  const RIGHT := EmptyBlock(Digest(0), 0, 2, 1)
  const CHILD := EmptyBlock(RIGHT.GetId(), 2, 3, 2)

  lemma RivalsExist()
    ensures Rivals(LEFT, RIGHT, CHILD)
  {
  }

  /** Without the branch hypothesis the claim fails on a run: committing a block of round 1 while
      its rival of round 2 has a certified child leaves that child coherent with no way to the
      root, so that a later prune to it fails. */
  lemma PruneCanStrandCoherentBlock()
    ensures exists r, n, c :: IsRun(r) && n in Last(r).entries && CoherentAt(Last(r), n) && !BranchHypothesis(Last(r), n)
                              && Linked(Pruned(Last(r), n)) && Stranded(Pruned(Last(r), n), c)
  {
    RivalsExist();
    StrandsBy(LEFT, RIGHT, CHILD);
  }

  lemma StrandsBy(left: FullBlock, right: FullBlock, child: FullBlock)
    requires Rivals(left, right, child)
    ensures var r, n := ForkRun(left, right, child), left.GetId();
            && IsRun(r) && n in Last(r).entries && CoherentAt(Last(r), n) && !BranchHypothesis(Last(r), n)
            && Linked(Pruned(Last(r), n)) && Stranded(Pruned(Last(r), n), child.GetId())
  {
    ForkIsReached(left, right, child);
    RunsCommitOneChain(ForkRun(left, right, child));
    ForkStrands(left, right, child);
    PruneKeepsLinks(Fork(left, right, child, true, true), left.GetId());
  }

  // ----- maybe_fill_path_to_root -----

  /** A tree of one incoherent block away from the root. */
  function Lone(root: RootInfo, b: FullBlock): Forest {
    Forest(root, [], map[b.GetId() := Entry(b, false, [])])
  }

  function LoneRun(root: RootInfo, b: FullBlock): Run {
    Then(Start(root), Add(b), Lone(root, b), [])
  }

  lemma LoneIsReached(root: RootInfo, b: FullBlock)
    requires root.Consistent() && GoodBlock(b) && root.round < b.GetBlockRound() && b.GetParentId() != root.blockId
    ensures IsRun(LoneRun(root, b)) && Linked(Lone(root, b))
  {
    RunsCommitOneChain(LoneRun(root, b));
  }

  function QcFor(b: FullBlock): QuorumCertificate {
    QuorumCertificate(Vote(b.GetId(), b.GetBlockRound(), 1), 0)
  }

  /** The child of the root, and a block above it whose sequence number leaps. */
  const ABSENT := EmptyBlock(Digest(0), 0, 1, 1)
  const LEAPING := EmptyBlock(ABSENT.GetId(), 1, 2, 5)

  /** One block is missing and four are asked for. */
  lemma FillCanMiscount()
    ensures exists r, qc, range :: IsRun(r) && IsFill(Last(r), qc, FillResult.Request(range))
              && range == BlockRange(ABSENT.GetId(), 4) && SegmentLength(Last(r).root.blockId, range.lastBlockId) == Some(1)
  {
    var r := LoneRun(GenesisRoot(0), LEAPING);
    LoneIsReached(GenesisRoot(0), LEAPING);
    assert ParentOf(LEAPING.GetId()) == ABSENT.GetId() && ParentOf(ABSENT.GetId()) == Digest(0);
    var f := Last(r);
    assert ABSENT.GetId() !in f.entries && LEAPING.GetId() in f.entries;
    assert !Connected(f, ABSENT.GetId()) && FirstUnknown(f.entries, LEAPING.GetId()) == ABSENT.GetId();
    assert !WalkUnderflows(f, ABSENT.GetId());
    assert SegmentLength(Digest(0), Digest(0)) == Some(0);
    assert IsFill(f, QcFor(LEAPING), FillResult.Request(BlockRange(ABSENT.GetId(), 4)));
  }

  /** A root of sequence number 5 and a block of 4 with an unknown parent. */
  const FALLING := EmptyBlock(Digest(9), 1, 2, 4)

  lemma FillCanPanic()
    ensures exists r, qc :: IsRun(r) && IsFill(Last(r), qc, FillResult.Panic)
  {
    var r := LoneRun(GenesisRoot(5), FALLING);
    LoneIsReached(GenesisRoot(5), FALLING);
    assert IsFill(Last(r), QcFor(FALLING), FillResult.Panic);
  }
}
