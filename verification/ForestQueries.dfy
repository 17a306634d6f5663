/** What the queries of the block tree compute, stated on the forest
    (monad-blocktree/src/blocktree.rs:330-404, 419-451, 529-614). */
module ForestQueries {
  import opened Collections
  import opened ConsensusTypes
  import opened BlockForest
  import opened Traversal

  // ----- get_high_committable_qc -----

  /** The block the QC inside `id` would commit, by the consecutive-round rule. */
  function CommitTarget(f: Forest, id: BlockId): Option<BlockId>
    requires KeysMatch(f.entries) && id in f.entries
  {
    var qc := f.entries[id].block.GetQc();
    if qc.GetBlockId() in f.entries
    then qc.GetCommittableId(f.entries[qc.GetBlockId()].block.header) else None
  }

  /** On header fields alone: the parent of `id` is in the tree, the QC inside `id` is exactly one
      round above the QC inside the parent, and the grandparent is a coherent block of the tree. */
  predicate Committable(f: Forest, id: BlockId)
    requires id in f.entries
  {
    var qc := f.entries[id].block.header.qc;
    && qc.info.id in f.entries
    && var qcBelow := f.entries[qc.info.id].block.header.qc;
    && qc.info.round == qcBelow.info.round + 1
    && qcBelow.info.id != f.root.blockId
    && qcBelow.info.id in f.entries && f.entries[qcBelow.info.id].coherent
  }

  /** The commit rule, applied to the QC of a block and the header it certifies, names a coherent
      block other than the root exactly when the block is committable; and that block is then the
      grandparent. */
  lemma CommittableIff(f: Forest, id: BlockId)
    requires KeysMatch(f.entries) && id in f.entries
    ensures Committable(f, id) <==>
              CommitTarget(f, id).Some? && CommitTarget(f, id).value != f.root.blockId
              && CoherentAt(f, CommitTarget(f, id).value)
    ensures CommitTarget(f, id).Some? <==>
              ParentOf(id) in f.entries
              && id.header.qc.info.round == ParentOf(id).header.qc.info.round + 1
    ensures CommitTarget(f, id).Some? ==> CommitTarget(f, id).value == ParentOf(ParentOf(id))
  {
    var qc := f.entries[id].block.GetQc();
    if qc.GetBlockId() in f.entries {
      assert f.entries[qc.GetBlockId()].block.header == ParentOf(id).header;
    }
  }

  /** Committing the target of a committable QC meets prune's precondition, moves the root
      to a strictly higher round, and the target is the grandparent of the QC's holder, two
      QCs of consecutive rounds above it. */
  lemma CommitTargetIsPrunable(f: Forest, id: BlockId)
    requires Inv(f) && id in f.entries && Committable(f, id)
    ensures CommitTarget(f, id).Some?
    ensures var n := CommitTarget(f, id).value;
            && n in f.entries && CoherentAt(f, n) && Connected(f, n)
            && n == ParentOf(ParentOf(id)) && ParentOf(id) in f.entries
            && id.header.qc.info.round == ParentOf(id).header.qc.info.round + 1
            && f.root.round < Pruned(f, n).root.round
            && Reaches(f.entries, n, id)
  {
    CommittableIff(f, id);
    var n := CommitTarget(f, id).value;
    CoherentIsConnected(f, n);
    assert Reaches(f.entries, n, ParentOf(ParentOf(id)));
    assert Reaches(f.entries, n, ParentOf(id));
  }

  /** `high` is the highest committable QC among the blocks in `done`. */
  ghost predicate HighestCommittable(f: Forest, done: set<BlockId>, high: Option<QuorumCertificate>)
    requires done <= f.entries.Keys
  {
    && (high.Some? ==> exists id :: id in done && Committable(f, id) && f.entries[id].block.GetQc() == high.value)
    && forall id :: id in done && Committable(f, id) ==>
         high.Some? && f.entries[id].block.GetQc().GetRound() <= high.value.GetRound()
  }

  /** One more block looked at. */
  lemma HighestCommittableGrows(f: Forest, done: set<BlockId>, high: Option<QuorumCertificate>, id: BlockId)
    requires done <= f.entries.Keys && id in f.entries && HighestCommittable(f, done, high)
    ensures var qc := f.entries[id].block.GetQc();
            HighestCommittable(f, done + {id},
                               if Committable(f, id) && (high.None? || high.value.GetRound() < qc.GetRound())
                               then Some(qc) else high)
  {
  }

  // ----- highest_round_coherent_descendant, get_canonical_coherent_tip -----

  /** `x` is `a` or descends from it through coherent blocks. */
  predicate CoherentDescendant(f: Forest, a: BlockId, x: BlockId)
    decreases x
  {
    || x == a
    || (x in f.entries && f.entries[x].coherent && x.HeaderHash? && CoherentDescendant(f, a, ParentOf(x)))
  }

  function CoherentIds(f: Forest): set<BlockId> {
    set id | id in f.entries && f.entries[id].coherent
  }

  lemma {:induction false} CoherentDescendantIsRegion(f: Forest, a: BlockId, x: BlockId)
    ensures CoherentDescendant(f, a, x) <==> Region(f.entries, {a}, CoherentIds(f), x)
    decreases x
  {
    if x != a && x in f.entries && x.HeaderHash? {
      CoherentDescendantIsRegion(f, a, ParentOf(x));
    }
  }

  /** Below a coherent block, being coherent and being reached by the search are the same. */
  lemma {:induction false} CoherentDescendants(f: Forest, a: BlockId, x: BlockId)
    requires Inv(f) && CoherentAt(f, a)
    ensures CoherentDescendant(f, a, x) <==> CoherentAt(f, x) && Reaches(f.entries, a, x)
    decreases x
  {
    RootNotInForest(f);
    if x != a && x in f.entries && x.HeaderHash? {
      CoherentDescendants(f, a, ParentOf(x));
    }
  }

  function RoundAt(f: Forest, id: BlockId): Round {
    if id == f.root.blockId then f.root.round
    else if id in f.entries then f.entries[id].block.GetBlockRound() else 0
  }

  /** `tip` has the highest round among the coherent blocks that descend from `a`. */
  ghost predicate HighestBelow(f: Forest, a: BlockId, tip: BlockId) {
    && CoherentAt(f, tip) && Reaches(f.entries, a, tip)
    && forall x :: CoherentAt(f, x) && Reaches(f.entries, a, x) ==> RoundAt(f, x) <= RoundAt(f, tip)
  }

  /** `best` has the highest round among the blocks visited or queued. */
  ghost predicate BestSoFar(f: Forest, queue: seq<BlockId>, done: set<BlockId>, best: BlockId) {
    && (best in done || best in queue)
    && forall x :: x in done || x in queue ==> RoundAt(f, x) <= RoundAt(f, best)
  }

  /** The coherent members of a child list, and the best of them and the previous best. */
  ghost predicate CoherentPart(f: Forest, children: seq<BlockId>, best: BlockId,
                               coherent: seq<BlockId>, best': BlockId)
  {
    && NoDup(coherent)
    && (forall c :: c in coherent <==> c in children && CoherentAt(f, c))
    && (best' == best || best' in coherent)
    && RoundAt(f, best) <= RoundAt(f, best')
    && forall c :: c in coherent ==> RoundAt(f, c) <= RoundAt(f, best')
  }

  /** One more child looked at. */
  lemma CoherentPartGrows(f: Forest, children: seq<BlockId>, best: BlockId, coherent: seq<BlockId>, best': BlockId, child: BlockId)
    requires CoherentPart(f, children, best, coherent, best') && child !in children
    ensures if CoherentAt(f, child)
            then CoherentPart(f, children + [child], best, coherent + [child],
                              if RoundAt(f, child) > RoundAt(f, best') then child else best')
            else CoherentPart(f, children + [child], best, coherent, best')
  {
    assert forall c :: c in children + [child] <==> c in children || c == child;
    assert forall c :: c in coherent + [child] <==> c in coherent || c == child;
  }

  lemma BestAfterVisit(f: Forest, queue: seq<BlockId>, done: set<BlockId>, best: BlockId,
                       children: seq<BlockId>, coherent: seq<BlockId>, best': BlockId)
    requires |queue| > 0 && BestSoFar(f, queue, done, best) && CoherentPart(f, children, best, coherent, best')
    ensures BestSoFar(f, queue[1..] + coherent, done + {queue[0]}, best')
  {
    var queue' := queue[1..] + coherent;
    assert forall x :: x in queue ==> x == queue[0] || x in queue[1..];
    assert forall x :: x in queue' <==> x in queue[1..] || x in coherent;
  }

  lemma CoherentPartIsNextList(f: Forest, x: BlockId, children: seq<BlockId>, best: BlockId,
                               coherent: seq<BlockId>, best': BlockId)
    requires Linked(f) && IsChildList(f.entries, x, children) && CoherentPart(f, children, best, coherent, best')
    ensures IsNextList(f.entries, CoherentIds(f), x, coherent)
  {
    RootNotInForest(f);
  }

  /** The last coherent block on the path from the root to `b`; the root if there is none. */
  function LastCoherent(f: Forest, b: BlockId): BlockId
    requires Connected(f, b)
  {
    var first := FirstIncoherent(f, b);
    if first.Some? then ParentOf(first.value) else b
  }

  /** The tip chosen for a QC, case by case: any coherent block when the QC's block is not
      connected, the last coherent block when its path is not coherent, and the best
      coherent descendant when it is.  A QC for the root itself selects the root. */
  ghost predicate IsCanonicalTip(f: Forest, certified: BlockId, tip: BlockId) {
    if !Connected(f, certified) then HighestBelow(f, f.root.blockId, tip)
    else if certified == f.root.blockId then tip == f.root.blockId
    else if !CoherentAt(f, certified) then tip == LastCoherent(f, certified)
    else HighestBelow(f, certified, tip)
  }

  /** Whatever the QC, the tip is coherent; and if the QC's block is connected the tip
      never leaves its branch. */
  lemma CanonicalTipStaysOnBranch(f: Forest, certified: BlockId, tip: BlockId)
    requires Inv(f) && IsCanonicalTip(f, certified, tip)
    ensures CoherentAt(f, tip)
    ensures Connected(f, certified) ==> Reaches(f.entries, tip, certified) || Reaches(f.entries, certified, tip)
  {
    if Connected(f, certified) && !CoherentAt(f, certified) {
      FirstIncoherentSplits(f, certified);
      FirstIncoherentIsAncestor(f, certified);
      var u := FirstIncoherent(f, certified).value;
      assert Reaches(f.entries, ParentOf(u), ParentOf(u));
      assert Reaches(f.entries, ParentOf(u), u);
      ReachesIsTransitive(f.entries, ParentOf(u), u, certified);
    }
  }

  /** Climbing from an incoherent block does not change the answer; at a coherent one it is found. */
  lemma LastCoherentAbove(f: Forest, b: BlockId)
    requires Inv(f) && Connected(f, b) && b != f.root.blockId
    ensures LastCoherent(f, b) == if f.entries[b].coherent then b else LastCoherent(f, ParentOf(b))
  {
    FirstIncoherentSplits(f, b);
    FirstIncoherentSplits(f, ParentOf(b));
  }

  lemma {:induction false} LastCoherentIsDeepest(f: Forest, b: BlockId, x: BlockId)
    requires Inv(f) && Connected(f, b)
    requires CoherentAt(f, x) && Reaches(f.entries, x, b)
    ensures CoherentAt(f, LastCoherent(f, b))
    ensures Reaches(f.entries, x, LastCoherent(f, b)) && Reaches(f.entries, LastCoherent(f, b), b)
    decreases b
  {
    FirstIncoherentSplits(f, b);
    if !CoherentAt(f, b) {
      LastCoherentAbove(f, b);
      LastCoherentIsDeepest(f, ParentOf(b), x);
    }
  }

  /** `tip` is coherent and no coherent block anywhere has a higher round. */
  ghost predicate HighestCoherent(f: Forest, tip: BlockId) {
    CoherentAt(f, tip) && forall x :: CoherentAt(f, x) ==> RoundAt(f, x) <= RoundAt(f, tip)
  }

  /** `tip` is a coherent ancestor of `b`, at or below every other coherent ancestor of `b`. */
  ghost predicate DeepestCoherentAbove(f: Forest, b: BlockId, tip: BlockId) {
    && CoherentAt(f, tip) && Reaches(f.entries, tip, b)
    && forall x :: CoherentAt(f, x) && Reaches(f.entries, x, b) ==> Reaches(f.entries, x, tip)
  }

  /** With a coherent certified block other than the root, the tip is below it and no coherent
      descendant of it has a higher round. */
  lemma CanonicalTipIsHighest(f: Forest, certified: BlockId, tip: BlockId)
    requires Inv(f) && IsCanonicalTip(f, certified, tip)
    requires certified in f.entries && CoherentAt(f, certified)
    ensures HighestBelow(f, certified, tip)
  {
    CoherentIsConnected(f, certified);
    RootNotInForest(f);
  }

  /** Across a gap: when the certified block is not connected, no coherent block anywhere has a
      higher round than the tip. */
  lemma CanonicalTipAcrossGap(f: Forest, certified: BlockId, tip: BlockId)
    requires Inv(f) && IsCanonicalTip(f, certified, tip) && !Connected(f, certified)
    ensures HighestCoherent(f, tip)
  {
    forall x | CoherentAt(f, x)
      ensures RoundAt(f, x) <= RoundAt(f, tip)
    {
      CoherentIsConnected(f, x);
    }
  }

  /** When the certified block is connected and not coherent, the tip is the deepest coherent
      block on the way to it: an ancestor of it, below every other coherent ancestor. */
  lemma CanonicalTipIsDeepest(f: Forest, certified: BlockId, tip: BlockId)
    requires Inv(f) && IsCanonicalTip(f, certified, tip)
    requires Connected(f, certified) && !CoherentAt(f, certified)
    ensures DeepestCoherentAbove(f, certified, tip)
  {
    LastCoherentIsDeepest(f, certified, f.root.blockId);
    forall x | CoherentAt(f, x) && Reaches(f.entries, x, certified)
      ensures Reaches(f.entries, x, tip)
    {
      LastCoherentIsDeepest(f, certified, x);
    }
  }

  lemma CanonicalTipMeaning(f: Forest, certified: BlockId, tip: BlockId)
    requires Inv(f) && IsCanonicalTip(f, certified, tip)
    ensures CoherentAt(f, tip)
    ensures if !Connected(f, certified) then HighestCoherent(f, tip)
            else if certified == f.root.blockId then tip == f.root.blockId
            else if !CoherentAt(f, certified) then DeepestCoherentAbove(f, certified, tip)
            else HighestBelow(f, certified, tip)
  {
    if !Connected(f, certified) {
      CanonicalTipAcrossGap(f, certified, tip);
    } else if certified != f.root.blockId {
      if CoherentAt(f, certified) {
        CanonicalTipIsHighest(f, certified, tip);
      } else {
        CanonicalTipIsDeepest(f, certified, tip);
      }
    }
  }

  // ----- get_parent_block_chain -----

  /** The longest chain of tree blocks ending at `id`, oldest first. */
  function ParentChain(entries: Entries, id: BlockId): seq<FullBlock>
    decreases id
  {
    if id in entries && id.HeaderHash? then ParentChain(entries, ParentOf(id)) + [entries[id].block] else []
  }

  predicate HeadersLinked(headers: seq<Header>) {
    forall i :: 0 < i < |headers| ==> headers[i].GetParentId() == headers[i - 1].GetId()
  }

  function Headers(blocks: seq<FullBlock>): (r: seq<Header>)
    ensures |r| == |blocks| && forall i :: 0 <= i < |r| ==> r[i] == blocks[i].header
  {
    seq(|blocks|, i requires 0 <= i < |blocks| => blocks[i].header)
  }

  /** The chain is parent-linked, ends at `id`, and cannot be continued upwards. */
  lemma {:induction false} ParentChainLinked(entries: Entries, id: BlockId)
    requires KeysMatch(entries)
    ensures var chain := ParentChain(entries, id);
            && HeadersLinked(Headers(chain))
            && (chain == [] <==> id !in entries)
            && (chain != [] ==> chain[|chain| - 1].GetId() == id && chain[0].GetParentId() !in entries)
    decreases id
  {
    if id in entries {
      ParentChainLinked(entries, ParentOf(id));
    }
  }

  // ----- maybe_fill_path_to_root -----

  /** The first ancestor-or-self that is not in the tree. */
  function FirstUnknown(entries: Entries, id: BlockId): BlockId
    decreases id
  {
    if id in entries && id.HeaderHash? then FirstUnknown(entries, ParentOf(id)) else id
  }

  /** The oldest known block above the first unknown one. */
  function LowestKnown(entries: Entries, id: BlockId): (r: BlockId)
    requires id in entries
    ensures r in entries
    decreases id
  {
    if id.HeaderHash? && ParentOf(id) in entries then LowestKnown(entries, ParentOf(id)) else id
  }

  lemma {:induction false} FirstUnknownIsRoot(f: Forest, id: BlockId)
    requires Linked(f)
    ensures Connected(f, id) <==> FirstUnknown(f.entries, id) == f.root.blockId
    ensures FirstUnknown(f.entries, id) !in f.entries
    ensures Reaches(f.entries, FirstUnknown(f.entries, id), id)
    decreases id
  {
    RootNotInForest(f);
    if id in f.entries {
      FirstUnknownIsRoot(f, ParentOf(id));
    }
  }

  lemma {:induction false} LowestKnownNamesFirstUnknown(f: Forest, id: BlockId)
    requires Linked(f) && id in f.entries
    ensures ParentOf(LowestKnown(f.entries, id)) == FirstUnknown(f.entries, id)
    decreases id
  {
    if ParentOf(id) in f.entries {
      LowestKnownNamesFirstUnknown(f, ParentOf(id));
    }
  }

  /** The walk subtracts the root's sequence number from every known block that is not a
      child of the root, and the subtraction is checked. */
  predicate WalkUnderflows(f: Forest, id: BlockId)
    decreases id
  {
    && id in f.entries && id.HeaderHash? && ParentOf(id) != f.root.blockId
    && (f.entries[id].block.GetSeqNum() < f.root.seqNum || WalkUnderflows(f, ParentOf(id)))
  }

  datatype FillResult = Nothing | Request(range: BlockRange) | Panic

  function MissingCount(f: Forest, id: BlockId): nat {
    if id !in f.entries then 1
    else
      var low := f.entries[LowestKnown(f.entries, id)].block.GetSeqNum();
      if low < f.root.seqNum + 2 then 1 else low - f.root.seqNum - 1
  }

  /** What the walk returns, from its start. */
  ghost predicate IsFill(f: Forest, qc: QuorumCertificate, r: FillResult) {
    var id := qc.GetBlockId();
    if qc.GetRound() <= f.root.round || id == f.root.blockId then r == Nothing
    else if WalkUnderflows(f, id) then r == Panic
    else if Connected(f, id) then r == Nothing
    else r == Request(BlockRange(FirstUnknown(f.entries, id), MissingCount(f, id)))
  }

  /** The number of blocks from the child of the root to `id`, if the root is an ancestor. */
  function SegmentLength(root: BlockId, id: BlockId): Option<nat>
    decreases id
  {
    if id == root then Some(0)
    else if id.HeaderHash? then
      var above := SegmentLength(root, ParentOf(id));
      if above.Some? then Some(above.value + 1) else None
    else None
  }

  /** Sequence numbers are consecutive from the root down to `id`. */
  predicate SeqConsecutive(root: RootInfo, id: BlockId)
    decreases id
  {
    || id == root.blockId
    || (id.HeaderHash? && id.header.seqNum == SeqNumOf(root, ParentOf(id)) + 1 && SeqConsecutive(root, ParentOf(id)))
  }

  lemma {:induction false} SeqNumCountsSegment(root: RootInfo, id: BlockId)
    requires SeqConsecutive(root, id)
    ensures SegmentLength(root.blockId, id).Some?
    ensures SeqNumOf(root, id) == root.seqNum + SegmentLength(root.blockId, id).value
    decreases id
  {
    if id != root.blockId {
      SeqNumCountsSegment(root, ParentOf(id));
    }
  }

  /** When a known block sits on a consecutive chain from the root through the first unknown
      block, the requested count is exactly the missing segment. */
  lemma FillAsksForMissingSegment(f: Forest, qc: QuorumCertificate, r: FillResult)
    requires Linked(f) && IsFill(f, qc, r) && r.Request?
    requires qc.GetBlockId() in f.entries && SeqConsecutive(f.root, LowestKnown(f.entries, qc.GetBlockId()))
    ensures r.range.lastBlockId !in f.entries && r.range.lastBlockId != f.root.blockId
    ensures Reaches(f.entries, r.range.lastBlockId, qc.GetBlockId())
    ensures SegmentLength(f.root.blockId, r.range.lastBlockId) == Some(r.range.numBlocks)
  {
    var id := qc.GetBlockId();
    FirstUnknownIsRoot(f, id);
    LowestKnownNamesFirstUnknown(f, id);
    RootNotInForest(f);
    var low := LowestKnown(f.entries, id);
    SeqNumCountsSegment(f.root, low);
    SeqNumCountsSegment(f.root, ParentOf(low));
  }

  /** The exact condition, for every request.  With `k` blocks from the child of the root to the one
      asked for: if the QC's block is unknown, one block is asked for, which is right iff k is 1;
      otherwise the count is right iff the oldest known block has the sequence number that follows
      the segment, or k is 1 and that number is so low that the code asks for one block anyway. */
  lemma FillCountIff(f: Forest, qc: QuorumCertificate, r: FillResult)
    requires Linked(f) && IsFill(f, qc, r) && r.Request?
    ensures var id := qc.GetBlockId();
            var missing := SegmentLength(f.root.blockId, r.range.lastBlockId);
            && r.range.lastBlockId !in f.entries && r.range.lastBlockId != f.root.blockId
            && (id !in f.entries ==> r.range == BlockRange(id, 1))
            && (missing == Some(r.range.numBlocks) <==>
                  missing.Some? && CountsRight(f, id, missing.value))
  {
    FirstUnknownIsRoot(f, qc.GetBlockId());
    if qc.GetBlockId() in f.entries {
      LowestKnownNamesFirstUnknown(f, qc.GetBlockId());
    }
  }

  predicate CountsRight(f: Forest, id: BlockId, k: nat) {
    if id !in f.entries then k == 1
    else
      var low := f.entries[LowestKnown(f.entries, id)].block.GetSeqNum();
      low == f.root.seqNum + k + 1 || (k == 1 && low <= f.root.seqNum + 1)
  }

  /** The block is walked over on the way up from `id`, and subtracting from its sequence number
      underflows. */
  ghost predicate Underflows(f: Forest, x: BlockId, id: BlockId) {
    && x in f.entries && Reaches(f.entries, x, id)
    && ParentOf(x) != f.root.blockId && f.entries[x].block.GetSeqNum() < f.root.seqNum
  }

  /** The walk panics iff some known ancestor-or-self that is not a child of the root has a sequence
      number below the root's. */
  lemma {:induction false} WalkUnderflowsIff(f: Forest, id: BlockId)
    requires Linked(f)
    ensures WalkUnderflows(f, id) <==> exists x :: Underflows(f, x, id)
    decreases id
  {
    RootNotInForest(f);
    if id in f.entries {
      var p := ParentOf(id);
      WalkUnderflowsIff(f, p);
      assert Reaches(f.entries, id, id);
      if WalkUnderflows(f, p) {
        var x :| Underflows(f, x, p);
        assert p in f.entries && Reaches(f.entries, x, id);
        assert WalkUnderflows(f, id) ==> Underflows(f, x, id);
      }
      if f.entries[id].block.GetSeqNum() < f.root.seqNum && p != f.root.blockId {
        assert Underflows(f, id, id);
      }
      if x :| Underflows(f, x, id) {
        assert x == id || Underflows(f, x, p);
      }
    }
  }

  /** Which of the three outcomes the walk has, for every QC: nothing to do when the QC is not above
      the root or its path is complete, a panic when a number on the path underflows, and a request
      otherwise. */
  lemma FillOutcomes(f: Forest, qc: QuorumCertificate, r: FillResult)
    requires Linked(f) && IsFill(f, qc, r)
    ensures r.Panic? <==> f.root.round < qc.info.round && exists x :: Underflows(f, x, qc.info.id)
    ensures r.Nothing? <==>
              qc.info.round <= f.root.round || (Connected(f, qc.info.id) && !exists x :: Underflows(f, x, qc.info.id))
    ensures r.Request? <==>
              f.root.round < qc.info.round && !Connected(f, qc.info.id) && !exists x :: Underflows(f, x, qc.info.id)
  {
    WalkUnderflowsIff(f, qc.info.id);
    RootNotInForest(f);
  }
}
