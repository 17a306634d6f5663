/** The consensus block tree (monad-blocktree/src/blocktree.rs).  Each method is proved
    against the forest-level specification of BlockForest, BlockTreeRuns and ForestQueries. */
module BlockTrees {
  import opened Collections
  import opened ConsensusTypes
  import opened BlockForest
  import opened BlockTreeRuns
  import opened Traversal
  import opened ForestQueries
  import opened TreeStore
  import opened CoherencySearch

  function Reversed<T>(s: seq<T>): seq<T> {
    if s == [] then [] else Reversed(s[1..]) + [s[0]]
  }

  lemma {:induction false} ReversedPush<T>(s: seq<T>, x: T)
    ensures Reversed(s + [x]) == [x] + Reversed(s)
  {
    if s != [] {
      ReversedPush(s[1..], x);
      assert (s + [x])[1..] == s[1..] + [x];
    }
  }

  /** Collecting a path from its lower end and reversing it at the end. */
  lemma PathPush(f: Forest, id: BlockId, collected: seq<FullBlock>)
    requires Connected(f, id) && id != f.root.blockId
    ensures PathBlocks(f, id) + Reversed(collected)
            == PathBlocks(f, ParentOf(id)) + Reversed(collected + [f.entries[id].block])
  {
    ReversedPush(collected, f.entries[id].block);
  }

  /** Between the removals of prune's first loop: `removed` is the stretch of the path from
      `current` down to the new root. */
  ghost predicate Climbing(f: Forest, newRoot: BlockId, current: BlockId, removed: set<BlockId>) {
    && current in f.entries && current in removed
    && forall x :: x in removed ==>
         x in f.entries && Reaches(f.entries, current, x) && Reaches(f.entries, x, newRoot)
  }

  lemma ClimbStep(f: Forest, newRoot: BlockId, current: BlockId, removed: set<BlockId>)
    requires Linked(f) && Climbing(f, newRoot, current, removed) && ParentOf(current) in f.entries
    ensures ParentOf(current) !in removed
    ensures Climbing(f, newRoot, ParentOf(current), removed + {ParentOf(current)})
  {
    var p := ParentOf(current);
    assert Reaches(f.entries, p, p);
    assert Reaches(f.entries, p, current);
    forall x | x in removed
      ensures x != p && Reaches(f.entries, p, x)
    {
      AncestorsAreOlder(f.entries, current, x);
      AncestorsAreOlder(f.entries, p, current);
      ReachesIsTransitive(f.entries, p, current, x);
    }
    ReachesIsTransitive(f.entries, p, current, newRoot);
  }

  /** What the climb knows of the path so far: it is good iff the rest is, and then `collected`
      is its lower part, last block first. */
  ghost predicate ClimbedSoFar(f: Forest, newRoot: BlockId, current: BlockId, collected: seq<FullBlock>) {
    && (PathCoherent(f, newRoot) <==> PathCoherent(f, current))
    && (Connected(f, current) ==> Connected(f, newRoot) && PathBlocks(f, newRoot) == PathBlocks(f, current) + Reversed(collected))
  }

  lemma ClimbedOneMore(f: Forest, newRoot: BlockId, current: BlockId, collected: seq<FullBlock>)
    requires KeysMatch(f.entries) && current in f.entries && current != f.root.blockId && f.entries[current].coherent
    requires ClimbedSoFar(f, newRoot, current, collected)
    ensures ClimbedSoFar(f, newRoot, ParentOf(current), collected + [f.entries[current].block])
  {
    if Connected(f, ParentOf(current)) {
      PathPush(f, current, collected);
    }
  }

  lemma RemovedOneMore(entries: Entries, removed: set<BlockId>, id: BlockId)
    ensures (entries - removed) - {id} == entries - (removed + {id})
  {
  }

  lemma ClimbedBlocksAreOld(f: Forest, newRoot: BlockId, current: BlockId, removed: set<BlockId>)
    requires Linked(f) && Climbing(f, newRoot, current, removed) && newRoot in f.entries
    ensures forall x :: x in removed ==>
              x in f.entries && f.entries[x].block.GetParentRound() < f.entries[newRoot].block.GetBlockRound()
  {
    forall x | x in removed
      ensures f.entries[x].block.GetParentRound() < f.entries[newRoot].block.GetBlockRound()
    {
      AncestorsAreOlder(f.entries, x, newRoot);
    }
  }

  function TooOld(entries: Entries, round: Round): set<BlockId> {
    set id | id in entries && entries[id].block.GetParentRound() < round
  }

  lemma SweepOne(entries: Entries, round: Round, id: BlockId)
    requires id in TooOld(entries, round)
    ensures TooOld(entries - {id}, round) == TooOld(entries, round) - {id}
    ensures Sweep(entries - {id}, round) == Sweep(entries, round)
  {
  }

  lemma NothingTooOld(entries: Entries, round: Round)
    requires TooOld(entries, round) == {}
    ensures Sweep(entries, round) == entries
  {
    forall id | id in entries
      ensures round <= entries[id].block.GetParentRound()
    {
      assert id !in TooOld(entries, round);
    }
  }

  class BlockTree {
    var root: RootInfo
    var rootChildren: seq<BlockId>
    const tree: Tree

    ghost function Abs(): Forest
      reads this, tree
    {
      Forest(root, rootChildren, tree.entries)
    }

    ghost predicate Valid()
      reads this, tree
    {
      tree.Valid() && Inv(Abs())
    }

    constructor (root: RootInfo)
      requires root.Consistent()
      ensures Valid() && fresh(tree) && Abs() == NewForest(root)
    {
      this.root := root;
      this.rootChildren := [];
      this.tree := new Tree();
    }

    // ----- add -----

    method Add(block: FullBlock)
      requires Valid() && GoodBlock(block)
      modifies this`rootChildren, tree
      ensures Valid()
      ensures AddStep(old(Abs()), block, Abs())
    {
      if block.GetId() in tree.entries || block.GetBlockRound() <= root.round {
        return;
      }
      tree.Insert(block);
      if block.GetParentId() == root.blockId {
        rootChildren := rootChildren + [block.GetId()];
      }
      AddKeepsInv(old(Abs()), block, Abs());
    }

    // ----- prune -----

    /** Commits up to a block and collects garbage; None is a failed check.  The checks hold exactly
        when the path to the block is there and coherent, which in a Valid tree every coherent block
        has.  Under the branch hypothesis the result is Valid again. */
    method Prune(newRoot: BlockId) returns (commit: Option<seq<FullBlock>>)
      requires tree.Valid() && Linked(Abs())
      modifies this, tree
      ensures commit.Some? <==> old(PathCoherent(Abs(), newRoot))
      ensures commit.Some? ==> tree.Valid() && Linked(Abs()) && Step(old(Abs()), Event.Prune(newRoot), Abs(), commit.value)
      ensures old(Valid() && CoherentAt(Abs(), newRoot)) ==> commit.Some?
      ensures old(Valid() && Allowed(Abs(), Event.Prune(newRoot))) ==> Valid()
      ensures commit.Some? && newRoot != old(root.blockId) ==>
                && newRoot.HeaderHash?
                && root == RootInfo(newRoot.header.blockRound, newRoot.header.seqNum, newRoot.header.epoch, newRoot,
                                    newRoot.header.timestamp)
    {
      ghost var f := Abs();
      ghost var wasValid := Valid();
      if wasValid {
        CoherentHasCoherentPath(f, newRoot);
      }
      if !IsCoherent(newRoot) {
        return None;
      }
      if newRoot == root.blockId {
        return Some([]);
      }
      var newRootEntry := tree.entries[newRoot];
      commit := TakePath(newRoot);
      if commit.Some? {
        TwoSweepsPrune(f, newRoot, tree.entries);
        CollectGarbage(newRootEntry.block.GetBlockRound());
        root := RootInfoOf(newRootEntry.block);
        rootChildren := newRootEntry.children;
        PruneKeepsLinks(f, newRoot);
        if wasValid && Allowed(f, Event.Prune(newRoot)) {
          PruneKeepsInv(f, newRoot);
        }
      }
    }

    /** The first loop: walk from the new root to the old one, removing every block and
        checking that it exists and is coherent. */
    method TakePath(newRoot: BlockId) returns (commit: Option<seq<FullBlock>>)
      requires tree.Valid() && Linked(Abs()) && newRoot in tree.entries
      modifies tree
      ensures tree.Valid()
      ensures commit.Some? <==> old(PathCoherent(Abs(), newRoot))
      ensures commit.Some? ==> Connected(old(Abs()), newRoot) && commit.value == PathBlocks(old(Abs()), newRoot)
      ensures tree.entries.Keys <= old(tree.entries).Keys
      ensures forall id :: id in old(tree.entries) ==>
                if id in tree.entries then tree.entries[id] == old(tree.entries)[id]
                else old(tree.entries)[id].block.GetParentRound() < old(tree.entries)[newRoot].block.GetBlockRound()
    {
      ghost var f := Abs();
      RootNotInForest(f);
      var entry := tree.Remove(newRoot);
      ghost var current := newRoot;
      ghost var removed := {newRoot};
      var collected := [];
      commit := None;
      while entry.Some? && entry.value.coherent
        invariant tree.Valid() && tree.entries == f.entries - removed && commit.None?
        invariant Climbing(f, newRoot, current, removed) && entry == Some(f.entries[current])
        invariant ClimbedSoFar(f, newRoot, current, collected)
        decreases current
      {
        var block := entry.value.block;
        var parentId := block.GetParentId();
        ClimbedOneMore(f, newRoot, current, collected);
        collected := collected + [block];
        if parentId == root.blockId {
          commit := Some(Reversed(collected));
          break;
        }
        if parentId in f.entries {
          ClimbStep(f, newRoot, current, removed);
        }
        entry := tree.Remove(parentId);
        RemovedOneMore(f.entries, removed, parentId);
        if entry.None? {
          break;
        }
        current := parentId;
        removed := removed + {parentId};
      }
      ClimbedBlocksAreOld(f, newRoot, current, removed);
    }

    /** The second loop: drop every block whose QC is older than `round`. */
    method CollectGarbage(round: Round)
      requires tree.Valid()
      modifies tree
      ensures tree.Valid()
      ensures tree.entries == Sweep(old(tree.entries), round)
    {
      var blocksToDelete := TooOld(tree.entries, round);
      while blocksToDelete != {}
        invariant tree.Valid() && blocksToDelete == TooOld(tree.entries, round)
        invariant Sweep(tree.entries, round) == Sweep(old(tree.entries), round)
      {
        var id :| id in blocksToDelete;
        SweepOne(tree.entries, round, id);
        var _ := tree.Remove(id);
        blocksToDelete := blocksToDelete - {id};
      }
      NothingTooOld(tree.entries, round);
    }

    // ----- Walks -----

    predicate IsCoherent(b: BlockId)
      reads this, tree
      ensures IsCoherent(b) <==> CoherentAt(Abs(), b)
    {
      b == root.blockId || (b in tree.entries && tree.entries[b].coherent)
    }

    method GetBlocksOnPathFromRoot(b: BlockId) returns (r: Option<seq<FullBlock>>)
      requires tree.Valid() && Linked(Abs())
      ensures r.Some? <==> Connected(Abs(), b)
      ensures r.Some? ==> r.value == PathBlocks(Abs(), b)
    {
      ghost var f := Abs();
      RootNotInForest(f);
      var blocks := [];
      if b == root.blockId {
        return Some(blocks);
      }
      var visit := b;
      while visit in tree.entries
        invariant visit != f.root.blockId
        invariant Connected(f, b) <==> Connected(f, visit)
        invariant Connected(f, b) ==> PathBlocks(f, b) == PathBlocks(f, visit) + Reversed(blocks)
        decreases visit
      {
        var block := tree.entries[visit].block;
        ReversedPush(blocks, block);
        blocks := blocks + [block];
        if block.GetParentId() == root.blockId {
          assert Connected(f, ParentOf(visit));
          return Some(Reversed(blocks));
        }
        assert Connected(f, visit) <==> Connected(f, ParentOf(visit));
        visit := block.GetParentId();
      }
      r := None;
    }

    method GetParentBlockChain(blockId: BlockId) returns (chain: seq<FullBlock>)
      requires tree.Valid()
      ensures chain == ParentChain(tree.entries, blockId)
    {
      if blockId !in tree.entries {
        return [];
      }
      chain := [tree.entries[blockId].block];
      ReversedPush([], chain[0]);
      while chain[|chain| - 1].GetParentId() in tree.entries
        invariant |chain| > 0
        invariant ParentChain(tree.entries, blockId)
                  == ParentChain(tree.entries, chain[|chain| - 1].GetParentId()) + Reversed(chain)
        decreases chain[|chain| - 1].GetParentId()
      {
        var parent := tree.entries[chain[|chain| - 1].GetParentId()].block;
        ReversedPush(chain, parent);
        chain := chain + [parent];
      }
      chain := Reversed(chain);
    }

    method MaybeFillPathToRoot(qc: QuorumCertificate) returns (r: FillResult)
      requires Valid()
      ensures IsFill(Abs(), qc, r)
    {
      ghost var f := Abs();
      RootNotInForest(f);
      if root.round >= qc.GetRound() || root.blockId == qc.GetBlockId() {
        return Nothing;
      }
      var maybeUnknown := qc.GetBlockId();
      var numBlocks := 1;
      ghost var start := maybeUnknown;
      while maybeUnknown in tree.entries
        invariant maybeUnknown != f.root.blockId
        invariant Connected(f, start) <==> Connected(f, maybeUnknown)
        invariant WalkUnderflows(f, start) <==> WalkUnderflows(f, maybeUnknown)
        invariant FirstUnknown(f.entries, start) == FirstUnknown(f.entries, maybeUnknown)
        invariant start in f.entries && maybeUnknown in f.entries ==>
                    LowestKnown(f.entries, start) == LowestKnown(f.entries, maybeUnknown)
        invariant maybeUnknown !in f.entries ==> numBlocks == MissingCount(f, start)
        invariant maybeUnknown in f.entries ==> start in f.entries
        decreases maybeUnknown
      {
        var known := tree.entries[maybeUnknown].block;
        if known.GetParentId() == root.blockId {
          assert Connected(f, ParentOf(maybeUnknown));
          return Nothing;
        }
        assert Connected(f, maybeUnknown) <==> Connected(f, ParentOf(maybeUnknown));
        if known.GetSeqNum() < root.seqNum {
          return Panic;
        }
        var above := known.GetSeqNum() - root.seqNum;
        numBlocks := (if above < 2 then 2 else above) - 1;
        maybeUnknown := known.GetParentId();
      }
      r := Request(BlockRange(maybeUnknown, numBlocks));
    }

    // ----- try_update_coherency -----

    method FindIncoherent(path: seq<FullBlock>) returns (r: Option<BlockId>)
      requires forall i :: 0 <= i < |path| ==> path[i].GetId() in tree.entries
      ensures r == FirstIncoherentIn(tree.entries, path)
    {
      for i := 0 to |path|
        invariant FirstIncoherentIn(tree.entries, path[..i]).None?
      {
        assert path[..i + 1][..i] == path[..i];
        if !tree.entries[path[i].GetId()].coherent {
          FirstIncoherentInPrefix(tree.entries, path, i + 1);
          return Some(path[i].GetId());
        }
      }
      assert path[..|path|] == path;
      r := None;
    }

    /** Marks the first incoherent block on the path and, breadth first, every block below it
        that the policy accepts through an unbroken chain of accepted blocks. */
    method TryUpdateCoherency(blockId: BlockId, policy: Policy) returns (retval: seq<FullBlock>)
      requires Valid()
      modifies tree`entries
      ensures Valid()
      ensures Step(old(Abs()), UpdateCoherency(blockId, policy), Abs(), [])
      ensures NewlyCoherent(old(Abs()), Abs(), retval)
      ensures forall id :: id in old(tree.entries) ==>
                && id in tree.entries
                && (tree.entries[id].coherent <==>
                      old(tree.entries)[id].coherent || UpdateReaches(old(Abs()), policy, blockId, id))
    {
      ghost var f := Abs();
      retval := UpdateCoherencyOf(blockId, policy);
      forall id | id in f.entries
        ensures id in tree.entries
        ensures tree.entries[id].coherent <==> f.entries[id].coherent || UpdateReaches(f, policy, blockId, id)
      {
        UpdateMeaning(f, blockId, policy, Abs(), id);
      }
    }

    /** The body of try_update_coherency: find the first incoherent block of the path and search from it. */
    method UpdateCoherencyOf(blockId: BlockId, policy: Policy) returns (retval: seq<FullBlock>)
      requires Valid()
      modifies tree`entries
      ensures Valid()
      ensures Step(old(Abs()), UpdateCoherency(blockId, policy), Abs(), [])
      ensures NewlyCoherent(old(Abs()), Abs(), retval)
    {
      ghost var f := Abs();
      var path := GetBlocksOnPathFromRoot(blockId);
      if path.None? {
        return [];
      }
      FirstIncoherentOnPath(f, blockId);
      var first := FindIncoherent(path.value);
      if first.None? {
        return [];
      }
      FirstIncoherentSplits(f, blockId);
      retval := UpdateFrom(first.value, policy);
      UpdateKeepsInv(f, policy, first.value);
    }

    /** One visit of the search: rebuild the path to the block and ask the policy. */
    method CheckNext(next: BlockId, policy: Policy, ghost f: Forest, ghost accepted: set<BlockId>)
      returns (block: FullBlock, ok: bool)
      requires tree.Valid() && Linked(f) && Abs() == f.(entries := Marked(f, accepted))
      requires next in f.entries && next != f.root.blockId && Connected(f, next)
      ensures block == f.entries[next].block && (ok <==> PassesAt(f, policy, next))
      ensures ok <==> PolicyAccepts(f, policy, next)
    {
      PassesIsAccepts(f, policy, next);
      MarkingKeepsLinks(f, accepted);
      MarkingKeepsPaths(f, accepted, next);
      var path := GetBlocksOnPathFromRoot(next);
      var extending := path.value[..|path.value| - 1];
      block := path.value[|path.value| - 1];
      assert extending == PathBlocks(f, ParentOf(next));
      ok := policy(block, extending, root).Ok?;
    }

    /** One visit of the search: ask about the front of the queue, and if it passes mark it, list it
        and queue its children. */
    method VisitNext(ghost u: BlockId, policy: Policy, queue: seq<BlockId>, list: seq<FullBlock>,
                     ghost f: Forest, ghost done: set<BlockId>, ghost accepted: set<BlockId>)
      returns (queue': seq<BlockId>, list': seq<FullBlock>, ghost accepted': set<BlockId>)
      requires tree.Valid() && Linked(f) && u in f.entries && Connected(f, u) && queue != []
      requires root == f.root && rootChildren == f.rootChildren && tree.entries == Marked(f, accepted)
      requires Updating(f, policy, u, queue, done, accepted, list)
      modifies tree`entries
      ensures tree.Valid() && tree.entries == Marked(f, accepted')
      ensures Updating(f, policy, u, queue', done + {queue[0]}, accepted', list')
    {
      var next := queue[0];
      UpdateFront(f, policy, u, queue, done);
      var block, ok := CheckNext(next, policy, f, accepted);
      if ok {
        UpdateAccepts(f, policy, u, queue, done, accepted, list);
        MarkOne(f, accepted, next);
        var _ := tree.SetCoherent(next, true);
        list' := list + [block];
        queue' := queue[1..] + tree.entries[next].children;
        accepted' := accepted + {next};
      } else {
        UpdateRejects(f, policy, u, queue, done, accepted, list);
        queue', list', accepted' := queue[1..], list, accepted;
      }
    }

    /** The search loop of try_update_coherency. */
    method UpdateFrom(u: BlockId, policy: Policy) returns (retval: seq<FullBlock>)
      requires Valid() && u in tree.entries && Connected(Abs(), u)
      requires !tree.entries[u].coherent && CoherentAt(Abs(), ParentOf(u))
      modifies tree`entries
      ensures tree.Valid()
      ensures Abs() == Updated(old(Abs()), policy, u)
      ensures NewlyCoherent(old(Abs()), Abs(), retval)
    {
      ghost var f := Abs();
      var queue := [u];
      retval := [];
      ghost var done: set<BlockId> := {};
      ghost var accepted: set<BlockId> := {};
      UpdateStarts(f, policy, u);
      while queue != []
        invariant tree.Valid() && tree.entries == Marked(f, accepted)
        invariant Updating(f, policy, u, queue, done, accepted, retval)
        decreases f.entries.Keys - done
      {
        ghost var next := queue[0];
        UpdateFront(f, policy, u, queue, done);
        queue, retval, accepted := VisitNext(u, policy, queue, retval, f, done, accepted);
        done := done + {next};
      }
      UpdateDone(f, policy, u, done, accepted, retval);
    }

    // ----- get_high_committable_qc -----

    /** The highest QC, among connected blocks, that commits a coherent block other than the root. */
    method GetHighCommittableQc() returns (r: Option<QuorumCertificate>)
      requires Valid()
      ensures r.Some? ==> exists id :: id in tree.entries && Connected(Abs(), id) && Committable(Abs(), id)
                                       && tree.entries[id].block.GetQc() == r.value
      ensures forall id :: id in tree.entries && Connected(Abs(), id) && Committable(Abs(), id) ==>
                r.Some? && tree.entries[id].block.GetQc().GetRound() <= r.value.GetRound()
      ensures r.None? <==> forall id :: id in tree.entries && Connected(Abs(), id) ==> !Committable(Abs(), id)
      ensures r.Some? ==> r.value.info.id in tree.entries
                          && r.value.info.round == tree.entries[r.value.info.id].block.header.qc.info.round + 1
    {
      ghost var f := Abs();
      ghost var starts, edge := SetOf(rootChildren), f.entries.Keys;
      r := None;
      var iter := rootChildren;
      ghost var done: set<BlockId> := {};
      RootChildrenAreApart(f, edge);
      SearchStart(f.entries, starts, edge, iter);
      while iter != []
        invariant Searching(f.entries, starts, edge, iter, done)
        invariant HighestCommittable(f, done, r)
        decreases f.entries.Keys - done
      {
        var bid := iter[0];
        assert bid in iter;
        RootRegionIsConnected(f, bid);
        var entry := tree.entries[bid];
        SearchStep(f.entries, starts, edge, iter, done, entry.children);
        iter := iter[1..] + entry.children;
        r := HigherQc(bid, r, done);
        done := done + {bid};
      }
      forall id
        ensures id in done <==> id in f.entries && Connected(f, id)
      {
        SearchComplete(f.entries, starts, edge, done, id);
        RootRegionIsConnected(f, id);
      }
    }

    /** The body of the loop: keep `high` unless the QC of `bid` is higher and committable. */
    method HigherQc(bid: BlockId, high: Option<QuorumCertificate>, ghost done: set<BlockId>)
      returns (high': Option<QuorumCertificate>)
      requires Valid() && bid in tree.entries && done <= tree.entries.Keys
      requires HighestCommittable(Abs(), done, high)
      ensures HighestCommittable(Abs(), done + {bid}, high')
    {
      high' := high;
      CommittableIff(Abs(), bid);
      HighestCommittableGrows(Abs(), done, high, bid);
      var qc := tree.entries[bid].block.GetQc();
      if high.Some? && high.value.GetRound() >= qc.GetRound() {
        return;
      }
      if qc.GetBlockId() !in tree.entries {
        return;
      }
      var committable := qc.GetCommittableId(tree.entries[qc.GetBlockId()].block.header);
      if committable.None? || committable.value == root.blockId || !IsCoherent(committable.value) {
        return;
      }
      high' := Some(qc);
    }

    // ----- highest_round_coherent_descendant, get_canonical_coherent_tip -----

    method HighestRoundCoherentDescendant(blockId: BlockId) returns (bestId: BlockId)
      requires Valid() && CoherentAt(Abs(), blockId)
      ensures HighestBelow(Abs(), blockId, bestId)
    {
      ghost var f := Abs();
      RootNotInForest(f);
      bestId := blockId;
      ghost var edge := CoherentIds(f);
      var queue := [blockId];
      ghost var done: set<BlockId> := {};
      OneStartIsApart(f.entries, blockId, edge);
      SearchStart(f.entries, {blockId}, edge, queue);
      while queue != []
        invariant Searching(f.entries, {blockId}, edge, queue, done)
        invariant BestSoFar(f, queue, done, bestId)
        decreases f.entries.Keys + {blockId} - done
      {
        var current := queue[0];
        assert current in queue;
        CoherentDescendantIsRegion(f, blockId, current);
        var children := if current == root.blockId then rootChildren else tree.entries[current].children;
        var coherent, best := CoherentOnes(children, bestId);
        CoherentPartIsNextList(f, current, children, bestId, coherent, best);
        SearchStep(f.entries, {blockId}, edge, queue, done, coherent);
        BestAfterVisit(f, queue, done, bestId, children, coherent, best);
        queue := queue[1..] + coherent;
        done := done + {current};
        bestId := best;
      }
      forall x
        ensures x in done <==> CoherentAt(f, x) && Reaches(f.entries, blockId, x)
      {
        SearchComplete(f.entries, {blockId}, edge, done, x);
        CoherentDescendantIsRegion(f, blockId, x);
        CoherentDescendants(f, blockId, x);
      }
    }

    /** The inner loop: keep the coherent children, and the highest round seen so far. */
    method CoherentOnes(children: seq<BlockId>, best: BlockId) returns (coherent: seq<BlockId>, best': BlockId)
      requires Valid() && NoDup(children) && (forall c :: c in children ==> c in tree.entries)
      requires CoherentAt(Abs(), best)
      ensures CoherentPart(Abs(), children, best, coherent, best')
    {
      ghost var f := Abs();
      RootNotInForest(f);
      coherent, best' := [], best;
      var bestRound := if best == root.blockId then root.round else tree.entries[best].block.GetBlockRound();
      for i := 0 to |children|
        invariant CoherentPart(f, children[..i], best, coherent, best') && bestRound == RoundAt(f, best')
      {
        var child := children[i];
        assert children[..i + 1] == children[..i] + [child];
        assert child !in children[..i];
        CoherentPartGrows(f, children[..i], best, coherent, best', child);
        if IsCoherent(child) {
          var childRound := tree.entries[child].block.GetBlockRound();
          if childRound > bestRound {
            best', bestRound := child, childRound;
          }
          coherent := coherent + [child];
        }
      }
      assert children[..|children|] == children;
    }

    /** None when the path has no coherent block besides the root. */
    method GetHighestCoherentBlockOnPathFromRoot(b: BlockId) returns (r: Option<FullBlock>)
      requires Valid()
      ensures if !Connected(Abs(), b) || LastCoherent(Abs(), b) == root.blockId then r.None?
              else LastCoherent(Abs(), b) in tree.entries
                   && r == Some(tree.entries[LastCoherent(Abs(), b)].block)
    {
      ghost var f := Abs();
      RootNotInForest(f);
      var path := GetBlocksOnPathFromRoot(b);
      if path.None? {
        return None;
      }
      var i := |path.value|;
      ghost var cur := b;
      while i > 0
        invariant 0 <= i <= |path.value| && Connected(f, cur)
        invariant path.value[..i] == PathBlocks(f, cur)
        invariant LastCoherent(f, b) == LastCoherent(f, cur)
      {
        i := i - 1;
        assert path.value[i] == path.value[..i + 1][i] == f.entries[cur].block;
        assert path.value[..i] == path.value[..i + 1][..i];
        LastCoherentAbove(f, cur);
        if IsCoherent(path.value[i].GetId()) {
          return Some(path.value[i]);
        }
        cur := ParentOf(cur);
      }
      assert PathBlocks(f, cur) == [];
      r := None;
    }

    /** The tip for a QC.  With a gap above the certified block it is a coherent block of the highest
        round; with an incoherent certified block, the deepest coherent ancestor; otherwise the best
        coherent descendant of the certified block, or the root itself if the QC is for the root. */
    method GetCanonicalCoherentTip(highCertQc: QuorumCertificate) returns (tip: BlockId)
      requires Valid()
      ensures CoherentAt(Abs(), tip)
      ensures if !Connected(Abs(), highCertQc.info.id) then HighestCoherent(Abs(), tip)
              else if highCertQc.info.id == root.blockId then tip == root.blockId
              else if !CoherentAt(Abs(), highCertQc.info.id) then DeepestCoherentAbove(Abs(), highCertQc.info.id, tip)
              else HighestBelow(Abs(), highCertQc.info.id, tip)
    {
      tip := CanonicalTip(highCertQc.GetBlockId());
      CanonicalTipMeaning(Abs(), highCertQc.GetBlockId(), tip);
    }

    /** The cases of get_canonical_coherent_tip. */
    method CanonicalTip(certified: BlockId) returns (tip: BlockId)
      requires Valid()
      ensures IsCanonicalTip(Abs(), certified, tip)
    {
      ghost var f := Abs();
      RootNotInForest(f);
      var path := GetBlocksOnPathFromRoot(certified);
      if path.None? {
        tip := HighestRoundCoherentDescendant(root.blockId);
        return;
      }
      var last := GetHighestCoherentBlockOnPathFromRoot(certified);
      FirstIncoherentSplits(f, certified);
      if last.None? {
        return root.blockId;
      }
      if last.value.GetId() == certified {
        tip := HighestRoundCoherentDescendant(certified);
      } else {
        tip := last.value.GetId();
      }
    }
  }
}
