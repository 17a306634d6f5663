/** The block tree as a value: a root and a forest of uncommitted blocks linked by
    parent id, the invariant that ties the child lists and coherence flags to the
    parent relation, and the effect of each mutating operation
    (monad-blocktree/src/blocktree.rs). */
module BlockForest {
  import opened Collections
  import opened ConsensusTypes

  datatype Entry = Entry(block: FullBlock, coherent: bool, children: seq<BlockId>)

  type Entries = map<BlockId, Entry>

  datatype Forest = Forest(root: RootInfo, rootChildren: seq<BlockId>, entries: Entries)

  // ----- Ancestry -----

  /** `b` is `a` or descends from it through blocks of the forest. */
  predicate Reaches(entries: Entries, a: BlockId, b: BlockId)
    decreases b
  {
    b == a || (b in entries && b.HeaderHash? && Reaches(entries, a, ParentOf(b)))
  }

  predicate Connected(f: Forest, b: BlockId) {
    Reaches(f.entries, f.root.blockId, b)
  }

  /** The blocks from the child of the root down to `b`. */
  function PathBlocks(f: Forest, b: BlockId): seq<FullBlock>
    requires Connected(f, b)
    decreases b
  {
    if b == f.root.blockId then [] else PathBlocks(f, ParentOf(b)) + [f.entries[b].block]
  }

  // ----- The invariant -----

  /** `list` holds, once each, exactly the blocks of the forest naming `id` as parent. */
  ghost predicate IsChildList(entries: Entries, id: BlockId, list: seq<BlockId>) {
    && NoDup(list)
    && forall c :: c in list <==> c in entries && ParentOf(c) == id
  }

  predicate GoodBlock(b: FullBlock) {
    b.header.WellFormed() && b.BodyMatches()
  }

  ghost predicate KeysMatch(entries: Entries) {
    forall id :: id in entries ==> entries[id].block.GetId() == id && GoodBlock(entries[id].block)
  }

  ghost predicate ChildLists(f: Forest) {
    && (forall id :: id in f.entries ==> IsChildList(f.entries, id, f.entries[id].children))
    && IsChildList(f.entries, f.root.blockId, f.rootChildren)
  }

  ghost predicate AboveRoot(f: Forest) {
    && f.root.Consistent()
    && forall id :: id in f.entries ==> f.root.round < f.entries[id].block.GetBlockRound()
  }

  predicate CoherentAt(f: Forest, id: BlockId) {
    id == f.root.blockId || (id in f.entries && f.entries[id].coherent)
  }

  /** The parent of a coherent block is coherent (the root always is). */
  ghost predicate CoherenceClosed(f: Forest) {
    forall id :: id in f.entries && f.entries[id].coherent ==> CoherentAt(f, ParentOf(id))
  }

  /** What holds of every reachable tree whether or not commits respect the branch hypothesis. */
  ghost predicate Linked(f: Forest) {
    KeysMatch(f.entries) && ChildLists(f) && AboveRoot(f)
  }

  ghost predicate Inv(f: Forest) {
    Linked(f) && CoherenceClosed(f)
  }

  function SeqNumOf(root: RootInfo, id: BlockId): SeqNum {
    if id == root.blockId then root.seqNum
    else if id.HeaderHash? then id.header.seqNum else 0
  }

  /** Coherent blocks continue the sequence numbers of their parents. */
  ghost predicate SeqLinked(f: Forest) {
    forall id :: id in f.entries && f.entries[id].coherent ==>
      f.entries[id].block.GetSeqNum() == SeqNumOf(f.root, ParentOf(id)) + 1
  }

  lemma RootNotInForest(f: Forest)
    requires Linked(f)
    ensures f.root.blockId !in f.entries
  {
  }

  // ----- new -----

  function NewForest(root: RootInfo): Forest {
    Forest(root, [], map[])
  }

  // ----- add -----

  predicate ValidToInsert(f: Forest, b: FullBlock) {
    b.GetId() !in f.entries && f.root.round < b.GetBlockRound()
  }

  /** `add` up to the order of the new block's child list, which follows the
      iteration order of a hash map. */
  ghost predicate AddStep(f: Forest, b: FullBlock, f': Forest) {
    if !ValidToInsert(f, b) then f' == f else
      var id := b.GetId();
      && f'.root == f.root
      && f'.rootChildren == f.rootChildren + (if b.GetParentId() == f.root.blockId then [id] else [])
      && f'.entries.Keys == f.entries.Keys + {id}
      && f'.entries[id].block == b && !f'.entries[id].coherent
      && IsChildList(f.entries, id, f'.entries[id].children)
      && forall k :: k in f.entries ==> f'.entries[k] == WithChild(f.entries[k], k, b)
  }

  function WithChild(e: Entry, k: BlockId, b: FullBlock): Entry {
    if k == b.GetParentId() then e.(children := e.children + [b.GetId()]) else e
  }

  lemma AppendChild(entries: Entries, entries': Entries, id: BlockId, list: seq<BlockId>, b: FullBlock)
    requires IsChildList(entries, id, list) && b.GetId() !in entries
    requires entries'.Keys == entries.Keys + {b.GetId()}
    ensures IsChildList(entries', id, if b.GetParentId() == id then list + [b.GetId()] else list)
  {
    assert forall c :: c in list + [b.GetId()] <==> c in list || c == b.GetId();
  }

  lemma AddKeepsChildLists(f: Forest, b: FullBlock, f': Forest)
    requires Linked(f) && ValidToInsert(f, b) && AddStep(f, b, f') && b.header.WellFormed()
    ensures ChildLists(f')
  {
    var id := b.GetId();
    forall k | k in f'.entries
      ensures IsChildList(f'.entries, k, f'.entries[k].children)
    {
      if k == id {
        assert id != b.GetParentId();
        AppendChild(f.entries, f'.entries, id, f'.entries[id].children, b);
      } else {
        AppendChild(f.entries, f'.entries, k, f.entries[k].children, b);
      }
    }
    AppendChild(f.entries, f'.entries, f.root.blockId, f.rootChildren, b);
  }

  /** Nothing is forgotten or re-marked: only the one child list grows. */
  lemma AddKeepsEntries(f: Forest, b: FullBlock, f': Forest, k: BlockId)
    requires AddStep(f, b, f') && k in f.entries
    ensures k in f'.entries && f'.entries[k].block == f.entries[k].block && f'.entries[k].coherent == f.entries[k].coherent
  {
  }

  lemma AddKeepsLinks(f: Forest, b: FullBlock, f': Forest)
    requires Linked(f) && GoodBlock(b) && AddStep(f, b, f')
    ensures Linked(f')
  {
    if ValidToInsert(f, b) {
      AddKeepsChildLists(f, b, f');
      forall k | k in f'.entries
        ensures f'.entries[k].block.GetId() == k && GoodBlock(f'.entries[k].block)
        ensures f'.root.round < f'.entries[k].block.GetBlockRound()
      {
        if k in f.entries {
          AddKeepsEntries(f, b, f', k);
        }
      }
    }
  }

  /** A coherent block was coherent before, and so was its parent. */
  lemma AddKeepsCoherent(f: Forest, b: FullBlock, f': Forest, k: BlockId)
    requires AddStep(f, b, f') && k in f'.entries && f'.entries[k].coherent
    ensures k in f.entries && f.entries[k].coherent && f'.entries[k].block == f.entries[k].block && f'.root == f.root
    ensures CoherentAt(f, ParentOf(k)) ==> CoherentAt(f', ParentOf(k))
  {
    if k in f.entries {
      AddKeepsEntries(f, b, f', k);
    }
    if ParentOf(k) in f.entries {
      AddKeepsEntries(f, b, f', ParentOf(k));
    }
  }

  /** Blocks may arrive in any order, children before parents included. */
  lemma AddKeepsInv(f: Forest, b: FullBlock, f': Forest)
    requires Linked(f) && GoodBlock(b) && AddStep(f, b, f')
    ensures Linked(f')
    ensures CoherenceClosed(f) ==> CoherenceClosed(f')
    ensures SeqLinked(f) ==> SeqLinked(f')
  {
    AddKeepsLinks(f, b, f');
    forall k | k in f'.entries && f'.entries[k].coherent
      ensures CoherenceClosed(f) ==> CoherentAt(f', ParentOf(k))
      ensures SeqLinked(f) ==> f'.entries[k].block.GetSeqNum() == SeqNumOf(f'.root, ParentOf(k)) + 1
    {
      AddKeepsCoherent(f, b, f', k);
    }
  }

  // ----- try_update_coherency -----

  /** The first incoherent block on the path from the root, if any. */
  function FirstIncoherent(f: Forest, b: BlockId): (r: Option<BlockId>)
    requires Connected(f, b)
    ensures r.Some? ==> r.value in f.entries && !f.entries[r.value].coherent && Connected(f, r.value)
    decreases b
  {
    if b == f.root.blockId then None
    else
      var above := FirstIncoherent(f, ParentOf(b));
      if above.Some? then above else if f.entries[b].coherent then None else Some(b)
  }

  /** The policy accepts `id` as an extension of the path above it. */
  predicate Passes(f: Forest, policy: Policy, id: BlockId)
    requires id in f.entries && Connected(f, id) && id != f.root.blockId
  {
    policy(f.entries[id].block, PathBlocks(f, ParentOf(id)), f.root).Ok?
  }

  /** `id` is in the subtree of `u`, and the policy accepts every block from `u` down to it. */
  predicate Accepted(f: Forest, policy: Policy, u: BlockId, id: BlockId)
    decreases id
  {
    && id in f.entries && id != f.root.blockId && Connected(f, id)
    && Passes(f, policy, id)
    && (id == u || Accepted(f, policy, u, ParentOf(id)))
  }

  ghost function Updated(f: Forest, policy: Policy, u: BlockId): Forest {
    f.(entries := map id | id in f.entries ::
         f.entries[id].(coherent := f.entries[id].coherent || Accepted(f, policy, u, id)))
  }

  /** Above the first incoherent block everything is coherent, below it nothing is. */
  lemma {:induction false} FirstIncoherentSplits(f: Forest, b: BlockId)
    requires Inv(f) && Connected(f, b)
    ensures FirstIncoherent(f, b).None? <==> CoherentAt(f, b)
    ensures FirstIncoherent(f, b).Some? ==>
              CoherentAt(f, ParentOf(FirstIncoherent(f, b).value))
    decreases b
  {
    if b != f.root.blockId {
      FirstIncoherentSplits(f, ParentOf(b));
      if f.entries[b].coherent {
        assert CoherentAt(f, ParentOf(b));
      }
    }
  }

  lemma {:induction false} FirstIncoherentIsAncestor(f: Forest, b: BlockId)
    requires Inv(f) && Connected(f, b) && FirstIncoherent(f, b).Some?
    ensures Reaches(f.entries, FirstIncoherent(f, b).value, b)
    decreases b
  {
    if FirstIncoherent(f, ParentOf(b)).Some? {
      FirstIncoherentIsAncestor(f, ParentOf(b));
    }
  }

  lemma ExtendedSeqNumOfPath(f: Forest, b: BlockId)
    requires KeysMatch(f.entries) && Connected(f, b)
    ensures ExtendedSeqNum(PathBlocks(f, b), f.root) == SeqNumOf(f.root, b)
  {
  }

  lemma UpdateKeepsInv(f: Forest, policy: Policy, u: BlockId)
    requires Inv(f) && u in f.entries && CoherentAt(f, ParentOf(u))
    ensures Inv(Updated(f, policy, u))
    ensures SeqLinked(f) && SeqNumRule(policy) ==> SeqLinked(Updated(f, policy, u))
  {
    var f' := Updated(f, policy, u);
    assert f'.entries.Keys == f.entries.Keys;
    forall id | id in f'.entries
      ensures IsChildList(f'.entries, id, f'.entries[id].children)
    {
      SameChildren(f.entries, f'.entries, id, f.entries[id].children);
    }
    SameChildren(f.entries, f'.entries, f.root.blockId, f.rootChildren);
    forall id | id in f'.entries && f'.entries[id].coherent
      ensures CoherentAt(f', ParentOf(id))
    {
      if !f.entries[id].coherent && id != u {
        assert Accepted(f, policy, u, ParentOf(id));
      } else {
        assert CoherentAt(f, ParentOf(id));
      }
    }
    if SeqLinked(f) && SeqNumRule(policy) {
      forall id | id in f'.entries && f'.entries[id].coherent
        ensures f'.entries[id].block.GetSeqNum() == SeqNumOf(f'.root, ParentOf(id)) + 1
      {
        if !f.entries[id].coherent {
          assert Passes(f, policy, id);
          ExtendedSeqNumOfPath(f, ParentOf(id));
        }
      }
    }
  }

  lemma SameChildren(entries: Entries, entries': Entries, id: BlockId, list: seq<BlockId>)
    requires entries.Keys == entries'.Keys && IsChildList(entries, id, list)
    ensures IsChildList(entries', id, list)
  {
  }

  // ----- prune -----

  /** Every block from `id` up to the root is there and coherent. */
  predicate PathCoherent(f: Forest, id: BlockId)
    decreases id
  {
    id == f.root.blockId || (id in f.entries && id.HeaderHash? && f.entries[id].coherent && PathCoherent(f, ParentOf(id)))
  }

  ghost predicate AllCoherent(f: Forest, blocks: seq<FullBlock>) {
    forall k :: 0 <= k < |blocks| ==> CoherentAt(f, blocks[k].GetId())
  }

  lemma AllCoherentPush(f: Forest, blocks: seq<FullBlock>, b: FullBlock)
    ensures AllCoherent(f, blocks + [b]) <==> AllCoherent(f, blocks) && CoherentAt(f, b.GetId())
  {
    var more := blocks + [b];
    assert more[|blocks|] == b;
    if AllCoherent(f, more) {
      assert forall k :: 0 <= k < |blocks| ==> more[k] == blocks[k];
    }
  }

  /** The climb of prune meets only blocks that are there and coherent iff the path exists and is
      coherent throughout. */
  lemma {:induction false} PathCoherentIff(f: Forest, id: BlockId)
    requires KeysMatch(f.entries)
    ensures PathCoherent(f, id) <==> Connected(f, id) && AllCoherent(f, PathBlocks(f, id))
    decreases id
  {
    if id != f.root.blockId && id in f.entries {
      PathCoherentIff(f, ParentOf(id));
      if Connected(f, id) {
        AllCoherentPush(f, PathBlocks(f, ParentOf(id)), f.entries[id].block);
      }
    }
  }

  /** In a tree with the full invariant a coherent block is enough. */
  lemma {:induction false} CoherentHasCoherentPath(f: Forest, id: BlockId)
    requires Inv(f)
    ensures PathCoherent(f, id) <==> CoherentAt(f, id)
    decreases id
  {
    if id != f.root.blockId && id in f.entries && f.entries[id].coherent {
      CoherentHasCoherentPath(f, ParentOf(id));
    }
  }

  /** The forest after committing up to `n`: every block whose QC is older than `n` is dropped. */
  ghost function Pruned(f: Forest, n: BlockId): Forest
    requires n in f.entries
  {
    var newRoot := f.entries[n];
    Forest(RootInfoOf(newRoot.block), newRoot.children,
           map id | id in f.entries && newRoot.block.GetBlockRound() <= f.entries[id].block.GetParentRound()
             :: f.entries[id])
  }

  /** Pruning in two sweeps: first some old blocks in any way, then every block that is too old. */
  lemma TwoSweepsPrune(f: Forest, n: BlockId, middle: Entries)
    requires n in f.entries && middle.Keys <= f.entries.Keys
    requires forall id :: id in f.entries ==>
               if id in middle then middle[id] == f.entries[id]
               else f.entries[id].block.GetParentRound() < f.entries[n].block.GetBlockRound()
    ensures Sweep(middle, f.entries[n].block.GetBlockRound()) == Pruned(f, n).entries
  {
  }

  function Sweep(entries: Entries, round: Round): Entries {
    map id | id in entries && round <= entries[id].block.GetParentRound() :: entries[id]
  }

  /** Hypothesis on a commit, given by the commit rule of the protocol: the connected
      blocks certified at or above the round of the committed block descend from it. */
  ghost predicate BranchHypothesis(f: Forest, n: BlockId)
    requires n in f.entries
  {
    forall id :: id in f.entries && Connected(f, id)
      && f.entries[n].block.GetBlockRound() <= f.entries[id].block.GetParentRound()
      ==> Reaches(f.entries, n, id)
  }

  /** The part of the hypothesis that concerns coherent blocks only. */
  ghost predicate CoherentBranchHypothesis(f: Forest, n: BlockId)
    requires n in f.entries
  {
    forall id :: id in f.entries && f.entries[id].coherent
      && f.entries[n].block.GetBlockRound() <= f.entries[id].block.GetParentRound()
      ==> Reaches(f.entries, n, id)
  }

  /** Rounds grow along every branch, so an ancestor's QC is older than a descendant's block. */
  lemma {:induction false} AncestorsAreOlder(entries: Entries, a: BlockId, b: BlockId)
    requires KeysMatch(entries) && a in entries && b in entries && Reaches(entries, a, b)
    ensures a == b || entries[a].block.GetBlockRound() <= entries[b].block.GetParentRound()
    ensures entries[a].block.GetParentRound() < entries[b].block.GetBlockRound()
    decreases b
  {
    if a != b && ParentOf(b) != a {
      AncestorsAreOlder(entries, a, ParentOf(b));
    }
  }

  /** A coherent block is connected to the root. */
  lemma {:induction false} CoherentIsConnected(f: Forest, id: BlockId)
    requires Inv(f) && CoherentAt(f, id)
    ensures Connected(f, id)
    decreases id
  {
    if id != f.root.blockId {
      CoherentIsConnected(f, ParentOf(id));
    }
  }

  lemma {:induction false} ReachesIsMonotone(small: Entries, big: Entries, a: BlockId, b: BlockId)
    requires small.Keys <= big.Keys && Reaches(small, a, b)
    ensures Reaches(big, a, b)
    decreases b
  {
    if a != b {
      ReachesIsMonotone(small, big, a, ParentOf(b));
    }
  }

  lemma {:induction false} ReachesIsTransitive(entries: Entries, a: BlockId, b: BlockId, c: BlockId)
    requires Reaches(entries, a, b) && Reaches(entries, b, c)
    ensures Reaches(entries, a, c)
    decreases c
  {
    if b != c {
      ReachesIsTransitive(entries, a, b, ParentOf(c));
    }
  }

  /** Everything but coherence closure survives a prune with no hypothesis at all. */
  lemma PruneKeepsLinks(f: Forest, n: BlockId)
    requires Linked(f) && n in f.entries
    ensures Linked(Pruned(f, n))
  {
    var f' := Pruned(f, n);
    forall id | id in f'.entries
      ensures IsChildList(f'.entries, id, f'.entries[id].children)
    {
      ChildrenSurvive(f, n, id);
    }
    ChildrenSurvive(f, n, n);
  }

  lemma ChildrenSurvive(f: Forest, n: BlockId, id: BlockId)
    requires Linked(f) && n in f.entries
    requires id == n || id in Pruned(f, n).entries
    ensures IsChildList(Pruned(f, n).entries, id, f.entries[id].children)
  {
    forall c | c in f.entries && ParentOf(c) == id
      ensures c in Pruned(f, n).entries
    {
      assert f.entries[c].block.header.WellFormed();
    }
  }

  /** Descendants of the new root keep their entry, flag and child list. */
  lemma {:induction false} DescendantsSurvivePrune(f: Forest, n: BlockId, id: BlockId)
    requires Linked(f) && n in f.entries && id in f.entries
    requires Reaches(f.entries, n, id) && id != n
    ensures id in Pruned(f, n).entries && Pruned(f, n).entries[id] == f.entries[id]
    ensures Connected(Pruned(f, n), id)
    decreases id
  {
    AncestorsAreOlder(f.entries, n, id);
    if ParentOf(id) != n {
      DescendantsSurvivePrune(f, n, ParentOf(id));
    }
  }

  /** A prune keeps the coherence flags meaningful exactly when the coherent blocks it
      spares descend from the new root. */
  lemma PruneKeepsCoherenceIff(f: Forest, n: BlockId)
    requires Inv(f) && n in f.entries
    ensures CoherenceClosed(Pruned(f, n)) <==> CoherentBranchHypothesis(f, n)
  {
    var f' := Pruned(f, n);
    PruneKeepsLinks(f, n);
    if CoherentBranchHypothesis(f, n) {
      forall id | id in f'.entries && f'.entries[id].coherent
        ensures CoherentAt(f', ParentOf(id))
      {
        var p := ParentOf(id);
        assert CoherentAt(f, p);
        if p != n {
          assert Reaches(f.entries, n, p);
          RootNotInForest(f);
          DescendantsSurvivePrune(f, n, p);
        }
      }
    }
    if CoherenceClosed(f') {
      forall id | id in f.entries && f.entries[id].coherent && id in f'.entries
        ensures Reaches(f.entries, n, id)
      {
        CoherentIsConnected(f', id);
        ReachesIsMonotone(f'.entries, f.entries, n, id);
      }
      assert CoherentBranchHypothesis(f, n);
    }
  }

  lemma BranchHypothesisCoversCoherent(f: Forest, n: BlockId)
    requires Inv(f) && n in f.entries && BranchHypothesis(f, n)
    ensures CoherentBranchHypothesis(f, n)
  {
    forall id | id in f.entries && f.entries[id].coherent
      ensures Connected(f, id)
    {
      CoherentIsConnected(f, id);
    }
  }

  lemma PruneKeepsInv(f: Forest, n: BlockId)
    requires Inv(f) && n in f.entries && BranchHypothesis(f, n)
    ensures Inv(Pruned(f, n))
    ensures SeqLinked(f) ==> SeqLinked(Pruned(f, n))
  {
    var f' := Pruned(f, n);
    PruneKeepsLinks(f, n);
    BranchHypothesisCoversCoherent(f, n);
    PruneKeepsCoherenceIff(f, n);
    if SeqLinked(f) {
      forall id | id in f'.entries && f'.entries[id].coherent
        ensures f'.entries[id].block.GetSeqNum() == SeqNumOf(f'.root, ParentOf(id)) + 1
      {
        assert CoherentAt(f', ParentOf(id));
        RootNotInForest(f);
      }
    }
  }

  /** Under the hypothesis the connected blocks a prune spares are exactly the
      descendants of the new root. */
  lemma ConnectedSurvivorsAreDescendants(f: Forest, n: BlockId, id: BlockId)
    requires Linked(f) && n in f.entries && BranchHypothesis(f, n)
    requires id in f.entries && Connected(f, id) && id != n
    ensures id in Pruned(f, n).entries <==> Reaches(f.entries, n, id)
  {
    if Reaches(f.entries, n, id) {
      DescendantsSurvivePrune(f, n, id);
    }
  }

  /** The garbage collection keeps exactly the branch of the new root, among connected blocks, if
      and only if the hypothesis holds. */
  lemma PruneKeepsBranchIff(f: Forest, n: BlockId)
    requires Linked(f) && n in f.entries
    ensures BranchHypothesis(f, n) <==>
              forall id :: id in f.entries && Connected(f, id) && id != n ==>
                (id in Pruned(f, n).entries <==> Reaches(f.entries, n, id))
  {
    if BranchHypothesis(f, n) {
      forall id | id in f.entries && Connected(f, id) && id != n
        ensures id in Pruned(f, n).entries <==> Reaches(f.entries, n, id)
      {
        ConnectedSurvivorsAreDescendants(f, n, id);
      }
    }
  }
}
