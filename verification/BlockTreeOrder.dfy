/** Orders that must not matter: that in which blocks arrive, and that in which hash maps are
    walked when a child list is collected. */
module BlockTreeOrder {
  import opened Collections
  import opened ConsensusTypes
  import opened BlockForest
  import opened BlockTreeRuns

  /** The same tree up to the order inside child lists. */
  ghost predicate SameTree(f: Forest, g: Forest) {
    && f.root == g.root
    && f.entries.Keys == g.entries.Keys
    && forall id :: id in f.entries ==> SameEntry(f.entries[id], g.entries[id])
  }

  ghost predicate SameEntry(e: Entry, e': Entry) {
    e.block == e'.block && e.coherent == e'.coherent
  }

  /** Child lists of the same tree are permutations of each other. */
  lemma SameTreeSameChildren(f: Forest, g: Forest, id: BlockId)
    requires Linked(f) && Linked(g) && SameTree(f, g)
    ensures multiset(f.rootChildren) == multiset(g.rootChildren)
    ensures id in f.entries ==> multiset(f.entries[id].children) == multiset(g.entries[id].children)
  {
    PermutedChildLists(f.entries, g.entries, f.root.blockId, f.rootChildren, g.rootChildren);
    if id in f.entries {
      PermutedChildLists(f.entries, g.entries, id, f.entries[id].children, g.entries[id].children);
    }
  }

  lemma PermutedChildLists(entries: Entries, entries': Entries, id: BlockId, list: seq<BlockId>, list': seq<BlockId>)
    requires entries.Keys == entries'.Keys && IsChildList(entries, id, list) && IsChildList(entries', id, list')
    ensures multiset(list) == multiset(list')
  {
    SameElements(list, list');
  }

  // ----- Hash map order -----

  lemma {:induction false} SamePaths(f: Forest, g: Forest, id: BlockId)
    requires SameTree(f, g)
    ensures Connected(f, id) == Connected(g, id)
    ensures Connected(f, id) ==> PathBlocks(f, id) == PathBlocks(g, id) && FirstIncoherent(f, id) == FirstIncoherent(g, id)
    decreases id
  {
    if id != f.root.blockId && id in f.entries && id.HeaderHash? {
      SamePaths(f, g, ParentOf(id));
    }
  }

  lemma {:induction false} SameAccepted(f: Forest, g: Forest, policy: Policy, u: BlockId, id: BlockId)
    requires SameTree(f, g)
    ensures Accepted(f, policy, u, id) == Accepted(g, policy, u, id)
    decreases id
  {
    SamePaths(f, g, id);
    if id in f.entries && id != f.root.blockId && Connected(f, id) {
      SamePaths(f, g, ParentOf(id));
      SameAccepted(f, g, policy, u, ParentOf(id));
    }
  }

  /** No call can tell apart, or tear apart, two trees that differ in child-list order only. */
  lemma StepsKeepSameTree(f: Forest, g: Forest, e: Event, f': Forest, g': Forest, out: seq<FullBlock>, out': seq<FullBlock>)
    requires SameTree(f, g) && Step(f, e, f', out) && Step(g, e, g', out')
    ensures SameTree(f', g') && out == out'
  {
    match e
    case Add(b) =>
      assert ValidToInsert(f, b) == ValidToInsert(g, b);
    case UpdateCoherency(id, policy) =>
      SamePaths(f, g, id);
      if Connected(f, id) && FirstIncoherent(f, id).Some? {
        var u := FirstIncoherent(f, id).value;
        forall x | x in f.entries
          ensures SameEntry(f'.entries[x], g'.entries[x])
        {
          SameAccepted(f, g, policy, u, x);
        }
      }
    case Prune(n) =>
      SamePaths(f, g, n);
  }

  ghost predicate SameEvents(r: Run, r': Run) {
    match (r, r')
    case (Start(root), Start(root')) => root == root'
    case (Then(before, e, _, _), Then(before', e', _, _)) => e == e' && SameEvents(before, before')
    case (_, _) => false
  }

  /** The calls alone decide which blocks are committed and what the tree holds afterwards,
      whichever way the hash maps were walked. */
  lemma {:induction false} RunsAreDetermined(r: Run, r': Run)
    requires IsRun(r) && IsRun(r') && SameEvents(r, r')
    ensures Committed(r) == Committed(r') && SameTree(Last(r), Last(r'))
  {
    match (r, r')
    case (Start(_), Start(_)) =>
    case (Then(before, e, f, out), Then(before', _, f', out')) =>
      RunsAreDetermined(before, before');
      StepsKeepSameTree(Last(before), Last(before'), e, f, f', out, out');
  }

  // ----- Arrival order -----

  ghost predicate AddRun(states: seq<Forest>, blocks: seq<FullBlock>) {
    && |states| == |blocks| + 1
    && (forall i :: 0 <= i < |blocks| ==> GoodBlock(blocks[i]) && AddStep(states[i], blocks[i], states[i + 1]))
  }

  ghost predicate Arrives(root: RootInfo, blocks: seq<FullBlock>, id: BlockId) {
    exists b :: b in blocks && b.GetId() == id && root.round < b.GetBlockRound()
  }

  /** `id` is in `g` if it was in `f` or came; what was there is as it was, what came is not
      yet coherent. */
  ghost predicate LeadsTo(f: Forest, came: bool, g: Forest, id: BlockId) {
    && g.root == f.root
    && (id in g.entries <==> id in f.entries || came)
    && (id in f.entries ==> id in g.entries && SameEntry(f.entries[id], g.entries[id]))
    && (id in g.entries && id !in f.entries ==> !g.entries[id].coherent)
  }

  lemma AddLeadsTo(f: Forest, b: FullBlock, g: Forest, id: BlockId)
    requires AddStep(f, b, g)
    ensures LeadsTo(f, b.GetId() == id && f.root.round < b.GetBlockRound(), g, id)
  {
  }

  /** What a series of adds leads to, said without the order: the old entries as they were, and
      every block above the root that came, not yet coherent. */
  lemma {:induction false} AddsLeadTo(states: seq<Forest>, blocks: seq<FullBlock>, id: BlockId)
    requires AddRun(states, blocks)
    ensures LeadsTo(states[0], Arrives(states[0].root, blocks, id), states[|blocks|], id)
    decreases |blocks|
  {
    if blocks != [] {
      var n := |blocks| - 1;
      AddsLeadTo(states[..n + 1], blocks[..n], id);
      AddLeadsTo(states[n], blocks[n], states[n + 1], id);
      ArrivesPush(states[0].root, blocks[..n], blocks[n], id);
      assert blocks == blocks[..n] + [blocks[n]];
    }
  }

  lemma {:induction false} AddsKeepLinks(states: seq<Forest>, blocks: seq<FullBlock>)
    requires AddRun(states, blocks) && Linked(states[0])
    ensures Linked(states[|blocks|])
    decreases |blocks|
  {
    if blocks != [] {
      var n := |blocks| - 1;
      AddsKeepLinks(states[..n + 1], blocks[..n]);
      AddKeepsInv(states[n], blocks[n], states[n + 1]);
    }
  }

  lemma ArrivesPush(root: RootInfo, blocks: seq<FullBlock>, b: FullBlock, id: BlockId)
    ensures Arrives(root, blocks + [b], id) <==>
              Arrives(root, blocks, id) || (b.GetId() == id && root.round < b.GetBlockRound())
  {
    if Arrives(root, blocks, id) {
      var x :| x in blocks && x.GetId() == id && root.round < x.GetBlockRound();
      assert x in blocks + [b];
    }
    assert b in blocks + [b];
  }

  /** Blocks received in any order, with any repetitions, give the same tree. */
  lemma ArrivalOrderIsIrrelevant(states: seq<Forest>, blocks: seq<FullBlock>,
                                 states': seq<Forest>, blocks': seq<FullBlock>)
    requires AddRun(states, blocks) && AddRun(states', blocks')
    requires states[0] == states'[0] && Linked(states[0])
    requires forall b :: b in blocks <==> b in blocks'
    ensures SameTree(states[|blocks|], states'[|blocks'|])
    ensures Linked(states[|blocks|]) && Linked(states'[|blocks'|])
  {
    var f, g := states[|blocks|], states'[|blocks'|];
    AddsKeepLinks(states, blocks);
    AddsKeepLinks(states', blocks');
    AddsLeadTo(states, blocks, f.root.blockId);
    AddsLeadTo(states', blocks', f.root.blockId);
    forall id
      ensures id in f.entries <==> id in g.entries
      ensures id in f.entries ==> SameEntry(f.entries[id], g.entries[id])
    {
      AddsLeadTo(states, blocks, id);
      AddsLeadTo(states', blocks', id);
      if id in f.entries {
        IdNamesBlock(f.entries[id].block, g.entries[id].block);
      }
    }
  }

  lemma IdNamesBlock(a: FullBlock, b: FullBlock)
    requires GoodBlock(a) && GoodBlock(b) && a.GetId() == b.GetId()
    ensures a == b
  {
    assert a.header == b.header && a.body.GetId() == b.body.GetId();
  }
}
