/** The search of try_update_coherency (monad-blocktree/src/blocktree.rs:237-323), stated on
    the forest: what holds between two visits and what has been computed at the end. */
module CoherencySearch {
  import opened Collections
  import opened ConsensusTypes
  import opened BlockForest
  import opened BlockTreeRuns
  import opened Traversal

  // ----- What the policy is shown, and what the update marks -----

  /** `ext` is the branch that `x` extends: blocks of the forest, the first a child of the root, each
      the parent of the next, the last the parent of `x`; empty when the parent of `x` is the root. */
  ghost predicate ExtendedBranch(f: Forest, x: BlockId, ext: seq<FullBlock>) {
    && (forall i :: 0 <= i < |ext| ==> ext[i].GetId() in f.entries && f.entries[ext[i].GetId()].block == ext[i])
    && (forall i :: 0 < i < |ext| ==> ext[i].GetParentId() == ext[i - 1].GetId())
    && if ext == [] then ParentOf(x) == f.root.blockId
       else ext[0].GetParentId() == f.root.blockId && ext[|ext| - 1].GetId() == ParentOf(x)
  }

  /** The policy accepts `x` when shown the whole branch it extends and the root. */
  ghost predicate PolicyAccepts(f: Forest, policy: Policy, x: BlockId) {
    && x in f.entries
    && exists ext :: ExtendedBranch(f, x, ext) && policy(f.entries[x].block, ext, f.root).Ok?
  }

  /** Every block from `u` down to `id` is accepted. */
  ghost predicate AllAccepted(f: Forest, policy: Policy, u: BlockId, id: BlockId) {
    forall x :: Reaches(f.entries, u, x) && Reaches(f.entries, x, id) ==> PolicyAccepts(f, policy, x)
  }

  /** `u` is where coherence stops on the way to `b`: an incoherent ancestor with a coherent parent. */
  ghost predicate CoherenceStopsAt(f: Forest, b: BlockId, u: BlockId) {
    && u in f.entries && !f.entries[u].coherent && CoherentAt(f, ParentOf(u))
    && Reaches(f.entries, u, b)
  }

  /** An update for `b` reaches `id`: it is at or below the block where coherence stops, and the
      policy accepts everything in between. */
  ghost predicate UpdateReaches(f: Forest, policy: Policy, b: BlockId, id: BlockId) {
    exists u :: CoherenceStopsAt(f, b, u) && Reaches(f.entries, u, id) && AllAccepted(f, policy, u, id)
  }

  /** Lengthening a branch by its next block. */
  lemma ExtendedBranchGrows(f: Forest, x: BlockId, ext: seq<FullBlock>)
    requires KeysMatch(f.entries) && ParentOf(x) in f.entries && ExtendedBranch(f, ParentOf(x), ext)
    ensures ExtendedBranch(f, x, ext + [f.entries[ParentOf(x)].block])
  {
    var p := f.entries[ParentOf(x)].block;
    var longer := ext + [p];
    assert longer[|ext|] == p && forall i :: 0 <= i < |ext| ==> longer[i] == ext[i];
  }

  /** Dropping the last block of a branch gives the branch of that block. */
  lemma ExtendedBranchShrinks(f: Forest, x: BlockId, ext: seq<FullBlock>)
    requires KeysMatch(f.entries) && ParentOf(x) != f.root.blockId && ExtendedBranch(f, x, ext)
    ensures ext != [] && ParentOf(x) in f.entries && ext[|ext| - 1] == f.entries[ParentOf(x)].block
    ensures ExtendedBranch(f, ParentOf(x), ext[..|ext| - 1])
  {
    var shorter := ext[..|ext| - 1];
    assert forall i :: 0 <= i < |shorter| ==> shorter[i] == ext[i];
    assert f.entries[ParentOf(x)].block.GetParentId() == ParentOf(ParentOf(x));
  }

  lemma {:induction false} PathIsExtendedBranch(f: Forest, x: BlockId)
    requires KeysMatch(f.entries) && Connected(f, ParentOf(x))
    ensures ExtendedBranch(f, x, PathBlocks(f, ParentOf(x)))
    decreases x
  {
    var p := ParentOf(x);
    if p != f.root.blockId {
      PathIsExtendedBranch(f, p);
      ExtendedBranchGrows(f, x, PathBlocks(f, ParentOf(p)));
    }
  }

  /** There is exactly one branch to extend: the path above the block. */
  lemma {:induction false} ExtendedBranchIsPath(f: Forest, x: BlockId, ext: seq<FullBlock>)
    requires Linked(f) && Connected(f, ParentOf(x)) && ExtendedBranch(f, x, ext)
    ensures ext == PathBlocks(f, ParentOf(x))
    decreases x
  {
    RootNotInForest(f);
    var p := ParentOf(x);
    if p != f.root.blockId {
      ExtendedBranchShrinks(f, x, ext);
      ExtendedBranchIsPath(f, p, ext[..|ext| - 1]);
    }
  }

  lemma PassesIsAccepts(f: Forest, policy: Policy, x: BlockId)
    requires Linked(f) && x in f.entries && Connected(f, x)
    ensures x != f.root.blockId && (Passes(f, policy, x) <==> PolicyAccepts(f, policy, x))
  {
    RootNotInForest(f);
    PathIsExtendedBranch(f, x);
    forall ext | ExtendedBranch(f, x, ext)
      ensures ext == PathBlocks(f, ParentOf(x))
    {
      ExtendedBranchIsPath(f, x, ext);
    }
  }

  /** Accepted by the search means accepted by the policy at every block on the way. */
  lemma {:induction false} AcceptedMeaning(f: Forest, policy: Policy, u: BlockId, id: BlockId)
    requires Linked(f) && u in f.entries && Connected(f, u)
    ensures Accepted(f, policy, u, id) <==> Reaches(f.entries, u, id) && AllAccepted(f, policy, u, id)
    decreases id
  {
    if Accepted(f, policy, u, id) {
      AcceptedIsAllAccepted(f, policy, u, id);
    }
    if Reaches(f.entries, u, id) && AllAccepted(f, policy, u, id) {
      AllAcceptedIsAccepted(f, policy, u, id);
    }
  }

  lemma {:induction false} AcceptedIsAllAccepted(f: Forest, policy: Policy, u: BlockId, id: BlockId)
    requires Linked(f) && u in f.entries && Connected(f, u) && Accepted(f, policy, u, id)
    ensures Reaches(f.entries, u, id) && AllAccepted(f, policy, u, id)
    decreases id
  {
    PassesIsAccepts(f, policy, id);
    if id != u {
      AcceptedIsAllAccepted(f, policy, u, ParentOf(id));
    } else {
      forall x | Reaches(f.entries, u, x) && Reaches(f.entries, x, id)
        ensures x == id
      {
        NoCycle(f, u, x);
      }
    }
  }

  /** Two blocks that reach each other are the same. */
  lemma NoCycle(f: Forest, a: BlockId, b: BlockId)
    requires Linked(f) && a in f.entries && Reaches(f.entries, a, b) && Reaches(f.entries, b, a)
    ensures a == b
  {
    if b in f.entries {
      AncestorsAreOlder(f.entries, a, b);
      AncestorsAreOlder(f.entries, b, a);
    }
  }

  lemma {:induction false} AllAcceptedIsAccepted(f: Forest, policy: Policy, u: BlockId, id: BlockId)
    requires Linked(f) && u in f.entries && Connected(f, u)
    requires Reaches(f.entries, u, id) && AllAccepted(f, policy, u, id)
    ensures Accepted(f, policy, u, id)
    decreases id
  {
    ReachesIsTransitive(f.entries, f.root.blockId, u, id);
    PassesIsAccepts(f, policy, id);
    if id != u {
      AllAcceptedIsAccepted(f, policy, u, ParentOf(id));
    }
  }

  /** Coherence stops at one block only. */
  lemma {:induction false} CoherenceStopsOnce(f: Forest, b: BlockId, u: BlockId)
    requires Inv(f) && CoherenceStopsAt(f, b, u)
    ensures Connected(f, b) && FirstIncoherent(f, b) == Some(u)
    decreases b
  {
    RootNotInForest(f);
    CoherentIsConnected(f, ParentOf(u));
    ReachesIsTransitive(f.entries, f.root.blockId, u, b);
    if b == u {
      FirstIncoherentSplits(f, ParentOf(u));
    } else {
      CoherenceStopsOnce(f, ParentOf(b), u);
    }
  }

  lemma FirstIncoherentStops(f: Forest, b: BlockId)
    requires Inv(f) && Connected(f, b) && FirstIncoherent(f, b).Some?
    ensures CoherenceStopsAt(f, b, FirstIncoherent(f, b).value)
  {
    FirstIncoherentSplits(f, b);
    FirstIncoherentIsAncestor(f, b);
  }

  /** What try_update_coherency does to each block: a block is coherent afterwards if and only if it
      was before or the update reaches it, with the policy shown the whole branch at every block. */
  lemma UpdateMeaning(f: Forest, b: BlockId, policy: Policy, f': Forest, id: BlockId)
    requires Inv(f) && Step(f, UpdateCoherency(b, policy), f', []) && id in f.entries
    ensures f'.entries.Keys == f.entries.Keys && f'.entries[id].block == f.entries[id].block
    ensures f'.entries[id].coherent <==> f.entries[id].coherent || UpdateReaches(f, policy, b, id)
  {
    forall u | CoherenceStopsAt(f, b, u)
      ensures Connected(f, b) && FirstIncoherent(f, b) == Some(u)
    {
      CoherenceStopsOnce(f, b, u);
    }
    if Connected(f, b) && FirstIncoherent(f, b).Some? {
      FirstIncoherentStops(f, b);
      AcceptedMeaning(f, policy, FirstIncoherent(f, b).value, id);
    }
  }

  // ----- The search -----

  /** What try_update_coherency returns: exactly the newly coherent blocks, once each,
      every parent before its children. */
  ghost predicate NewlyCoherent(f: Forest, f': Forest, list: seq<FullBlock>) {
    && NoDup(list)
    && (forall b :: b in list <==> BecameCoherent(f, f', b))
    && (forall i :: 0 <= i < |list| ==>
          CoherentAt(f, list[i].GetParentId()) || ListedBefore(list, i, list[i].GetParentId()))
  }

  ghost predicate BecameCoherent(f: Forest, f': Forest, b: FullBlock) {
    var id := b.GetId();
    id in f.entries && id in f'.entries && f.entries[id].block == b
    && !f.entries[id].coherent && f'.entries[id].coherent
  }

  ghost predicate ListedBefore(list: seq<FullBlock>, i: nat, id: BlockId)
    requires i <= |list|
  {
    exists j :: 0 <= j < i && list[j].GetId() == id
  }

  /** The children queued by the search: those of accepted blocks. */
  ghost function PassEdges(f: Forest, policy: Policy): set<BlockId> {
    set x | x in f.entries && PassesAt(f, policy, ParentOf(x))
  }

  ghost predicate PassesAt(f: Forest, policy: Policy, id: BlockId) {
    id in f.entries && id != f.root.blockId && Connected(f, id) && Passes(f, policy, id)
  }

  lemma {:induction false} RegionIsConnected(f: Forest, u: BlockId, edge: set<BlockId>, x: BlockId)
    requires Linked(f) && u in f.entries && Connected(f, u) && Region(f.entries, {u}, edge, x)
    ensures x in f.entries && x != f.root.blockId && Connected(f, x)
    decreases x
  {
    RootNotInForest(f);
    if x != u {
      RegionIsConnected(f, u, edge, ParentOf(x));
    }
  }

  /** The accepted blocks are the visited blocks that pass. */
  lemma {:induction false} AcceptedIsVisitedAndPasses(f: Forest, policy: Policy, u: BlockId, x: BlockId)
    requires Linked(f) && u in f.entries && Connected(f, u)
    ensures Accepted(f, policy, u, x) <==> Region(f.entries, {u}, PassEdges(f, policy), x) && PassesAt(f, policy, x)
    decreases x
  {
    if PassesAt(f, policy, x) && x != u {
      AcceptedIsVisitedAndPasses(f, policy, u, ParentOf(x));
      assert x in PassEdges(f, policy) <==> PassesAt(f, policy, ParentOf(x));
    }
  }

  ghost function Marked(f: Forest, accepted: set<BlockId>): Entries {
    map id | id in f.entries :: f.entries[id].(coherent := f.entries[id].coherent || id in accepted)
  }

  lemma MarkOne(f: Forest, accepted: set<BlockId>, x: BlockId)
    requires x in f.entries
    ensures var m := Marked(f, accepted);
            m[x := m[x].(coherent := true)] == Marked(f, accepted + {x})
  {
  }

  /** Flags do not change paths or child lists. */
  lemma {:induction false} MarkingKeepsPaths(f: Forest, accepted: set<BlockId>, x: BlockId)
    ensures var f' := f.(entries := Marked(f, accepted));
            Connected(f', x) == Connected(f, x) && (Connected(f, x) ==> PathBlocks(f', x) == PathBlocks(f, x))
    decreases x
  {
    if x in f.entries && x.HeaderHash? {
      MarkingKeepsPaths(f, accepted, ParentOf(x));
    }
  }

  lemma MarkingKeepsLinks(f: Forest, accepted: set<BlockId>)
    requires Linked(f)
    ensures Linked(f.(entries := Marked(f, accepted)))
  {
    var f' := f.(entries := Marked(f, accepted));
    assert f'.entries.Keys == f.entries.Keys;
    forall id | id in f'.entries
      ensures IsChildList(f'.entries, id, f'.entries[id].children)
    {
      SameChildren(f.entries, f'.entries, id, f.entries[id].children);
    }
    SameChildren(f.entries, f'.entries, f.root.blockId, f.rootChildren);
  }

  /** The list of results mirrors the set of accepted blocks, parents first. */
  ghost predicate Lists(f: Forest, u: BlockId, accepted: set<BlockId>, list: seq<FullBlock>) {
    && accepted <= f.entries.Keys
    && NoDup(list)
    && (forall b :: b in list <==> b.GetId() in accepted && f.entries[b.GetId()].block == b)
    && (forall i :: 0 <= i < |list| ==>
          list[i].GetId() == u || ListedBefore(list, i, list[i].GetParentId()))
  }

  ghost predicate Updating(f: Forest, policy: Policy, u: BlockId,
                           queue: seq<BlockId>, done: set<BlockId>, accepted: set<BlockId>, list: seq<FullBlock>)
  {
    && Searching(f.entries, {u}, PassEdges(f, policy), queue, done)
    && (forall x :: x in accepted <==> x in done && PassesAt(f, policy, x))
    && Lists(f, u, accepted, list)
  }

  lemma ListAccepted(f: Forest, u: BlockId, accepted: set<BlockId>, list: seq<FullBlock>, x: BlockId)
    requires KeysMatch(f.entries) && Lists(f, u, accepted, list)
    requires x in f.entries && x !in accepted && (x == u || ParentOf(x) in accepted)
    ensures Lists(f, u, accepted + {x}, list + [f.entries[x].block])
  {
    var b := f.entries[x].block;
    var list' := list + [b];
    forall i | 0 <= i < |list'|
      ensures list'[i].GetId() == u || ListedBefore(list', i, list'[i].GetParentId())
    {
      if i < |list| {
        if list[i].GetId() != u {
          var j :| 0 <= j < i && list[j].GetId() == list[i].GetParentId();
          assert list'[j].GetId() == list'[i].GetParentId();
        }
      } else if x != u {
        var p := f.entries[ParentOf(x)].block;
        assert p in list;
        var j :| 0 <= j < |list| && list[j] == p;
        assert list'[j].GetId() == b.GetParentId();
      }
    }
    assert forall c :: c in list' <==> c in list || c == b;
  }

  /** The front of the queue is a connected block of the forest not visited before. */
  lemma UpdateFront(f: Forest, policy: Policy, u: BlockId, queue: seq<BlockId>, done: set<BlockId>)
    requires Linked(f) && u in f.entries && Connected(f, u)
    requires |queue| > 0 && Searching(f.entries, {u}, PassEdges(f, policy), queue, done)
    ensures queue[0] in f.entries && queue[0] !in done && queue[0] != f.root.blockId && Connected(f, queue[0])
    ensures queue[0] == u || (ParentOf(queue[0]) in done && PassesAt(f, policy, ParentOf(queue[0])))
  {
    var x := queue[0];
    assert x in queue;
    RegionIsConnected(f, u, PassEdges(f, policy), x);
  }

  /** What the search queues after visiting `x`: its children if it passes, else nothing. */
  lemma NextOfVisited(f: Forest, policy: Policy, x: BlockId)
    requires Linked(f) && x in f.entries
    ensures IsNextList(f.entries, PassEdges(f, policy), x,
                       if PassesAt(f, policy, x) then f.entries[x].children else [])
  {
    assert IsChildList(f.entries, x, f.entries[x].children);
    forall c | c in f.entries && ParentOf(c) == x
      ensures c in PassEdges(f, policy) <==> PassesAt(f, policy, x)
    {
    }
  }

  /** One visit that accepts the block. */
  lemma UpdateAccepts(f: Forest, policy: Policy, u: BlockId,
                      queue: seq<BlockId>, done: set<BlockId>, accepted: set<BlockId>, list: seq<FullBlock>)
    requires Linked(f) && u in f.entries && Connected(f, u)
    requires |queue| > 0 && Updating(f, policy, u, queue, done, accepted, list)
    requires PassesAt(f, policy, queue[0])
    ensures Updating(f, policy, u, queue[1..] + f.entries[queue[0]].children, done + {queue[0]},
                     accepted + {queue[0]}, list + [f.entries[queue[0]].block])
  {
    var x := queue[0];
    UpdateFront(f, policy, u, queue, done);
    OneStartIsApart(f.entries, u, PassEdges(f, policy));
    NextOfVisited(f, policy, x);
    SearchStep(f.entries, {u}, PassEdges(f, policy), queue, done, f.entries[x].children);
    ListAccepted(f, u, accepted, list, x);
  }

  /** One visit that rejects the block. */
  lemma UpdateRejects(f: Forest, policy: Policy, u: BlockId,
                      queue: seq<BlockId>, done: set<BlockId>, accepted: set<BlockId>, list: seq<FullBlock>)
    requires Linked(f) && u in f.entries && Connected(f, u)
    requires |queue| > 0 && Updating(f, policy, u, queue, done, accepted, list)
    requires !PassesAt(f, policy, queue[0])
    ensures Updating(f, policy, u, queue[1..], done + {queue[0]}, accepted, list)
  {
    UpdateFront(f, policy, u, queue, done);
    OneStartIsApart(f.entries, u, PassEdges(f, policy));
    NextOfVisited(f, policy, queue[0]);
    SearchStep(f.entries, {u}, PassEdges(f, policy), queue, done, []);
    assert queue[1..] + [] == queue[1..];
  }

  /** When the queue runs empty exactly the accepted blocks have been marked. */
  lemma UpdateMarksAccepted(f: Forest, policy: Policy, u: BlockId,
                            done: set<BlockId>, accepted: set<BlockId>, list: seq<FullBlock>)
    requires Inv(f) && u in f.entries && Connected(f, u) && !f.entries[u].coherent
    requires Updating(f, policy, u, [], done, accepted, list)
    ensures forall x :: x in accepted <==> Accepted(f, policy, u, x)
    ensures forall x :: x in accepted ==> !f.entries[x].coherent
  {
    forall x
      ensures x in accepted <==> Accepted(f, policy, u, x)
    {
      SearchComplete(f.entries, {u}, PassEdges(f, policy), done, x);
      AcceptedIsVisitedAndPasses(f, policy, u, x);
    }
    forall x | x in accepted
      ensures !f.entries[x].coherent
    {
      AcceptedWasIncoherent(f, policy, u, x);
    }
  }

  /** The flags are then those of `Updated` and the list is the result. */
  lemma UpdateFinished(f: Forest, policy: Policy, u: BlockId, accepted: set<BlockId>, list: seq<FullBlock>)
    requires KeysMatch(f.entries) && u in f.entries && CoherentAt(f, ParentOf(u)) && Lists(f, u, accepted, list)
    requires forall x :: x in accepted <==> Accepted(f, policy, u, x)
    requires forall x :: x in accepted ==> !f.entries[x].coherent
    ensures Marked(f, accepted) == Updated(f, policy, u).entries
    ensures NewlyCoherent(f, Updated(f, policy, u), list)
  {
    var f' := Updated(f, policy, u);
    assert Marked(f, accepted) == f'.entries;
    ListsNewlyCoherent(f, u, accepted, list, f');
  }

  /** The search before its first visit. */
  lemma UpdateStarts(f: Forest, policy: Policy, u: BlockId)
    requires u in f.entries
    ensures Marked(f, {}) == f.entries && Updating(f, policy, u, [u], {}, {}, [])
  {
    SearchStart(f.entries, {u}, PassEdges(f, policy), [u]);
  }

  /** What the search has done when the queue is empty. */
  lemma UpdateDone(f: Forest, policy: Policy, u: BlockId, done: set<BlockId>, accepted: set<BlockId>, list: seq<FullBlock>)
    requires Inv(f) && u in f.entries && Connected(f, u) && !f.entries[u].coherent && CoherentAt(f, ParentOf(u))
    requires Updating(f, policy, u, [], done, accepted, list)
    ensures f.(entries := Marked(f, accepted)) == Updated(f, policy, u)
    ensures NewlyCoherent(f, Updated(f, policy, u), list)
  {
    UpdateMarksAccepted(f, policy, u, done, accepted, list);
    UpdateFinished(f, policy, u, accepted, list);
  }

  lemma ListsNewlyCoherent(f: Forest, u: BlockId, accepted: set<BlockId>, list: seq<FullBlock>, f': Forest)
    requires KeysMatch(f.entries) && u in f.entries && CoherentAt(f, ParentOf(u)) && Lists(f, u, accepted, list)
    requires f'.entries == Marked(f, accepted) && forall x :: x in accepted ==> !f.entries[x].coherent
    ensures NewlyCoherent(f, f', list)
  {
    forall b
      ensures b in list <==> BecameCoherent(f, f', b)
    {
    }
    forall i | 0 <= i < |list|
      ensures CoherentAt(f, list[i].GetParentId()) || ListedBefore(list, i, list[i].GetParentId())
    {
    }
  }

  lemma {:induction false} AcceptedWasIncoherent(f: Forest, policy: Policy, u: BlockId, x: BlockId)
    requires Inv(f) && u in f.entries && !f.entries[u].coherent && Accepted(f, policy, u, x)
    ensures !f.entries[x].coherent
    decreases x
  {
    if x != u {
      AcceptedWasIncoherent(f, policy, u, ParentOf(x));
      assert !CoherentAt(f, ParentOf(x));
    }
  }

  // ----- The first incoherent block of a path -----

  function FirstIncoherentIn(entries: Entries, path: seq<FullBlock>): Option<BlockId> {
    if path == [] then None
    else
      var last := path[|path| - 1].GetId();
      var above := FirstIncoherentIn(entries, path[..|path| - 1]);
      if above.Some? then above
      else if last in entries && entries[last].coherent then None else Some(last)
  }

  lemma {:induction false} FirstIncoherentOnPath(f: Forest, b: BlockId)
    requires KeysMatch(f.entries) && Connected(f, b)
    ensures FirstIncoherent(f, b) == FirstIncoherentIn(f.entries, PathBlocks(f, b))
    ensures forall i :: 0 <= i < |PathBlocks(f, b)| ==> PathBlocks(f, b)[i].GetId() in f.entries
    decreases b
  {
    if b != f.root.blockId {
      FirstIncoherentOnPath(f, ParentOf(b));
      var path := PathBlocks(f, b);
      assert path[..|path| - 1] == PathBlocks(f, ParentOf(b));
    }
  }

  lemma {:induction false} FirstIncoherentInPrefix(entries: Entries, path: seq<FullBlock>, n: nat)
    requires n <= |path| && FirstIncoherentIn(entries, path[..n]).Some?
    ensures FirstIncoherentIn(entries, path) == FirstIncoherentIn(entries, path[..n])
    decreases |path|
  {
    if n == |path| {
      assert path[..n] == path;
    } else {
      var shorter := path[..|path| - 1];
      assert shorter[..n] == path[..n];
      FirstIncoherentInPrefix(entries, shorter, n);
    }
  }
}
