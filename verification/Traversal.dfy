/** Breadth-first search of a forest by child lists.  The three searches of
    monad-blocktree/src/blocktree.rs (237-323, 330-376, 545-582) differ only in where they
    start and which children they queue. */
module Traversal {
  import opened Collections
  import opened ConsensusTypes
  import opened BlockForest

  function SetOf(list: seq<BlockId>): set<BlockId> {
    set x | x in list
  }

  /** What the search visits: the starting points, and every block of `edge` whose
      parent is visited. */
  predicate Region(entries: Entries, starts: set<BlockId>, edge: set<BlockId>, x: BlockId)
    decreases x
  {
    || x in starts
    || (x in entries && x in edge && x.HeaderHash? && Region(entries, starts, edge, ParentOf(x)))
  }

  /** No starting point is found below another: each block is queued once. */
  ghost predicate Apart(entries: Entries, starts: set<BlockId>, edge: set<BlockId>) {
    forall s :: s in starts && s in entries ==> !Region(entries, starts, edge, ParentOf(s))
  }

  ghost predicate Searching(entries: Entries, starts: set<BlockId>, edge: set<BlockId>,
                            queue: seq<BlockId>, done: set<BlockId>)
  {
    && NoDup(queue)
    && (forall x :: x in queue ==> x !in done && Region(entries, starts, edge, x))
    && (forall x :: x in done ==> Region(entries, starts, edge, x))
    && (forall s :: s in starts ==> s in done || s in queue)
    && (forall x :: (x in done || x in queue) && x !in starts ==> ParentOf(x) in done)
    && (forall c :: c in entries && c in edge && ParentOf(c) in done ==> c in done || c in queue)
  }

  /** `list` is what the search queues after visiting `x`. */
  ghost predicate IsNextList(entries: Entries, edge: set<BlockId>, x: BlockId, list: seq<BlockId>) {
    && NoDup(list)
    && forall c :: c in list <==> c in entries && c in edge && ParentOf(c) == x
  }

  lemma NoDupTailPlus(queue: seq<BlockId>, list: seq<BlockId>)
    requires |queue| > 0 && NoDup(queue) && NoDup(list)
    requires forall c :: c in list ==> c !in queue
    ensures NoDup(queue[1..] + list)
    ensures queue[0] !in queue[1..]
    ensures forall x :: x in queue[1..] + list <==> (x in queue && x != queue[0]) || x in list
  {
    var joined := queue[1..] + list;
    forall i, j | 0 <= i < j < |joined|
      ensures joined[i] != joined[j]
    {
      if i < |queue| - 1 && |queue| - 1 <= j {
        assert joined[i] == queue[i + 1] && joined[i] in queue && joined[j] in list;
      }
    }
    forall x
      ensures x in joined <==> (x in queue && x != queue[0]) || x in list
    {
      if x in queue && x != queue[0] {
        var i :| 0 <= i < |queue| && queue[i] == x;
        assert joined[i - 1] == x;
      }
      if x in list {
        var i :| 0 <= i < |list| && list[i] == x;
        assert joined[|queue| - 1 + i] == x;
      }
    }
  }

  /** Visiting the front of the queue keeps the search on course. */
  lemma SearchStep(entries: Entries, starts: set<BlockId>, edge: set<BlockId>,
                   queue: seq<BlockId>, done: set<BlockId>, list: seq<BlockId>)
    requires KeysMatch(entries) && Apart(entries, starts, edge)
    requires |queue| > 0 && Searching(entries, starts, edge, queue, done)
    requires IsNextList(entries, edge, queue[0], list)
    ensures Searching(entries, starts, edge, queue[1..] + list, done + {queue[0]})
    ensures queue[0] in entries.Keys + starts - done
  {
    var x := queue[0];
    assert x in queue && Region(entries, starts, edge, x);
    forall c | c in list
      ensures c !in starts && c !in queue && c !in done && c.HeaderHash?
    {
    }
    NoDupTailPlus(queue, list);
  }

  /** When the queue is empty exactly the region has been visited. */
  lemma {:induction false} SearchComplete(entries: Entries, starts: set<BlockId>, edge: set<BlockId>,
                                          done: set<BlockId>, x: BlockId)
    requires Searching(entries, starts, edge, [], done)
    ensures x in done <==> Region(entries, starts, edge, x)
    decreases x
  {
    if Region(entries, starts, edge, x) && x !in starts {
      SearchComplete(entries, starts, edge, done, ParentOf(x));
    }
  }

  /** Distance to the nearest identifier that is a bare digest. */
  function Depth(id: BlockId): nat {
    if id.HeaderHash? then 1 + Depth(ParentOf(id)) else 0
  }

  lemma {:induction false} RegionIsBelow(entries: Entries, s: BlockId, edge: set<BlockId>, x: BlockId)
    requires Region(entries, {s}, edge, x)
    ensures Depth(s) <= Depth(x)
    decreases x
  {
    if x != s {
      RegionIsBelow(entries, s, edge, ParentOf(x));
    }
  }

  lemma OneStartIsApart(entries: Entries, s: BlockId, edge: set<BlockId>)
    requires KeysMatch(entries)
    ensures Apart(entries, {s}, edge)
  {
    if s in entries && Region(entries, {s}, edge, ParentOf(s)) {
      RegionIsBelow(entries, s, edge, ParentOf(s));
    }
  }

  lemma RootChildrenAreApart(f: Forest, edge: set<BlockId>)
    requires Linked(f)
    ensures Apart(f.entries, SetOf(f.rootChildren), edge)
  {
    RootNotInForest(f);
  }

  /** Starting from the children of the root and following every edge visits exactly
      the connected blocks. */
  lemma {:induction false} RootRegionIsConnected(f: Forest, x: BlockId)
    requires Linked(f)
    ensures Region(f.entries, SetOf(f.rootChildren), f.entries.Keys, x)
            <==> x in f.entries && Connected(f, x)
    decreases x
  {
    RootNotInForest(f);
    var starts := SetOf(f.rootChildren);
    assert forall c :: c in starts <==> c in f.rootChildren;
    if x in f.entries {
      assert x.HeaderHash? && x != f.root.blockId;
      if ParentOf(x) != f.root.blockId {
        RootRegionIsConnected(f, ParentOf(x));
        assert x !in f.rootChildren;
        assert Connected(f, x) <==> Connected(f, ParentOf(x));
        assert Connected(f, ParentOf(x)) ==> ParentOf(x) in f.entries;
      } else {
        assert x in f.rootChildren;
        assert Connected(f, ParentOf(x));
      }
    }
  }

  lemma SearchStart(entries: Entries, starts: set<BlockId>, edge: set<BlockId>, queue: seq<BlockId>)
    requires NoDup(queue) && (forall x :: x in queue <==> x in starts)
    ensures Searching(entries, starts, edge, queue, {})
  {
  }
}
