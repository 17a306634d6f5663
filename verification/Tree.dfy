/** The storage of the block tree: entries by block id, and an index of block bodies
    shared by the blocks that name them (monad-blocktree/src/tree.rs). */
module TreeStore {
  import opened Collections
  import opened ConsensusTypes
  import opened BlockForest

  /** A body and the blocks in the tree that point to it. */
  datatype BodyIndex = BodyIndex(body: Body, activeBlocks: set<BlockId>)

  type Payloads = map<BodyId, BodyIndex>

  /** A body is indexed iff some block names it, under exactly the blocks that name it. */
  ghost predicate PayloadsIndexed(entries: Entries, payloads: Payloads) {
    && (forall id :: id in entries ==> IsActive(payloads, entries[id].block.GetBodyId(), id))
    && (forall p, id :: IsActive(payloads, p, id) ==> id in entries && entries[id].block.GetBodyId() == p)
    && (forall p :: p in payloads ==> payloads[p].activeBlocks != {} && payloads[p].body.GetId() == p)
  }

  predicate IsActive(payloads: Payloads, p: BodyId, id: BlockId) {
    p in payloads && id in payloads[p].activeBlocks
  }

  /** The index holds a body iff some entry names it: nothing leaks, nothing is lost. */
  lemma PayloadIffNamed(entries: Entries, payloads: Payloads, p: BodyId)
    requires PayloadsIndexed(entries, payloads)
    ensures p in payloads <==> exists id :: id in entries && entries[id].block.GetBodyId() == p
  {
    if p in payloads {
      var id :| id in payloads[p].activeBlocks;
      assert IsActive(payloads, p, id);
    }
    if id :| id in entries && entries[id].block.GetBodyId() == p {
      assert IsActive(payloads, p, id);
    }
  }

  /** The index is determined by the entries. */
  lemma PayloadsDetermined(entries: Entries, p1: Payloads, p2: Payloads)
    requires PayloadsIndexed(entries, p1) && PayloadsIndexed(entries, p2)
    ensures p1 == p2
  {
    forall p ensures p in p1 <==> p in p2 {
      PayloadIffNamed(entries, p1, p);
      PayloadIffNamed(entries, p2, p);
    }
    forall p | p in p1 ensures p1[p] == p2[p] {
      forall id ensures id in p1[p].activeBlocks <==> id in p2[p].activeBlocks {
        assert IsActive(p1, p, id) <==> IsActive(p2, p, id);
      }
    }
  }

  class Tree {
    var entries: Entries
    var payloads: Payloads

    ghost predicate Valid()
      reads this
    {
      KeysMatch(entries) && PayloadsIndexed(entries, payloads)
    }

    constructor ()
      ensures Valid() && entries == map[] && payloads == map[]
    {
      entries := map[];
      payloads := map[];
    }

    method SetCoherent(id: BlockId, coherent: bool) returns (ok: bool)
      requires Valid()
      modifies this`entries
      ensures Valid()
      ensures ok <==> id in old(entries)
      ensures entries == if ok then old(entries)[id := old(entries)[id].(coherent := coherent)] else old(entries)
    {
      ok := id in entries;
      if ok {
        entries := entries[id := entries[id].(coherent := coherent)];
        assert forall k :: k in entries ==> entries[k].block == old(entries)[k].block;
      }
    }

    /** Child lists of other entries are left alone.  The three checks of the source (the
        body is indexed, the block is active, the emptied index exists) always succeed. */
    method Remove(id: BlockId) returns (removed: Option<Entry>)
      requires Valid()
      modifies this
      ensures Valid()
      ensures entries == old(entries) - {id}
      ensures removed == if id in old(entries) then Some(old(entries)[id]) else None
    {
      if id !in entries {
        assert entries - {id} == entries;
        return None;
      }
      removed := Some(entries[id]);
      var bodyId := entries[id].block.GetBodyId();
      assert IsActive(payloads, bodyId, id);
      entries := entries - {id};
      var index := payloads[bodyId];
      var active := index.activeBlocks - {id};
      if active == {} {
        payloads := payloads - {bodyId};
      } else {
        payloads := payloads[bodyId := index.(activeBlocks := active)];
      }
      PayloadsAfterRemove(old(entries), old(payloads), id, payloads);
    }

    /** The blocks already in the tree that name `id` as parent, in some order. */
    method ChildrenOf(id: BlockId) returns (children: seq<BlockId>)
      requires KeysMatch(entries)
      ensures IsChildList(entries, id, children)
    {
      children := [];
      var rest := entries.Keys;
      while rest != {}
        invariant rest <= entries.Keys
        invariant NoDup(children)
        invariant forall c :: c in children <==> c in entries && c !in rest && ParentOf(c) == id
      {
        var k :| k in rest;
        if entries[k].block.GetParentId() == id {
          assert forall c :: c in children + [k] <==> c in children || c == k;
          children := children + [k];
        }
        rest := rest - {k};
      }
    }

    /** The new entry is incoherent and its child list holds the blocks already waiting
        for it; the parent, if present, gains a child. */
    method Insert(block: FullBlock)
      requires Valid() && GoodBlock(block) && block.GetId() !in entries
      modifies this
      ensures Valid()
      ensures entries.Keys == old(entries).Keys + {block.GetId()}
      ensures entries[block.GetId()].block == block && !entries[block.GetId()].coherent
      ensures IsChildList(old(entries), block.GetId(), entries[block.GetId()].children)
      ensures forall k :: k in old(entries) ==> entries[k] == WithChild(old(entries)[k], k, block)
    {
      var id := block.GetId();
      var children := ChildrenOf(id);
      entries := entries[id := Entry(block, false, children)];
      var parent := block.GetParentId();
      if parent in entries {
        entries := entries[parent := entries[parent].(children := entries[parent].children + [id])];
      }
      EntriesAfterInsert(old(entries), block, children, entries);
      var bodyId := block.GetBodyId();
      var index := if bodyId in payloads then payloads[bodyId] else BodyIndex(block.body, {});
      payloads := payloads[bodyId := index.(activeBlocks := index.activeBlocks + {id})];
      PayloadsAfterInsert(old(entries), old(payloads), block, entries, payloads);
    }

    /** A body is retrievable iff some block of the tree names it, and it is that block's body. */
    method GetPayload(id: BodyId) returns (body: Option<Body>)
      requires Valid()
      ensures body.Some? <==> exists b :: b in entries && entries[b].block.GetBodyId() == id
      ensures body.Some? ==> body.value.GetId() == id
    {
      PayloadIffNamed(entries, payloads, id);
      body := if id in payloads then Some(payloads[id].body) else None;
    }
  }

  lemma PayloadsAfterRemove(entries: Entries, payloads: Payloads, id: BlockId, payloads': Payloads)
    requires PayloadsIndexed(entries, payloads) && id in entries
    requires var p := entries[id].block.GetBodyId();
             p in payloads
             && var active := payloads[p].activeBlocks - {id};
                payloads' == if active == {} then payloads - {p} else payloads[p := payloads[p].(activeBlocks := active)]
    ensures PayloadsIndexed(entries - {id}, payloads')
  {
    var bodyId := entries[id].block.GetBodyId();
    forall p, k
      ensures IsActive(payloads', p, k) <==> IsActive(payloads, p, k) && k != id
    {
      if IsActive(payloads, p, k) {
        assert entries[k].block.GetBodyId() == p;
        if p == bodyId && k != id {
          assert k in payloads[p].activeBlocks - {id};
        }
      }
    }
  }

  lemma EntriesAfterInsert(before: Entries, block: FullBlock, children: seq<BlockId>, after: Entries)
    requires KeysMatch(before) && GoodBlock(block) && block.GetId() !in before
    requires var withBlock := before[block.GetId() := Entry(block, false, children)];
             var parent := block.GetParentId();
             after == if parent in withBlock
                      then withBlock[parent := withBlock[parent].(children := withBlock[parent].children + [block.GetId()])]
                      else withBlock
    ensures after.Keys == before.Keys + {block.GetId()}
    ensures after[block.GetId()] == Entry(block, false, children)
    ensures forall k :: k in before ==> after[k] == WithChild(before[k], k, block)
    ensures KeysMatch(after)
  {
    assert block.GetParentId() != block.GetId();
  }

  lemma PayloadsAfterInsert(entries: Entries, payloads: Payloads, block: FullBlock,
                            entries': Entries, payloads': Payloads)
    requires PayloadsIndexed(entries, payloads) && block.BodyMatches() && block.GetId() !in entries
    requires entries'.Keys == entries.Keys + {block.GetId()} && entries'[block.GetId()].block == block
    requires forall k :: k in entries ==> entries'[k].block == entries[k].block
    requires var p := block.GetBodyId();
             var index := if p in payloads then payloads[p] else BodyIndex(block.body, {});
             payloads' == payloads[p := index.(activeBlocks := index.activeBlocks + {block.GetId()})]
    ensures PayloadsIndexed(entries', payloads')
  {
    forall p, k
      ensures IsActive(payloads', p, k) <==>
              IsActive(payloads, p, k) || (p == block.GetBodyId() && k == block.GetId())
    {
    }
  }
}
