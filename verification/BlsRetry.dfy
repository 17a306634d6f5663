/** Dropping the reported signatures and trying again
    (the loop of monad-consensus/src/vote_state.rs:139-191). */
module BlsRetry {
  import opened BlsCollection
  import opened BlsTree
  import opened Collections

  // ----- Sums over the signatures that are kept -----

  function Kept<T>(list: seq<T>, kept: seq<bool>): seq<T>
    requires |kept| == |list|
  {
    if list == [] then []
    else
      var n := |list| - 1;
      Kept(list[..n], kept[..n]) + if kept[n] then [list[n]] else []
  }

  lemma {:induction false} KeptMembers<T>(list: seq<T>, kept: seq<bool>, x: T)
    requires |kept| == |list|
    ensures x in Kept(list, kept) <==> exists p :: 0 <= p < |list| && kept[p] && list[p] == x
    decreases |list|
  {
    if list != [] {
      var n := |list| - 1;
      KeptMembers(list[..n], kept[..n], x);
      if p :| 0 <= p < n && kept[p] && list[p] == x {
        assert kept[..n][p] && list[..n][p] == x;
      }
    }
  }

  lemma {:induction false} KeptNoDup<T>(list: seq<T>, kept: seq<bool>)
    requires |kept| == |list| && NoDup(list)
    ensures NoDup(Kept(list, kept))
    decreases |list|
  {
    if list != [] {
      var n := |list| - 1;
      KeptNoDup(list[..n], kept[..n]);
      KeptMembers(list[..n], kept[..n], list[n]);
    }
  }

  lemma {:induction false} SumOfKept<G>(g: Group<G>, f: Signed<G> -> G, list: seq<Signed<G>>, kept: seq<bool>, vals: seq<G>)
    requires |kept| == |list| == |vals| && forall p :: 0 <= p < |list| ==> vals[p] == f(list[p])
    ensures SumBits(g, kept, vals) == SumOver(g, f, Kept(list, kept))
    decreases |list|
  {
    if list != [] {
      var n := |list| - 1;
      SumOfKept(g, f, list[..n], kept[..n], vals[..n]);
      if kept[n] {
        assert Kept(list, kept)[..|Kept(list, kept)| - 1] == Kept(list[..n], kept[..n]);
      } else {
        assert Kept(list, kept) == Kept(list[..n], kept[..n]);
      }
    }
  }

  /** `rest` holds what is left of `sigs` once the reported signatures are dropped. */
  ghost predicate IsRest<G(!new)>(sigs: seq<Signed<G>>, invalid: seq<Signed<G>>, rest: seq<Signed<G>>) {
    forall s :: s in rest <==> s in sigs && s !in invalid
  }

  /** Listings of the rest permute the kept part of a listing of the whole. */
  lemma RestIsKept<G(!new)>(g: Group<G>, c: Committee<G>, sigs: seq<Signed<G>>, invalid: seq<Signed<G>>, rest: seq<Signed<G>>,
                            list: seq<Signed<G>>, kept: seq<bool>, l: seq<Signed<G>>)
    requires RestMatches(g, c, sigs, invalid, list, kept) && IsRest(sigs, invalid, rest) && IsDistinctListing(c, rest, l)
    ensures multiset(Kept(list, kept)) == multiset(l)
  {
    assert NoDup(list) && NoDup(l);
    KeptNoDup(list, kept);
    forall s
      ensures s in Kept(list, kept) <==> s in l
    {
      KeptMembers(list, kept, s);
      if s in l {
        assert s in list;
        var p :| 0 <= p < |list| && list[p] == s;
        assert kept[p];
      }
    }
    SameElements(Kept(list, kept), l);
  }

  /** The aggregate of the rest is what its signers should have signed. */
  lemma RestAggregateMatches<G(!new)>(g: Group<G>, c: Committee<G>, sigs: seq<Signed<G>>, invalid: seq<Signed<G>>,
                                      rest: seq<Signed<G>>, l: seq<Signed<G>>, node: TreeNode<G>)
    requires Commutative(g) && c.Valid() && FaultyReport(g, c, sigs, invalid) && IsRest(sigs, invalid, rest)
    requires AggregateOf(g, c, rest, l, node)
    ensures |node.signers| == |c.keys| && node.sig == SumBits(g, node.signers, c.keys)
  {
    var list, kept :| RestMatches(g, c, sigs, invalid, list, kept);
    RestIsKept(g, c, sigs, invalid, rest, list, kept, l);
    var given := (s: Signed<G>) => s.sig;
    var expected := (s: Signed<G>) => if s.who in c.ids && |c.ids| == |c.keys| then c.keys[c.IndexOf(s.who)] else g.zero;
    SumOfKept(g, given, list, kept, Given(list));
    SumOfKept(g, expected, list, kept, Expected(c, list));
    SumOverPermuted(g, given, Kept(list, kept), l);
    SumOverPermuted(g, expected, Kept(list, kept), l);
    SumBitsIsSumOver(g, given, l, Given(l));
    SumBitsIsSumOver(g, expected, l, Expected(c, l));
  }

  /** After one report the rest verifies iff its aggregate key is not infinity. */
  lemma RestVerifiesIff<G(!new)>(g: Group<G>, c: Committee<G>, sigs: seq<Signed<G>>, invalid: seq<Signed<G>>,
                                 rest: seq<Signed<G>>, l: seq<Signed<G>>, node: TreeNode<G>)
    requires Commutative(g) && c.Valid() && FaultyReport(g, c, sigs, invalid) && IsRest(sigs, invalid, rest) && rest != []
    requires AggregateOf(g, c, rest, l, node)
    ensures |node.signers| == |c.keys|
    ensures Verifies(g, c, node) <==> SumBits(g, node.signers, c.keys) != g.zero
  {
    RestAggregateMatches(g, c, sigs, invalid, rest, l, node);
    assert rest[0] in sigs && rest[0] !in invalid;
    assert rest[0] in l && rest[0].who in c.ids;
  }

  /** The search over the rest reports nobody, unless that key is infinity. */
  lemma RetryReportsNobody<G(!new)>(g: Group<G>, c: Committee<G>, sigs: seq<Signed<G>>, invalid: seq<Signed<G>>,
                                    rest: seq<Signed<G>>, l: seq<Signed<G>>, nodes: seq<TreeNode<G>>)
    requires Commutative(g) && c.Valid() && FaultyReport(g, c, sigs, invalid) && IsRest(sigs, invalid, rest) && rest != []
    requires IsDistinctListing(c, rest, l) && IsHeap(g, c, l, nodes)
    ensures |nodes[0].signers| == |c.keys|
    ensures Verifies(g, c, nodes[0]) <==> SumBits(g, nodes[0].signers, c.keys) != g.zero
    ensures SumBits(g, nodes[0].signers, c.keys) != g.zero ==> NobodyBlamed(g, c, nodes, |l|)
  {
    RootAggregatesAll(g, c, l, nodes);
    RestVerifiesIff(g, c, sigs, invalid, rest, l, nodes[0]);
    if Verifies(g, c, nodes[0]) {
      VerifiedRootBlamesNobody(g, c, nodes, |l|);
    }
  }

  // ----- The loop -----

  /** The aggregate key of a set of members. */
  function KeyOf<G>(g: Group<G>, c: Committee<G>, who: set<NodeId>): G
    requires c.Valid()
  {
    SumBits(g, seq(|c.ids|, i requires 0 <= i < |c.ids| => c.ids[i] in who), c.keys)
  }

  lemma KeyOfAggregate<G(!new)>(g: Group<G>, c: Committee<G>, votes: map<NodeId, G>, list: seq<Signed<G>>, node: TreeNode<G>)
    requires c.Valid() && AggregateOf(g, c, list, list, node) && Lists(votes, list)
    ensures |node.signers| == |c.keys| && SumBits(g, node.signers, c.keys) == KeyOf(g, c, votes.Keys)
  {
    var bits := seq(|c.ids|, i requires 0 <= i < |c.ids| => c.ids[i] in votes.Keys);
    forall j | 0 <= j < |c.ids|
      ensures node.signers[j] == bits[j]
    {
      if node.signers[j] {
        assert SelectedAt(c, list, AllSet(|list|), j);
        var p :| 0 <= p < |list| && c.IndexOf(list[p].who) == j;
        assert list[p] in list;
      }
      if c.ids[j] in votes {
        var s := Signed(c.ids[j], votes[c.ids[j]]);
        assert s in list;
        var p :| 0 <= p < |list| && list[p] == s;
        assert c.IndexOf(s.who) == j;
      }
    }
    assert node.signers == bits;
  }

  ghost predicate Lists<G(!new)>(votes: map<NodeId, G>, list: seq<Signed<G>>) {
    forall s :: s in list <==> s.who in votes && votes[s.who] == s.sig
  }

  predicate Members<G>(c: Committee<G>, votes: map<NodeId, G>) {
    forall who :: who in votes ==> who in c.ids
  }

  /** No non-empty set of members has an aggregate key at infinity. */
  ghost predicate NoCancellingKeys<G(!new)>(g: Group<G>, c: Committee<G>)
    requires c.Valid()
  {
    forall who: set<NodeId> :: who != {} && (forall x :: x in who ==> x in c.ids) ==> KeyOf(g, c, who) != g.zero
  }

  /** Whatever aggregates the votes matches what their signers should have signed. */
  ghost predicate Matching<G(!new)>(g: Group<G>, c: Committee<G>, votes: map<NodeId, G>)
    requires c.Valid()
  {
    forall sigs, l, node :: Lists(votes, sigs) && sigs != [] && AggregateOf(g, c, sigs, l, node) ==>
      |node.signers| == |c.keys| && (Verifies(g, c, node) <==> SumBits(g, node.signers, c.keys) != g.zero)
  }

  /** `left` is `votes` without some voters, each of whom sent a signature that fails by itself. */
  ghost predicate OnlyBadDropped<G(!new)>(g: Group<G>, c: Committee<G>, votes: map<NodeId, G>, left: map<NodeId, G>)
    requires c.Valid() && Members(c, votes)
  {
    && (forall who :: who in left ==> who in votes && left[who] == votes[who])
    && (forall who :: who in votes && who !in left ==> !Verifies(g, c, LeafNode(g, c, Signed(who, votes[who]))))
  }

  function Without<G>(votes: map<NodeId, G>, invalid: seq<Signed<G>>): map<NodeId, G> {
    map who | who in votes && (forall i :: 0 <= i < |invalid| ==> invalid[i].who != who) :: votes[who]
  }

  lemma DroppedWereBad<G(!new)>(g: Group<G>, c: Committee<G>, votes: map<NodeId, G>, left: map<NodeId, G>,
                                sigs: seq<Signed<G>>, invalid: seq<Signed<G>>)
    requires c.Valid() && Members(c, votes) && OnlyBadDropped(g, c, votes, left)
    requires Lists(left, sigs) && FaultyReport(g, c, sigs, invalid)
    ensures OnlyBadDropped(g, c, votes, Without(left, invalid))
    ensures Without(left, invalid).Keys < left.Keys
  {
    forall who | who in left && who !in Without(left, invalid)
      ensures !Verifies(g, c, LeafNode(g, c, Signed(who, votes[who])))
    {
      var i :| 0 <= i < |invalid| && invalid[i].who == who;
      assert invalid[i] in invalid && invalid[i] == Signed(who, votes[who]);
    }
    assert invalid[0] in sigs && invalid[0].who in left && invalid[0].who !in Without(left, invalid);
  }

  lemma WithoutIsRest<G(!new)>(left: map<NodeId, G>, sigs: seq<Signed<G>>, invalid: seq<Signed<G>>, rest: seq<Signed<G>>)
    requires Lists(left, sigs) && (forall s :: s in invalid ==> s in sigs) && Lists(Without(left, invalid), rest)
    ensures IsRest(sigs, invalid, rest)
  {
  }

  lemma RestIsMatching<G(!new)>(g: Group<G>, c: Committee<G>, left: map<NodeId, G>, sigs: seq<Signed<G>>, invalid: seq<Signed<G>>)
    requires Commutative(g) && c.Valid() && Lists(left, sigs) && FaultyReport(g, c, sigs, invalid)
    ensures Matching(g, c, Without(left, invalid))
  {
    forall rest, l, node | Lists(Without(left, invalid), rest) && rest != [] && AggregateOf(g, c, rest, l, node)
      ensures |node.signers| == |c.keys| && (Verifies(g, c, node) <==> SumBits(g, node.signers, c.keys) != g.zero)
    {
      WithoutIsRest(left, sigs, invalid, rest);
      RestVerifiesIff(g, c, sigs, invalid, rest, l, node);
    }
  }

  lemma MatchingFailsAtInfinity<G(!new)>(g: Group<G>, c: Committee<G>, left: map<NodeId, G>, sigs: seq<Signed<G>>)
    requires c.Valid() && Lists(left, sigs) && sigs != [] && Matching(g, c, left) && WholeFails(g, c, sigs)
    ensures KeyOf(g, c, left.Keys) == g.zero
  {
    var l, node :| AggregateOf(g, c, sigs, l, node);
    KeyOfAggregate(g, c, left, l, node);
  }

  /** Tries until the collection is accepted or too few voters are left.  Honest voters are never
      dropped, and one retry is enough when no keys cancel. */
  method CollectVotes<G(!new, ==)>(g: Group<G>, c: Committee<G>, votes: map<NodeId, G>, enough: set<NodeId> -> bool)
    returns (r: Option<TreeNode<G>>, left: map<NodeId, G>, calls: nat)
    requires Commutative(g) && c.Valid() && Members(c, votes) && !enough({})
    ensures OnlyBadDropped(g, c, votes, left)
    ensures r.Some? <==> enough(left.Keys)
    ensures r.Some? ==> exists sigs, l :: Lists(left, sigs) && AggregateOf(g, c, sigs, l, r.value)
    ensures r.Some? ==> (Verifies(g, c, r.value) <==> KeyOf(g, c, left.Keys) != g.zero)
    ensures NoCancellingKeys(g, c) ==> calls <= 2 && (r.Some? ==> Verifies(g, c, r.value))
  {
    left, calls := votes, 0;
    while enough(left.Keys)
      invariant OnlyBadDropped(g, c, votes, left)
      invariant calls > 0 ==> Matching(g, c, left)
      invariant NoCancellingKeys(g, c) ==> calls <= 1
      decreases left.Keys
    {
      var sigs := Entries(left);
      VotesAreProper(c, left, sigs);
      var result := NewCollection(g, c, sigs);
      if result.Collection? {
        AcceptedKey(g, c, left, sigs, result.node);
        return Some(result.node), left, calls + 1;
      }
      if calls > 0 {
        MatchingFailsAtInfinity(g, c, left, sigs);
      }
      DroppedWereBad(g, c, votes, left, sigs, result.invalid);
      RestIsMatching(g, c, left, sigs, result.invalid);
      left, calls := Without(left, result.invalid), calls + 1;
    }
    r := None;
  }

  /** Votes of members, one each: neither conflict nor stranger, and somebody voted. */
  lemma VotesAreProper<G(!new)>(c: Committee<G>, left: map<NodeId, G>, sigs: seq<Signed<G>>)
    requires Lists(left, sigs) && Members(c, left)
    ensures !(exists who, x, y :: Conflict(sigs, who, x, y)) && NonMembers(c, sigs) == []
    ensures sigs == [] <==> left.Keys == {}
  {
    NoNonMembers(c, sigs);
    if who :| who in left {
      assert Signed(who, left[who]) in sigs;
    }
    if sigs != [] {
      assert sigs[0] in sigs && sigs[0].who in left;
    }
  }

  lemma AcceptedKey<G(!new)>(g: Group<G>, c: Committee<G>, left: map<NodeId, G>, sigs: seq<Signed<G>>, node: TreeNode<G>)
    requires c.Valid() && Lists(left, sigs) && (exists list :: IsDistinctListing(c, sigs, list))
    requires forall list :: IsDistinctListing(c, sigs, list) ==> Aggregates(g, c, list, AllSet(|list|), node)
    ensures |node.signers| == |c.keys| && SumBits(g, node.signers, c.keys) == KeyOf(g, c, left.Keys)
    ensures exists l :: AggregateOf(g, c, sigs, l, node)
  {
    var l :| IsDistinctListing(c, sigs, l);
    assert AggregateOf(g, c, sigs, l, node);
    KeyOfAggregate(g, c, left, l, node);
  }
}
