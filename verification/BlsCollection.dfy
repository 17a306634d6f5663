/** Searching the aggregation tree for bad signatures and building a signature collection
    (monad-bls/src/aggregation_tree.rs:161-203, 339-376). */
module BlsCollection {
  import opened BlsTree
  import opened Collections

  // ----- AggregationTree::verify -----

  /** `first_one`. */
  function FirstOne(bits: seq<bool>): (k: nat)
    requires exists i :: 0 <= i < |bits| && bits[i]
    ensures k < |bits| && bits[k]
  {
    if bits[0] then 0
    else
      assert exists i :: 0 <= i < |bits[1..]| && bits[1..][i] by {
        var i :| 0 <= i < |bits| && bits[i];
        assert bits[1..][i - 1];
      }
      1 + FirstOne(bits[1..])
  }

  /** A failing leaf is reported as exactly the pair it was built from. */
  lemma LeafNamesItsSigner<G(!new)>(g: Group<G>, c: Committee<G>, s: Signed<G>)
    requires Commutative(g) && c.Valid() && s.who in c.ids
    ensures var node := LeafNode(g, c, s);
            && (exists i :: 0 <= i < |node.signers| && node.signers[i])
            && Signed(c.ids[FirstOne(node.signers)], node.sig) == s
  {
    var node, k := LeafNode(g, c, s), c.IndexOf(s.who);
    assert node.signers[k];
    assert OneHot(node.signers, k);
    assert UnitAt(g, s.sig);
  }

  lemma LeafReport<G(!new)>(g: Group<G>, c: Committee<G>, s: Signed<G>, cert: TreeNode<G>)
    requires Commutative(g) && c.Valid() && s.who in c.ids && cert == LeafNode(g, c, s)
    ensures |cert.signers| == |c.ids| && exists i :: 0 <= i < |cert.signers| && cert.signers[i]
    ensures Signed(c.ids[FirstOne(cert.signers)], cert.sig) == s
  {
    LeafNamesItsSigner(g, c, s);
  }

  /** `after` is `before` without the subtree of `i`. */
  ghost predicate WithoutSubtree(before: set<nat>, after: set<nat>, i: nat, size: nat) {
    forall k :: 0 <= k < size ==> (k in after <==> k in before && !Under(i, k))
  }

  lemma StillBlamed<G(!new)>(g: Group<G>, c: Committee<G>, sigs: seq<Signed<G>>, nodes: seq<TreeNode<G>>,
                             before: set<nat>, after: set<nat>, i: nat, s: Signed<G>)
    requires c.Valid() && |sigs| > 0 && |nodes| == 2 * |sigs| - 1 && WithoutSubtree(before, after, i, |nodes|)
    requires BlamedSig(g, c, sigs, nodes, before, s)
    ensures BlamedSig(g, c, sigs, nodes, after, s)
  {
    var n := |sigs|;
    var p :| 0 <= p < n && sigs[p] == s && n - 1 + p !in before && Blamed(g, c, nodes, n, p);
    assert n - 1 + p !in after;
  }

  lemma SettleVerified<G(!new)>(g: Group<G>, c: Committee<G>, sigs: seq<Signed<G>>, nodes: seq<TreeNode<G>>,
                                before: set<nat>, after: set<nat>, i: nat, list: seq<Signed<G>>)
    requires ByDistinctMembers(c, sigs) && |sigs| > 0 && |nodes| == 2 * |sigs| - 1
    requires i < |nodes| && Verifies(g, c, nodes[i]) && WithoutSubtree(before, after, i, |nodes|)
    requires ListsBlamed(g, c, sigs, nodes, before, list)
    ensures ListsBlamed(g, c, sigs, nodes, after, list)
  {
    var n := |sigs|;
    forall a | 0 <= a < |list|
      ensures BlamedSig(g, c, sigs, nodes, after, list[a])
    {
      StillBlamed(g, c, sigs, nodes, before, after, i, list[a]);
    }
    forall p | 0 <= p < n && n - 1 + p !in after
      ensures Blamed(g, c, nodes, n, p) <==> sigs[p] in list
    {
      if n - 1 + p in before {
        assert Under(i, n - 1 + p);
        assert !Blamed(g, c, nodes, n, p);
        NotYetListed(g, c, sigs, nodes, before, list, p);
      }
    }
  }

  /** A leaf still pending is not on the list: signers are distinct. */
  lemma NotYetListed<G(!new)>(g: Group<G>, c: Committee<G>, sigs: seq<Signed<G>>, nodes: seq<TreeNode<G>>,
                              pending: set<nat>, list: seq<Signed<G>>, p: nat)
    requires ByDistinctMembers(c, sigs) && |sigs| > 0 && |nodes| == 2 * |sigs| - 1
    requires ListsBlamed(g, c, sigs, nodes, pending, list) && p < |sigs| && |sigs| - 1 + p in pending
    ensures sigs[p] !in list
  {
    if a :| 0 <= a < |list| && list[a] == sigs[p] {
      assert BlamedSig(g, c, sigs, nodes, pending, list[a]);
      var q :| 0 <= q < |sigs| && sigs[q] == list[a] && |sigs| - 1 + q !in pending;
      assert q == p;
    }
  }

  lemma SettleLeaf<G(!new)>(g: Group<G>, c: Committee<G>, sigs: seq<Signed<G>>, nodes: seq<TreeNode<G>>,
                            before: set<nat>, after: set<nat>, leaf: nat, list: seq<Signed<G>>)
    requires ByDistinctMembers(c, sigs) && |nodes| == 2 * |sigs| - 1 && leaf < |sigs|
    requires Blamed(g, c, nodes, |sigs|, leaf) && |sigs| - 1 + leaf in before
    requires WithoutSubtree(before, after, |sigs| - 1 + leaf, |nodes|)
    requires ListsBlamed(g, c, sigs, nodes, before, list)
    ensures ListsBlamed(g, c, sigs, nodes, after, list + [sigs[leaf]])
  {
    var n := |sigs|;
    var list' := list + [sigs[leaf]];
    LeafAlone(n, leaf);
    NotYetListed(g, c, sigs, nodes, before, list, leaf);
    forall a | 0 <= a < |list'|
      ensures BlamedSig(g, c, sigs, nodes, after, list'[a])
    {
      if a < |list| {
        StillBlamed(g, c, sigs, nodes, before, after, n - 1 + leaf, list[a]);
      } else {
        assert Under(n - 1 + leaf, n - 1 + leaf);
      }
    }
    forall p | 0 <= p < n && n - 1 + p !in after
      ensures Blamed(g, c, nodes, n, p) <==> sigs[p] in list'
    {
      if p != leaf {
        assert !LeavesUnder(n, n - 1 + leaf)[p];
        assert sigs[p].who != sigs[leaf].who;
      }
    }
  }

  lemma FailingLeafIsBlamed<G>(g: Group<G>, c: Committee<G>, nodes: seq<TreeNode<G>>, n: nat, p: nat)
    requires c.Valid() && p < n && |nodes| == 2 * n - 1
    requires AllAboveFail(g, c, nodes, n - 1 + p) && !Verifies(g, c, nodes[n - 1 + p])
    ensures Blamed(g, c, nodes, n, p)
  {
  }

  lemma SettleInner<G(!new)>(g: Group<G>, c: Committee<G>, sigs: seq<Signed<G>>, nodes: seq<TreeNode<G>>,
                             pending: set<nat>, inner: nat, list: seq<Signed<G>>)
    requires c.Valid() && |nodes| == 2 * |sigs| - 1 && inner < |sigs| - 1
    requires ListsBlamed(g, c, sigs, nodes, pending, list)
    ensures ListsBlamed(g, c, sigs, nodes, pending - {inner}, list)
  {
    forall a | 0 <= a < |list|
      ensures BlamedSig(g, c, sigs, nodes, pending - {inner}, list[a])
    {
      assert BlamedSig(g, c, sigs, nodes, pending, list[a]);
    }
  }

  /** Between two visits of the search. */
  ghost predicate Examining<G(!new)>(g: Group<G>, c: Committee<G>, sigs: seq<Signed<G>>, nodes: seq<TreeNode<G>>,
                                     queue: seq<nat>, list: seq<Signed<G>>)
    requires ByDistinctMembers(c, sigs) && |nodes| == 2 * |sigs| - 1
  {
    QueueOk(g, c, nodes, queue) && ListsBlamed(g, c, sigs, nodes, Pending(queue, |nodes|), list)
  }

  lemma VisitVerified<G(!new)>(g: Group<G>, c: Committee<G>, sigs: seq<Signed<G>>, nodes: seq<TreeNode<G>>,
                               queue: seq<nat>, list: seq<Signed<G>>)
    requires ByDistinctMembers(c, sigs) && |sigs| > 0 && |nodes| == 2 * |sigs| - 1
    requires |queue| > 0 && Examining(g, c, sigs, nodes, queue, list) && Verifies(g, c, nodes[queue[0]])
    ensures Examining(g, c, sigs, nodes, queue[1..], list)
    ensures Pending(queue[1..], |nodes|) < Pending(queue, |nodes|)
  {
    DropFront(g, c, nodes, queue);
    SettleVerified(g, c, sigs, nodes, Pending(queue, |nodes|), Pending(queue[1..], |nodes|), queue[0], list);
  }

  lemma VisitLeaf<G(!new)>(g: Group<G>, c: Committee<G>, sigs: seq<Signed<G>>, nodes: seq<TreeNode<G>>,
                           queue: seq<nat>, list: seq<Signed<G>>, p: nat)
    requires ByDistinctMembers(c, sigs) && p < |sigs| && |nodes| == 2 * |sigs| - 1
    requires |queue| > 0 && Examining(g, c, sigs, nodes, queue, list) && !Verifies(g, c, nodes[queue[0]])
    requires queue[0] == |sigs| - 1 + p
    ensures Examining(g, c, sigs, nodes, queue[1..], list + [sigs[p]])
    ensures Pending(queue[1..], |nodes|) < Pending(queue, |nodes|)
  {
    DropFront(g, c, nodes, queue);
    FailingLeafIsBlamed(g, c, nodes, |sigs|, p);
    SettleLeaf(g, c, sigs, nodes, Pending(queue, |nodes|), Pending(queue[1..], |nodes|), p, list);
  }

  lemma VisitInner<G(!new)>(g: Group<G>, c: Committee<G>, sigs: seq<Signed<G>>, nodes: seq<TreeNode<G>>,
                            queue: seq<nat>, list: seq<Signed<G>>)
    requires ByDistinctMembers(c, sigs) && |nodes| == 2 * |sigs| - 1
    requires |queue| > 0 && Examining(g, c, sigs, nodes, queue, list) && queue[0] < |sigs| - 1
    requires !Verifies(g, c, nodes[queue[0]])
    ensures var queue' := queue[1..] + [2 * queue[0] + 1, 2 * queue[0] + 2];
            && Examining(g, c, sigs, nodes, queue', list)
            && Pending(queue', |nodes|) < Pending(queue, |nodes|)
  {
    DropFront(g, c, nodes, queue);
    ExpandFront(g, c, nodes, queue);
    SettleInner(g, c, sigs, nodes, Pending(queue, |nodes|), queue[0], list);
  }

  lemma StartExamining<G(!new)>(g: Group<G>, c: Committee<G>, sigs: seq<Signed<G>>, nodes: seq<TreeNode<G>>)
    requires ByDistinctMembers(c, sigs) && |sigs| > 0 && |nodes| == 2 * |sigs| - 1
    ensures Examining(g, c, sigs, nodes, [0], [])
  {
    StartPending(|nodes|);
  }

  lemma EndExamining<G(!new)>(g: Group<G>, c: Committee<G>, sigs: seq<Signed<G>>, nodes: seq<TreeNode<G>>,
                              list: seq<Signed<G>>)
    requires ByDistinctMembers(c, sigs) && |nodes| == 2 * |sigs| - 1 && Examining(g, c, sigs, nodes, [], list)
    ensures ListsBlamed(g, c, sigs, nodes, {}, list)
    ensures list == [] <==> NobodyBlamed(g, c, nodes, |sigs|)
  {
    assert Pending([], |nodes|) == {};
    if list != [] {
      assert BlamedSig(g, c, sigs, nodes, {}, list[0]);
    }
  }

  /** The tree built from the signatures: one empty node if there are none. */
  ghost predicate TreeOf<G(!new)>(g: Group<G>, c: Committee<G>, sigs: seq<Signed<G>>, nodes: seq<TreeNode<G>>)
    requires ByDistinctMembers(c, sigs)
  {
    if sigs == [] then nodes == [EmptyNode(g, |c.ids|)] else LeavesInPlace(g, c, sigs, nodes)
  }

  ghost predicate Exploring<G(!new)>(g: Group<G>, c: Committee<G>, sigs: seq<Signed<G>>, nodes: seq<TreeNode<G>>,
                                     queue: seq<nat>, list: seq<Signed<G>>)
    requires ByDistinctMembers(c, sigs) && TreeOf(g, c, sigs, nodes)
  {
    if sigs == [] then list == [] && (queue == [0] || (queue == [] && c.ids == []))
    else Examining(g, c, sigs, nodes, queue, list)
  }

  lemma EmptyNodeVerifiesIff<G(!new)>(g: Group<G>, c: Committee<G>)
    requires c.Valid()
    ensures Verifies(g, c, EmptyNode(g, |c.ids|)) <==> c.ids == []
  {
    SumOfNone(g, EmptyNode(g, |c.ids|).signers, c.keys);
  }

  lemma ExploreVerified<G(!new)>(g: Group<G>, c: Committee<G>, sigs: seq<Signed<G>>, nodes: seq<TreeNode<G>>,
                                 queue: seq<nat>, list: seq<Signed<G>>)
    requires ByDistinctMembers(c, sigs) && TreeOf(g, c, sigs, nodes) && Exploring(g, c, sigs, nodes, queue, list)
    requires |queue| > 0 && queue[0] < |nodes| && Verifies(g, c, nodes[queue[0]])
    ensures Exploring(g, c, sigs, nodes, queue[1..], list)
    ensures Pending(queue[1..], |nodes|) < Pending(queue, |nodes|)
  {
    if sigs == [] {
      EmptyNodeVerifiesIff(g, c);
      StartPending(1);
      assert queue == [0] && 0 in Pending([0], 1);
    } else {
      VisitVerified(g, c, sigs, nodes, queue, list);
    }
  }

  /** Breadth-first search from the root, descending only below nodes that fail. */
  method VerifyTree<G(!new, ==)>(g: Group<G>, c: Committee<G>, ghost sigs: seq<Signed<G>>, nodes: seq<TreeNode<G>>)
    returns (r: VerifyResult<G>)
    requires Commutative(g) && ByDistinctMembers(c, sigs) && TreeOf(g, c, sigs, nodes)
    ensures r.Panicked? <==> sigs == [] && c.ids != []
    ensures r.Verified? ==> r.node == nodes[0]
    ensures sigs == [] ==> !r.Invalid?
    ensures sigs != [] ==> (r.Verified? <==> NobodyBlamed(g, c, nodes, |sigs|))
    ensures sigs != [] && r.Invalid? ==> ListsBlamed(g, c, sigs, nodes, {}, r.sigs)
  {
    var unverified: seq<nat> := [0];
    var invalid: seq<Signed<G>> := [];
    if sigs != [] {
      StartExamining(g, c, sigs, nodes);
    }
    while unverified != []
      invariant Exploring(g, c, sigs, nodes, unverified, invalid)
      decreases Pending(unverified, |nodes|)
    {
      var i := unverified[0];
      var cert := nodes[i];
      if Verifies(g, c, cert) {
        ExploreVerified(g, c, sigs, nodes, unverified, invalid);
        unverified := unverified[1..];
      } else if 2 * i + 1 >= |nodes| {
        ghost var p := i - (|sigs| - 1);
        if sigs == [] {
          EmptyNodeVerifiesIff(g, c);
        } else {
          assert nodes[|sigs| - 1 + p] == LeafNode(g, c, sigs[p]);
          LeafReport(g, c, sigs[p], cert);
        }
        if forall k :: 0 <= k < |cert.signers| ==> !cert.signers[k] {
          return Panicked;
        }
        var bad := Signed(c.ids[FirstOne(cert.signers)], cert.sig);
        VisitLeaf(g, c, sigs, nodes, unverified, invalid, p);
        invalid := invalid + [bad];
        unverified := unverified[1..];
      } else {
        VisitInner(g, c, sigs, nodes, unverified, invalid);
        unverified := unverified[1..] + [2 * i + 1, 2 * i + 2];
      }
    }
    if sigs != [] {
      EndExamining(g, c, sigs, nodes, invalid);
    }
    r := if invalid == [] then Verified(nodes[0]) else Invalid(invalid);
  }

  lemma StartPending(size: nat)
    ensures forall k :: 0 <= k < size ==> k in Pending([0], size)
  {
    forall k | 0 <= k < size
      ensures InSomeSubtree([0], k)
    {
      UnderRoot(k);
      assert Under([0][0], k);
    }
  }

  // ----- The result does not depend on the order of the signatures -----

  ghost function SumOver<G>(g: Group<G>, f: Signed<G> -> G, sigs: seq<Signed<G>>): G {
    if sigs == [] then g.zero else g.add(SumOver(g, f, sigs[..|sigs| - 1]), f(sigs[|sigs| - 1]))
  }

  function AllSet(n: nat): (bits: seq<bool>)
    ensures |bits| == n && forall i :: 0 <= i < n ==> bits[i]
  {
    seq(n, _ => true)
  }

  lemma {:induction false} SumBitsIsSumOver<G>(g: Group<G>, f: Signed<G> -> G, sigs: seq<Signed<G>>, vals: seq<G>)
    requires |vals| == |sigs| && forall p :: 0 <= p < |sigs| ==> vals[p] == f(sigs[p])
    ensures SumBits(g, AllSet(|sigs|), vals) == SumOver(g, f, sigs)
    decreases |sigs|
  {
    if sigs != [] {
      var n := |sigs| - 1;
      SumBitsIsSumOver(g, f, sigs[..n], vals[..n]);
      assert AllSet(|sigs|)[..n] == AllSet(n);
    }
  }

  lemma {:induction false} SumOverTakeOut<G(!new)>(g: Group<G>, f: Signed<G> -> G, sigs: seq<Signed<G>>, k: nat)
    requires Commutative(g) && k < |sigs|
    ensures SumOver(g, f, sigs) == g.add(SumOver(g, f, sigs[..k] + sigs[k + 1..]), f(sigs[k]))
    decreases |sigs|
  {
    var n := |sigs| - 1;
    if k == n {
      assert sigs[..k] + sigs[k + 1..] == sigs[..n];
    } else {
      var rest := sigs[..k] + sigs[k + 1..];
      SumOverTakeOut(g, f, sigs[..n], k);
      assert sigs[..n][..k] + sigs[..n][k + 1..] == rest[..n - 1];
      assert rest[n - 1] == sigs[n];
      MoveLastIn(g, SumOver(g, f, rest[..n - 1]), f(sigs[k]), f(sigs[n]));
    }
  }

  lemma {:induction false} SumOverPermuted<G(!new)>(g: Group<G>, f: Signed<G> -> G, a: seq<Signed<G>>, b: seq<Signed<G>>)
    requires Commutative(g) && multiset(a) == multiset(b)
    ensures SumOver(g, f, a) == SumOver(g, f, b)
    decreases |a|
  {
    assert |a| == |multiset(a)| == |b|;
    if a != [] {
      var n := |a| - 1;
      var x := a[n];
      assert a == a[..n] + [x];
      assert x in multiset(b);
      var k :| 0 <= k < |b| && b[k] == x;
      var rest := b[..k] + b[k + 1..];
      assert b == b[..k] + [x] + b[k + 1..];
      assert multiset(rest) == multiset(b) - multiset{x} == multiset(a[..n]);
      SumOverPermuted(g, f, a[..n], rest);
      SumOverTakeOut(g, f, b, k);
    }
  }

  /** The aggregate of a set of signatures is the same node in whatever order they are fed. */
  lemma AggregateIgnoresOrder<G(!new)>(g: Group<G>, c: Committee<G>, a: seq<Signed<G>>, b: seq<Signed<G>>, node: TreeNode<G>)
    requires Commutative(g) && ByDistinctMembers(c, a) && ByDistinctMembers(c, b) && multiset(a) == multiset(b)
    requires Aggregates(g, c, a, AllSet(|a|), node)
    ensures Aggregates(g, c, b, AllSet(|b|), node)
  {
    assert forall s :: s in a <==> s in multiset(a);
    assert forall s :: s in b <==> s in multiset(b);
    var given := (s: Signed<G>) => s.sig;
    var expected := (s: Signed<G>) => if s.who in c.ids && |c.ids| == |c.keys| then c.keys[c.IndexOf(s.who)] else g.zero;
    SumOverPermuted(g, given, a, b);
    SumOverPermuted(g, expected, a, b);
    SumBitsIsSumOver(g, given, a, Given(a));
    SumBitsIsSumOver(g, given, b, Given(b));
    SumBitsIsSumOver(g, expected, a, Expected(c, a));
    SumBitsIsSumOver(g, expected, b, Expected(c, b));
    SameSigners(c, a, b, node.signers);
  }

  lemma SameSigners<G(!new)>(c: Committee<G>, a: seq<Signed<G>>, b: seq<Signed<G>>, bits: seq<bool>)
    requires ByDistinctMembers(c, a) && ByDistinctMembers(c, b) && (forall s :: s in a <==> s in b)
    requires SignersOf(c, a, AllSet(|a|), bits)
    ensures SignersOf(c, b, AllSet(|b|), bits)
  {
    forall p | 0 <= p < |b|
      ensures bits[c.IndexOf(b[p].who)]
    {
      assert b[p] in a;
    }
    forall j | 0 <= j < |bits| && bits[j]
      ensures SelectedAt(c, b, AllSet(|b|), j)
    {
      assert SelectedAt(c, a, AllSet(|a|), j);
      var p :| 0 <= p < |a| && c.IndexOf(a[p].who) == j;
      assert a[p] in b;
    }
  }

  // ----- BlsSignatureCollection::new -----

  datatype NewResult<G> =
    | Collection(node: TreeNode<G>)
    | ConflictingSignatures(who: NodeId, first: G, second: G)
    | NodeIdNotInMapping(strangers: seq<Signed<G>>)
    | InvalidSignaturesCreate(invalid: seq<Signed<G>>)
    | NewPanicked

  /** Two different signatures by one node. */
  ghost predicate Conflict<G>(sigs: seq<Signed<G>>, who: NodeId, x: G, y: G) {
    x != y && Signed(who, x) in sigs && Signed(who, y) in sigs
  }

  /** The first place where a node contradicts itself: `x` came before, `y` is the contradiction. */
  ghost predicate FirstConflict<G(!new)>(sigs: seq<Signed<G>>, who: NodeId, x: G, y: G) {
    exists j :: && 0 <= j < |sigs| && sigs[j] == Signed(who, y) && x != y && Signed(who, x) in sigs[..j]
                && !exists w, a, b :: Conflict(sigs[..j], w, a, b)
  }

  function NonMembers<G>(c: Committee<G>, sigs: seq<Signed<G>>): seq<Signed<G>> {
    if sigs == [] then []
    else
      var last := sigs[|sigs| - 1];
      NonMembers(c, sigs[..|sigs| - 1]) + if last.who in c.ids then [] else [last]
  }

  lemma {:induction false} NoNonMembers<G>(c: Committee<G>, sigs: seq<Signed<G>>)
    ensures NonMembers(c, sigs) == [] <==> forall s :: s in sigs ==> s.who in c.ids
    decreases |sigs|
  {
    if sigs != [] {
      NoNonMembers(c, sigs[..|sigs| - 1]);
      assert sigs == sigs[..|sigs| - 1] + [sigs[|sigs| - 1]];
    }
  }

  /** The strangers reported are all signatures of non-members, each as often as it was given. */
  lemma {:induction false} NonMembersCounted<G>(c: Committee<G>, sigs: seq<Signed<G>>, s: Signed<G>)
    ensures multiset(NonMembers(c, sigs))[s] == if s.who in c.ids then 0 else multiset(sigs)[s]
    decreases |sigs|
  {
    if sigs != [] {
      var n := |sigs| - 1;
      NonMembersCounted(c, sigs[..n], s);
      assert sigs == sigs[..n] + [sigs[n]];
    }
  }

  /** `list` holds every given signature once, in some order. */
  ghost predicate IsDistinctListing<G(!new)>(c: Committee<G>, sigs: seq<Signed<G>>, list: seq<Signed<G>>) {
    ByDistinctMembers(c, list) && forall s :: s in list <==> s in sigs
  }

  /** `sigs_map` after reading a prefix without conflicts. */
  ghost predicate Collected<G(!new)>(sigs: seq<Signed<G>>, m: map<NodeId, G>) {
    forall who, x :: Signed(who, x) in sigs <==> who in m && m[who] == x
  }

  /** Reads the signatures in order, stopping at the first that contradicts an earlier one. */
  method CollectSignatures<G(!new, ==)>(c: Committee<G>, sigs: seq<Signed<G>>)
    returns (m: map<NodeId, G>, strangers: seq<Signed<G>>, conflict: NewResult<G>)
    ensures conflict.ConflictingSignatures? || conflict == NodeIdNotInMapping(strangers)
    ensures conflict.ConflictingSignatures? ==> Conflict(sigs, conflict.who, conflict.first, conflict.second)
    ensures conflict.ConflictingSignatures? ==> FirstConflict(sigs, conflict.who, conflict.first, conflict.second)
    ensures conflict.NodeIdNotInMapping? ==> Collected(sigs, m) && strangers == NonMembers(c, sigs)
  {
    m, strangers := map[], [];
    for i := 0 to |sigs|
      invariant Collected(sigs[..i], m) && strangers == NonMembers(c, sigs[..i])
    {
      var s := sigs[i];
      assert sigs[..i + 1] == sigs[..i] + [s];
      assert sigs[..i + 1][..i] == sigs[..i];
      if s.who !in c.ids {
        strangers := strangers + [s];
      }
      if s.who !in m {
        m := m[s.who := s.sig];
      } else if m[s.who] != s.sig {
        assert Signed(s.who, m[s.who]) in sigs[..i];
        NoConflict(sigs[..i], m);
        conflict := ConflictingSignatures(s.who, m[s.who], s.sig);
        return;
      }
    }
    assert sigs[..|sigs|] == sigs;
    conflict := NodeIdNotInMapping(strangers);
  }

  /** The entries of the map in an arbitrary order. */
  method Entries<G(==)>(m: map<NodeId, G>) returns (list: seq<Signed<G>>)
    ensures forall i, j :: 0 <= i < j < |list| ==> list[i].who != list[j].who
    ensures forall s :: s in list <==> s.who in m && m[s.who] == s.sig
  {
    list := [];
    var rest := m.Keys;
    while rest != {}
      invariant rest <= m.Keys
      invariant forall i, j :: 0 <= i < j < |list| ==> list[i].who != list[j].who
      invariant forall s :: s in list <==> s.who in m && s.who !in rest && m[s.who] == s.sig
    {
      var who :| who in rest;
      assert forall s :: s in list + [Signed(who, m[who])] <==> s in list || s == Signed(who, m[who]);
      list := list + [Signed(who, m[who])];
      rest := rest - {who};
    }
  }

  /** Building a collection: conflicting signatures and strangers are refused; otherwise the
      given signatures are aggregated once each.  With no signatures and a non-empty mapping the
      search panics on its one empty leaf. */
  method NewCollection<G(!new, ==)>(g: Group<G>, c: Committee<G>, sigs: seq<Signed<G>>) returns (r: NewResult<G>)
    requires Commutative(g) && c.Valid()
    ensures r.NewPanicked? <==> sigs == [] && c.ids != []
    ensures r.ConflictingSignatures? <==> exists who, x, y :: Conflict(sigs, who, x, y)
    ensures r.ConflictingSignatures? ==> FirstConflict(sigs, r.who, r.first, r.second)
    ensures r.NodeIdNotInMapping? ==> r.strangers == NonMembers(c, sigs) != []
    ensures r.Collection? || r.InvalidSignaturesCreate? ==> NonMembers(c, sigs) == []
    ensures r.Collection? ==> (exists list :: IsDistinctListing(c, sigs, list))
                              && forall list :: IsDistinctListing(c, sigs, list) ==> Aggregates(g, c, list, AllSet(|list|), r.node)
    ensures r.Collection? ==> |r.node.signers| == |c.keys|
    ensures r.Collection? ==> (Verifies(g, c, r.node) <==> c.ids == [] || SumBits(g, r.node.signers, c.keys) != g.zero)
    ensures r.InvalidSignaturesCreate? ==> FaultyReport(g, c, sigs, r.invalid) && WholeFails(g, c, sigs)
  {
    var m, strangers, conflict := CollectSignatures(c, sigs);
    if conflict.ConflictingSignatures? {
      return conflict;
    }
    NoConflict(sigs, m);
    if strangers != [] {
      return NodeIdNotInMapping(strangers);
    }
    NoNonMembers(c, sigs);
    var list := Entries(m);
    assert IsDistinctListing(c, sigs, list) by {
      forall s ensures s in list <==> s in sigs {
        assert s == Signed(s.who, s.sig);
      }
    }
    EmptyIffListsNothing(c, sigs, list);
    var nodes := NewTree(g, c, list);
    var v := VerifyTree(g, c, list, nodes);
    match v
    case Verified(node) =>
      if list == [] {
        EmptyListing(g, c, sigs, node);
      } else {
        CollectionIsAggregate(g, c, sigs, list, nodes);
      }
      r := Collection(node);
    case Invalid(invalid) =>
      ReportIsFaulty(g, c, sigs, list, nodes, invalid);
      BlameMeansWholeFails(g, c, sigs, list, nodes);
      r := InvalidSignaturesCreate(invalid);
    case Panicked =>
      r := NewPanicked;
  }

  lemma EmptyIffListsNothing<G(!new)>(c: Committee<G>, sigs: seq<Signed<G>>, list: seq<Signed<G>>)
    requires IsDistinctListing(c, sigs, list)
    ensures list == [] <==> sigs == []
  {
    if list != [] {
      assert list[0] in sigs;
    }
    if sigs != [] {
      assert sigs[0] in list;
    }
  }

  lemma NoConflict<G(!new)>(sigs: seq<Signed<G>>, m: map<NodeId, G>)
    requires Collected(sigs, m)
    ensures !exists who, x, y :: Conflict(sigs, who, x, y)
  {
  }

  lemma MembersOfNothing<G>(c: Committee<G>, list: seq<Signed<G>>)
    requires ByDistinctMembers(c, list)
    ensures list == [] || c.ids != []
  {
    if list != [] {
      assert list[0].who in c.ids;
    }
  }

  lemma EmptyListing<G(!new)>(g: Group<G>, c: Committee<G>, sigs: seq<Signed<G>>, node: TreeNode<G>)
    requires c.Valid() && c.ids == [] && node == EmptyNode(g, 0)
    requires IsDistinctListing(c, sigs, [])
    ensures forall list :: IsDistinctListing(c, sigs, list) ==> Aggregates(g, c, list, AllSet(|list|), node)
    ensures |node.signers| == |c.keys| && Verifies(g, c, node)
  {
    forall list: seq<Signed<G>> | IsDistinctListing(c, sigs, list)
      ensures Aggregates(g, c, list, AllSet(|list|), node)
    {
      MembersOfNothing(c, list);
    }
  }

  lemma RootAggregatesAll<G(!new)>(g: Group<G>, c: Committee<G>, list: seq<Signed<G>>, nodes: seq<TreeNode<G>>)
    requires ByDistinctMembers(c, list) && IsHeap(g, c, list, nodes)
    ensures Aggregates(g, c, list, AllSet(|list|), nodes[0])
  {
    AllUnderRoot(|list|);
    assert LeavesUnder(|list|, 0) == AllSet(|list|);
    assert Aggregates(g, c, list, LeavesUnder(|list|, 0), nodes[0]);
  }

  lemma CollectionIsAggregate<G(!new)>(g: Group<G>, c: Committee<G>, sigs: seq<Signed<G>>, list: seq<Signed<G>>,
                                       nodes: seq<TreeNode<G>>)
    requires Commutative(g) && IsDistinctListing(c, sigs, list) && IsHeap(g, c, list, nodes)
    requires NobodyBlamed(g, c, nodes, |list|)
    ensures forall l :: IsDistinctListing(c, sigs, l) ==> Aggregates(g, c, l, AllSet(|l|), nodes[0])
    ensures |nodes[0].signers| == |c.keys|
    ensures Verifies(g, c, nodes[0]) <==> SumBits(g, nodes[0].signers, c.keys) != g.zero
  {
    RootAggregatesAll(g, c, list, nodes);
    forall l | IsDistinctListing(c, sigs, l)
      ensures Aggregates(g, c, l, AllSet(|l|), nodes[0])
    {
      SameElements(list, l);
      AggregateIgnoresOrder(g, c, list, l, nodes[0]);
    }
    NobodyBlamedIffVerifies(g, c, list, nodes);
  }

  /** Every reported signature is one of the given ones and fails on its own, and the
      signatures left add up to what their signers should have produced. */
  ghost predicate FaultyReport<G(!new)>(g: Group<G>, c: Committee<G>, sigs: seq<Signed<G>>, invalid: seq<Signed<G>>)
    requires c.Valid()
  {
    && invalid != []
    && (forall s :: s in invalid ==> s in sigs && s.who in c.ids && !Verifies(g, c, LeafNode(g, c, s)))
    && (exists list, kept :: RestMatches(g, c, sigs, invalid, list, kept))
    && ((exists s :: s in sigs && s !in invalid) ==> |c.ids| <= MAX_SIGNERS_LEN)
  }

  ghost predicate RestMatches<G(!new)>(g: Group<G>, c: Committee<G>, sigs: seq<Signed<G>>, invalid: seq<Signed<G>>,
                                       list: seq<Signed<G>>, kept: seq<bool>)
  {
    && IsDistinctListing(c, sigs, list) && |kept| == |list|
    && (forall p :: 0 <= p < |list| ==> kept[p] == (list[p] !in invalid))
    && SumBits(g, kept, Given(list)) == SumBits(g, kept, Expected(c, list))
  }

  ghost predicate AggregateOf<G(!new)>(g: Group<G>, c: Committee<G>, sigs: seq<Signed<G>>, list: seq<Signed<G>>, node: TreeNode<G>) {
    IsDistinctListing(c, sigs, list) && Aggregates(g, c, list, AllSet(|list|), node)
  }

  /** The aggregate of all given signatures does not verify. */
  ghost predicate WholeFails<G(!new)>(g: Group<G>, c: Committee<G>, sigs: seq<Signed<G>>)
    requires c.Valid()
  {
    && (exists list, node :: AggregateOf(g, c, sigs, list, node))
    && (forall list, node :: AggregateOf(g, c, sigs, list, node) ==> !Verifies(g, c, node))
  }

  lemma BlameMeansWholeFails<G(!new)>(g: Group<G>, c: Committee<G>, sigs: seq<Signed<G>>, list: seq<Signed<G>>,
                                      nodes: seq<TreeNode<G>>)
    requires Commutative(g) && IsDistinctListing(c, sigs, list) && IsHeap(g, c, list, nodes)
    requires !NobodyBlamed(g, c, nodes, |list|)
    ensures WholeFails(g, c, sigs)
  {
    if Verifies(g, c, nodes[0]) {
      VerifiedRootBlamesNobody(g, c, nodes, |list|);
    }
    RootAggregatesAll(g, c, list, nodes);
    assert AggregateOf(g, c, sigs, list, nodes[0]);
    forall l, node | AggregateOf(g, c, sigs, l, node)
      ensures node == nodes[0]
    {
      SameElements(l, list);
      AggregateIgnoresOrder(g, c, l, list, node);
      AggregateIsUnique(g, c, list, node, nodes[0]);
    }
  }

  lemma AggregateIsUnique<G(!new)>(g: Group<G>, c: Committee<G>, list: seq<Signed<G>>, a: TreeNode<G>, b: TreeNode<G>)
    requires ByDistinctMembers(c, list)
    requires Aggregates(g, c, list, AllSet(|list|), a) && Aggregates(g, c, list, AllSet(|list|), b)
    ensures a == b
  {
    forall j | 0 <= j < |c.ids|
      ensures a.signers[j] == b.signers[j]
    {
      assert a.signers[j] ==> SelectedAt(c, list, AllSet(|list|), j);
      assert b.signers[j] ==> SelectedAt(c, list, AllSet(|list|), j);
    }
  }

  lemma ReportIsFaulty<G(!new)>(g: Group<G>, c: Committee<G>, sigs: seq<Signed<G>>, list: seq<Signed<G>>,
                                nodes: seq<TreeNode<G>>, invalid: seq<Signed<G>>)
    requires Commutative(g) && IsDistinctListing(c, sigs, list) && IsHeap(g, c, list, nodes)
    requires ListsBlamed(g, c, list, nodes, {}, invalid) && !NobodyBlamed(g, c, nodes, |list|)
    ensures FaultyReport(g, c, sigs, invalid)
  {
    ReportedFail(g, c, sigs, list, nodes, invalid);
    UnreportedMatch(g, c, sigs, list, nodes, invalid);
    if s :| s in sigs && s !in invalid {
      UnreportedMeansWithinLimit(g, c, list, nodes, invalid, s);
    }
  }

  /** With too many members every node fails and everyone is reported. */
  lemma UnreportedMeansWithinLimit<G(!new)>(g: Group<G>, c: Committee<G>, list: seq<Signed<G>>, nodes: seq<TreeNode<G>>,
                                            invalid: seq<Signed<G>>, s: Signed<G>)
    requires ByDistinctMembers(c, list) && |nodes| == 2 * |list| - 1 && ListsBlamed(g, c, list, nodes, {}, invalid)
    requires s in list && s !in invalid
    ensures |c.ids| <= MAX_SIGNERS_LEN
  {
    var p :| 0 <= p < |list| && list[p] == s;
    assert !Blamed(g, c, nodes, |list|, p);
  }

  lemma ReportedFail<G(!new)>(g: Group<G>, c: Committee<G>, sigs: seq<Signed<G>>, list: seq<Signed<G>>,
                              nodes: seq<TreeNode<G>>, invalid: seq<Signed<G>>)
    requires IsDistinctListing(c, sigs, list) && LeavesInPlace(g, c, list, nodes)
    requires ListsBlamed(g, c, list, nodes, {}, invalid) && !NobodyBlamed(g, c, nodes, |list|)
    ensures invalid != []
    ensures forall s :: s in invalid ==> s in sigs && s.who in c.ids && !Verifies(g, c, LeafNode(g, c, s))
  {
    forall s | s in invalid
      ensures s in sigs && s.who in c.ids && !Verifies(g, c, LeafNode(g, c, s))
    {
      BlamedLeafFails(g, c, list, nodes, invalid, s);
    }
    var p :| 0 <= p < |list| && Blamed(g, c, nodes, |list|, p);
    assert list[p] in invalid;
  }

  lemma UnreportedMatch<G(!new)>(g: Group<G>, c: Committee<G>, sigs: seq<Signed<G>>, list: seq<Signed<G>>,
                                 nodes: seq<TreeNode<G>>, invalid: seq<Signed<G>>)
    requires Commutative(g) && IsDistinctListing(c, sigs, list) && IsHeap(g, c, list, nodes)
    requires ListsBlamed(g, c, list, nodes, {}, invalid)
    ensures RestMatches(g, c, sigs, invalid, list, UnblamedUnder(g, c, nodes, |list|, 0))
  {
    var n := |list|;
    assert AllAboveFail(g, c, nodes, 0);
    UnblamedSumMatches(g, c, list, nodes, 0);
    AllUnderRoot(n);
    var kept := UnblamedUnder(g, c, nodes, n, 0);
    forall p | 0 <= p < n
      ensures kept[p] == (list[p] !in invalid)
    {
      assert LeavesUnder(n, 0)[p];
    }
  }

  lemma BlamedLeafFails<G(!new)>(g: Group<G>, c: Committee<G>, list: seq<Signed<G>>, nodes: seq<TreeNode<G>>,
                                 invalid: seq<Signed<G>>, s: Signed<G>)
    requires ByDistinctMembers(c, list) && |list| > 0 && |nodes| == 2 * |list| - 1
    requires forall p :: 0 <= p < |list| ==> nodes[|list| - 1 + p] == LeafNode(g, c, list[p])
    requires ListsBlamed(g, c, list, nodes, {}, invalid) && s in invalid
    ensures s in list && s.who in c.ids && !Verifies(g, c, LeafNode(g, c, s))
  {
    var n := |list|;
    var a :| 0 <= a < |invalid| && invalid[a] == s;
    assert BlamedSig(g, c, list, nodes, {}, invalid[a]);
    var p :| 0 <= p < n && list[p] == s && Blamed(g, c, nodes, n, p);
    assert Under(n - 1 + p, n - 1 + p);
    assert nodes[n - 1 + p] == LeafNode(g, c, list[p]);
  }
}
