/** The signature aggregation tree (monad-bls/src/aggregation_tree.rs:39-227).

    Points of the signature curve form a commutative group under addition; only the monoid laws
    are used, so the group is a parameter.  A validator's key is represented by the signature it
    would make on the message at hand, so an aggregate key is infinity iff the expected aggregate
    signature is, and the pairing check of FastAggregateVerify (section 3.3.4 of
    draft-irtf-cfrg-bls-signature-05) is equality with the expected signature. */
module BlsTree {

  const MAX_SIGNERS_LEN: nat := 1024 * 16

  // ----- Commutative monoids -----

  datatype Group<!G> = Group(zero: G, add: (G, G) -> G)

  ghost predicate AssocAt<G>(g: Group<G>, a: G, b: G, c: G) {
    g.add(g.add(a, b), c) == g.add(a, g.add(b, c))
  }

  ghost predicate CommAt<G>(g: Group<G>, a: G, b: G) {
    g.add(a, b) == g.add(b, a)
  }

  ghost predicate UnitAt<G>(g: Group<G>, a: G) {
    g.add(g.zero, a) == a
  }

  ghost predicate Commutative<G(!new)>(g: Group<G>) {
    && (forall a, b, c :: AssocAt(g, a, b, c))
    && (forall a, b :: CommAt(g, a, b))
    && (forall a :: UnitAt(g, a))
  }

  lemma UnitRight<G(!new)>(g: Group<G>, a: G)
    requires Commutative(g)
    ensures g.add(a, g.zero) == a
  {
    assert CommAt(g, a, g.zero) && UnitAt(g, a);
  }

  lemma MoveLastIn<G(!new)>(g: Group<G>, a: G, b: G, x: G)
    requires Commutative(g)
    ensures g.add(g.add(a, b), x) == g.add(g.add(a, x), b) == g.add(a, g.add(b, x))
  {
    assert AssocAt(g, a, b, x) && AssocAt(g, a, x, b) && CommAt(g, b, x);
  }

  // ----- Sums over bitmaps -----

  /** The sum of the values whose bit is set, in index order. */
  function SumBits<G>(g: Group<G>, bits: seq<bool>, vals: seq<G>): G
    requires |bits| == |vals|
  {
    if bits == [] then g.zero
    else
      var n := |bits| - 1;
      var rest := SumBits(g, bits[..n], vals[..n]);
      if bits[n] then g.add(rest, vals[n]) else rest
  }

  /** `c` is the disjoint union of `a` and `b`. */
  ghost predicate Splits(c: seq<bool>, a: seq<bool>, b: seq<bool>) {
    && |a| == |b| == |c|
    && forall i :: 0 <= i < |c| ==> c[i] == (a[i] || b[i]) && !(a[i] && b[i])
  }

  lemma {:induction false} SumOfSplit<G(!new)>(g: Group<G>, c: seq<bool>, a: seq<bool>, b: seq<bool>, vals: seq<G>)
    requires Commutative(g) && Splits(c, a, b) && |vals| == |c|
    ensures SumBits(g, c, vals) == g.add(SumBits(g, a, vals), SumBits(g, b, vals))
    decreases |c|
  {
    if c == [] {
      UnitRight(g, g.zero);
    } else {
      var n := |c| - 1;
      SumOfSplit(g, c[..n], a[..n], b[..n], vals[..n]);
      MoveLastIn(g, SumBits(g, a[..n], vals[..n]), SumBits(g, b[..n], vals[..n]), vals[n]);
    }
  }

  ghost predicate NoneSet(bits: seq<bool>) {
    forall i :: 0 <= i < |bits| ==> !bits[i]
  }

  ghost predicate OneHot(bits: seq<bool>, k: nat) {
    k < |bits| && forall i :: 0 <= i < |bits| ==> bits[i] == (i == k)
  }

  lemma {:induction false} SumOfNone<G>(g: Group<G>, bits: seq<bool>, vals: seq<G>)
    requires |bits| == |vals| && NoneSet(bits)
    ensures SumBits(g, bits, vals) == g.zero
    decreases |bits|
  {
    if bits != [] {
      SumOfNone(g, bits[..|bits| - 1], vals[..|bits| - 1]);
    }
  }

  lemma {:induction false} SumOfOne<G(!new)>(g: Group<G>, bits: seq<bool>, vals: seq<G>, k: nat)
    requires Commutative(g) && |bits| == |vals| && OneHot(bits, k)
    ensures SumBits(g, bits, vals) == vals[k]
    decreases |bits|
  {
    var n := |bits| - 1;
    if k == n {
      SumOfNone(g, bits[..n], vals[..n]);
      assert UnitAt(g, vals[n]);
    } else {
      SumOfOne(g, bits[..n], vals[..n], k);
    }
  }

  // ----- Heap positions -----

  /** Heap position `k` lies in the subtree of position `i`. */
  predicate Under(i: nat, k: nat)
    decreases k
  {
    k == i || (k > i && Under(i, (k - 1) / 2))
  }

  lemma {:induction false} UnderRoot(k: nat)
    ensures Under(0, k)
    decreases k
  {
    if k > 0 {
      UnderRoot((k - 1) / 2);
    }
  }

  lemma {:induction false} UnderChildren(i: nat, k: nat)
    ensures Under(i, k) <==> k == i || Under(2 * i + 1, k) || Under(2 * i + 2, k)
    ensures !(Under(2 * i + 1, k) && Under(2 * i + 2, k))
    ensures Under(2 * i + 1, k) || Under(2 * i + 2, k) ==> i < k
    decreases k
  {
    if k > 0 {
      UnderChildren(i, (k - 1) / 2);
    }
  }

  /** Which of the `n` leaves lie under heap position `i`. */
  function LeavesUnder(n: nat, i: nat): (bits: seq<bool>)
    requires n > 0
    ensures |bits| == n && forall p :: 0 <= p < n ==> bits[p] == Under(i, n - 1 + p)
  {
    seq(n, p requires 0 <= p < n => Under(i, n - 1 + p))
  }

  /** Below an inner position lie the leaves of its two children, no leaf in both. */
  lemma LeavesSplit(n: nat, i: nat)
    requires n > 0 && i < n - 1
    ensures Splits(LeavesUnder(n, i), LeavesUnder(n, 2 * i + 1), LeavesUnder(n, 2 * i + 2))
  {
    var c, a, b := LeavesUnder(n, i), LeavesUnder(n, 2 * i + 1), LeavesUnder(n, 2 * i + 2);
    forall p | 0 <= p < n
      ensures c[p] == (a[p] || b[p]) && !(a[p] && b[p])
    {
      UnderChildren(i, n - 1 + p);
    }
  }

  /** Below a leaf lies the leaf alone. */
  lemma LeafAlone(n: nat, p: nat)
    requires p < n
    ensures OneHot(LeavesUnder(n, n - 1 + p), p)
  {
    var bits := LeavesUnder(n, n - 1 + p);
    forall q | 0 <= q < n
      ensures bits[q] == (q == p)
    {
      if q > p {
        assert !Under(n - 1 + p, (n - 1 + q - 1) / 2);
      }
    }
  }

  lemma AllUnderRoot(n: nat)
    requires n > 0
    ensures forall p :: 0 <= p < n ==> LeavesUnder(n, 0)[p]
  {
    forall p | 0 <= p < n
      ensures LeavesUnder(n, 0)[p]
    {
      UnderRoot(n - 1 + p);
    }
  }

  // ----- Committees, signatures and tree nodes -----

  type NodeId = nat

  /** The validator mapping in key order: node ids and the expected signature of each. */
  datatype Committee<G> = Committee(ids: seq<NodeId>, keys: seq<G>) {
    predicate Valid() {
      |ids| == |keys| && forall i, j :: 0 <= i < j < |ids| ==> ids[i] != ids[j]
    }

    /** `validator_index`. */
    function IndexOf(who: NodeId): (i: nat)
      requires who in ids
      ensures i < |ids| && ids[i] == who
    {
      Position(ids, who)
    }
  }

  function Position(ids: seq<NodeId>, who: NodeId): (i: nat)
    requires who in ids
    ensures i < |ids| && ids[i] == who
  {
    if ids[0] == who then 0 else 1 + Position(ids[1..], who)
  }

  datatype Signed<G> = Signed(who: NodeId, sig: G)

  /** One signature each, all by members. */
  ghost predicate ByDistinctMembers<G>(c: Committee<G>, sigs: seq<Signed<G>>) {
    && c.Valid()
    && (forall p :: 0 <= p < |sigs| ==> sigs[p].who in c.ids)
    && forall p, q :: 0 <= p < q < |sigs| ==> sigs[p].who != sigs[q].who
  }

  datatype TreeNode<G> = TreeNode(signers: seq<bool>, sig: G)

  /** `AggregationTreeNode::with_capacity`. */
  function EmptyNode<G>(g: Group<G>, n: nat): TreeNode<G> {
    TreeNode(seq(n, _ => false), g.zero)
  }

  function LeafNode<G>(g: Group<G>, c: Committee<G>, s: Signed<G>): TreeNode<G>
    requires s.who in c.ids
  {
    var empty := EmptyNode(g, |c.ids|);
    TreeNode(empty.signers[c.IndexOf(s.who) := true], g.add(empty.sig, s.sig))
  }

  function Or(a: seq<bool>, b: seq<bool>): (c: seq<bool>)
    requires |a| == |b|
    ensures |c| == |a| && forall i :: 0 <= i < |c| ==> c[i] == (a[i] || b[i])
  {
    seq(|a|, i requires 0 <= i < |a| => a[i] || b[i])
  }

  function CountOnes(bits: seq<bool>): nat {
    if bits == [] then 0 else CountOnes(bits[..|bits| - 1]) + (if bits[|bits| - 1] then 1 else 0)
  }

  /** The count check of merge_nodes succeeds exactly on disjoint signer sets. */
  lemma {:induction false} CountsAddIffDisjoint(a: seq<bool>, b: seq<bool>)
    requires |a| == |b|
    ensures CountOnes(Or(a, b)) <= CountOnes(a) + CountOnes(b)
    ensures CountOnes(a) + CountOnes(b) == CountOnes(Or(a, b)) <==> Splits(Or(a, b), a, b)
    decreases |a|
  {
    if a != [] {
      var n := |a| - 1;
      CountsAddIffDisjoint(a[..n], b[..n]);
      assert Or(a, b)[..n] == Or(a[..n], b[..n]);
      if Splits(Or(a[..n], b[..n]), a[..n], b[..n]) {
        assert forall i :: 0 <= i < n ==> !(a[..n][i] && b[..n][i]);
      }
      if Splits(Or(a, b), a, b) {
        assert Splits(Or(a[..n], b[..n]), a[..n], b[..n]);
      }
    }
  }

  /** `merge_nodes`; its two assertions are the precondition. */
  function MergeNodes<G>(g: Group<G>, n1: TreeNode<G>, n2: TreeNode<G>): TreeNode<G>
    requires |n1.signers| == |n2.signers|
    requires CountOnes(n1.signers) + CountOnes(n2.signers) == CountOnes(Or(n1.signers, n2.signers))
  {
    TreeNode(Or(n1.signers, n2.signers), g.add(n1.sig, n2.sig))
  }

  // ----- What each heap node holds -----

  ghost function Expected<G>(c: Committee<G>, sigs: seq<Signed<G>>): (r: seq<G>)
    requires ByDistinctMembers(c, sigs)
    ensures |r| == |sigs| && forall p :: 0 <= p < |r| ==> r[p] == c.keys[c.IndexOf(sigs[p].who)]
  {
    seq(|sigs|, p requires 0 <= p < |sigs| => c.keys[c.IndexOf(sigs[p].who)])
  }

  ghost function Given<G>(sigs: seq<Signed<G>>): (r: seq<G>)
    ensures |r| == |sigs| && forall p :: 0 <= p < |r| ==> r[p] == sigs[p].sig
  {
    seq(|sigs|, p requires 0 <= p < |sigs| => sigs[p].sig)
  }

  /** `bits` marks exactly the members whose leaves are selected. */
  ghost predicate SignersOf<G>(c: Committee<G>, sigs: seq<Signed<G>>, leaves: seq<bool>, bits: seq<bool>)
    requires ByDistinctMembers(c, sigs) && |leaves| == |sigs|
  {
    && |bits| == |c.ids|
    && (forall p :: 0 <= p < |sigs| && leaves[p] ==> bits[c.IndexOf(sigs[p].who)])
    && (forall j :: 0 <= j < |bits| && bits[j] ==> SelectedAt(c, sigs, leaves, j))
  }

  ghost predicate SelectedAt<G>(c: Committee<G>, sigs: seq<Signed<G>>, leaves: seq<bool>, j: nat)
    requires ByDistinctMembers(c, sigs) && |leaves| == |sigs|
  {
    exists p :: 0 <= p < |sigs| && leaves[p] && c.IndexOf(sigs[p].who) == j
  }

  /** The node aggregates exactly the selected leaves: its signer set, the sum of their
      signatures, and the sum of their signers' keys. */
  ghost predicate Aggregates<G(!new)>(g: Group<G>, c: Committee<G>, sigs: seq<Signed<G>>,
                                      leaves: seq<bool>, node: TreeNode<G>)
    requires ByDistinctMembers(c, sigs) && |leaves| == |sigs|
  {
    && SignersOf(c, sigs, leaves, node.signers)
    && node.sig == SumBits(g, leaves, Given(sigs))
    && SumBits(g, node.signers, c.keys) == SumBits(g, leaves, Expected(c, sigs))
  }

  lemma LeafAggregates<G(!new)>(g: Group<G>, c: Committee<G>, sigs: seq<Signed<G>>, p: nat)
    requires Commutative(g) && ByDistinctMembers(c, sigs) && p < |sigs|
    ensures Aggregates(g, c, sigs, LeavesUnder(|sigs|, |sigs| - 1 + p), LeafNode(g, c, sigs[p]))
  {
    var leaves, node, k := LeavesUnder(|sigs|, |sigs| - 1 + p), LeafNode(g, c, sigs[p]), c.IndexOf(sigs[p].who);
    LeafAlone(|sigs|, p);
    assert OneHot(node.signers, k);
    SumOfOne(g, leaves, Given(sigs), p);
    SumOfOne(g, leaves, Expected(c, sigs), p);
    SumOfOne(g, node.signers, c.keys, k);
    assert UnitAt(g, sigs[p].sig);
    assert SelectedAt(c, sigs, leaves, k);
  }

  /** Two nodes over disjoint leaves have disjoint signers, so merging them is safe and
      aggregates the union. */
  lemma MergeAggregates<G(!new)>(g: Group<G>, c: Committee<G>, sigs: seq<Signed<G>>,
                                 all: seq<bool>, left: seq<bool>, right: seq<bool>,
                                 n1: TreeNode<G>, n2: TreeNode<G>)
    requires Commutative(g) && ByDistinctMembers(c, sigs) && |all| == |sigs| && Splits(all, left, right)
    requires Aggregates(g, c, sigs, left, n1) && Aggregates(g, c, sigs, right, n2)
    ensures |n1.signers| == |n2.signers|
    ensures CountOnes(n1.signers) + CountOnes(n2.signers) == CountOnes(Or(n1.signers, n2.signers))
    ensures Aggregates(g, c, sigs, all, MergeNodes(g, n1, n2))
  {
    var bits := Or(n1.signers, n2.signers);
    forall j | 0 <= j < |bits|
      ensures !(n1.signers[j] && n2.signers[j])
      ensures bits[j] ==> SelectedAt(c, sigs, all, j)
    {
      if bits[j] {
        DisjointSigners(c, sigs, all, left, right, n1.signers, n2.signers, j);
      }
    }
    assert Splits(bits, n1.signers, n2.signers);
    CountsAddIffDisjoint(n1.signers, n2.signers);
    SumOfSplit(g, all, left, right, Given(sigs));
    SumOfSplit(g, all, left, right, Expected(c, sigs));
    SumOfSplit(g, bits, n1.signers, n2.signers, c.keys);
  }

  lemma DisjointSigners<G>(c: Committee<G>, sigs: seq<Signed<G>>, all: seq<bool>, left: seq<bool>, right: seq<bool>,
                           b1: seq<bool>, b2: seq<bool>, j: nat)
    requires ByDistinctMembers(c, sigs) && |all| == |sigs| && Splits(all, left, right)
    requires SignersOf(c, sigs, left, b1) && SignersOf(c, sigs, right, b2)
    requires j < |c.ids| && (b1[j] || b2[j])
    ensures !(b1[j] && b2[j]) && SelectedAt(c, sigs, all, j)
  {
    if b1[j] {
      assert SelectedAt(c, sigs, left, j);
      var p :| 0 <= p < |sigs| && left[p] && c.IndexOf(sigs[p].who) == j;
      assert all[p];
    } else {
      assert SelectedAt(c, sigs, right, j);
      var q :| 0 <= q < |sigs| && right[q] && c.IndexOf(sigs[q].who) == j;
      assert all[q];
    }
  }

  // ----- AggregationTree::new -----

  /** Every node of the heap aggregates exactly the leaves beneath it. */
  ghost predicate IsHeap<G(!new)>(g: Group<G>, c: Committee<G>, sigs: seq<Signed<G>>, nodes: seq<TreeNode<G>>)
    requires ByDistinctMembers(c, sigs)
  {
    && LeavesInPlace(g, c, sigs, nodes)
    && forall i :: 0 <= i < |nodes| ==> Aggregates(g, c, sigs, LeavesUnder(|sigs|, i), nodes[i])
  }

  /** The last |sigs| nodes hold one signature each. */
  ghost predicate LeavesInPlace<G>(g: Group<G>, c: Committee<G>, sigs: seq<Signed<G>>, nodes: seq<TreeNode<G>>)
    requires ByDistinctMembers(c, sigs)
  {
    && |sigs| > 0
    && |nodes| == 2 * |sigs| - 1
    && forall p :: 0 <= p < |sigs| ==> nodes[|sigs| - 1 + p] == LeafNode(g, c, sigs[p])
  }

  method NewTree<G(!new)>(g: Group<G>, c: Committee<G>, sigs: seq<Signed<G>>) returns (nodes: seq<TreeNode<G>>)
    requires Commutative(g) && ByDistinctMembers(c, sigs)
    ensures sigs == [] ==> nodes == [EmptyNode(g, |c.ids|)]
    ensures sigs != [] ==> IsHeap(g, c, sigs, nodes)
  {
    if sigs == [] {
      return [EmptyNode(g, |c.ids|)];
    }
    var n := |sigs|;
    var heap := new TreeNode<G>[2 * n - 1](_ => EmptyNode(g, |c.ids|));
    CopyLeaves(g, c, sigs, heap);
    MergeUp(g, c, sigs, heap);
    nodes := heap[..];
  }

  /** Copies the signatures into the last `n` slots. */
  method CopyLeaves<G(!new)>(g: Group<G>, c: Committee<G>, sigs: seq<Signed<G>>, heap: array<TreeNode<G>>)
    requires ByDistinctMembers(c, sigs) && sigs != [] && heap.Length == 2 * |sigs| - 1
    requires forall k :: 0 <= k < heap.Length ==> heap[k] == EmptyNode(g, |c.ids|)
    modifies heap
    ensures forall p :: 0 <= p < |sigs| ==> heap[|sigs| - 1 + p] == LeafNode(g, c, sigs[p])
  {
    var n := |sigs|;
    for i := 0 to n
      invariant forall p :: 0 <= p < i ==> heap[n - 1 + p] == LeafNode(g, c, sigs[p])
      invariant forall k :: n - 1 + i <= k < heap.Length ==> heap[k] == EmptyNode(g, |c.ids|)
    {
      var cert := heap[n + i - 1];
      heap[n + i - 1] := TreeNode(cert.signers[c.IndexOf(sigs[i].who) := true], g.add(cert.sig, sigs[i].sig));
    }
  }

  ghost predicate AggregatesFrom<G(!new)>(g: Group<G>, c: Committee<G>, sigs: seq<Signed<G>>,
                                          nodes: seq<TreeNode<G>>, from: nat)
    requires ByDistinctMembers(c, sigs) && |sigs| > 0
  {
    forall k :: from <= k < |nodes| ==> Aggregates(g, c, sigs, LeavesUnder(|sigs|, k), nodes[k])
  }

  lemma LeavesAggregate<G(!new)>(g: Group<G>, c: Committee<G>, sigs: seq<Signed<G>>, nodes: seq<TreeNode<G>>)
    requires Commutative(g) && ByDistinctMembers(c, sigs) && |sigs| > 0 && |nodes| == 2 * |sigs| - 1
    requires forall p :: 0 <= p < |sigs| ==> nodes[|sigs| - 1 + p] == LeafNode(g, c, sigs[p])
    ensures AggregatesFrom(g, c, sigs, nodes, |sigs| - 1)
  {
    var n := |sigs|;
    forall k | n - 1 <= k < |nodes|
      ensures Aggregates(g, c, sigs, LeavesUnder(n, k), nodes[k])
    {
      var p := k - (n - 1);
      LeafAggregates(g, c, sigs, p);
      assert nodes[n - 1 + p] == LeafNode(g, c, sigs[p]);
    }
  }

  /** Builds the inner nodes bottom up; the checks of merge_nodes never fail. */
  method MergeUp<G(!new)>(g: Group<G>, c: Committee<G>, sigs: seq<Signed<G>>, heap: array<TreeNode<G>>)
    requires Commutative(g) && ByDistinctMembers(c, sigs) && sigs != [] && heap.Length == 2 * |sigs| - 1
    requires forall p :: 0 <= p < |sigs| ==> heap[|sigs| - 1 + p] == LeafNode(g, c, sigs[p])
    modifies heap
    ensures IsHeap(g, c, sigs, heap[..])
  {
    var n := |sigs|;
    LeavesAggregate(g, c, sigs, heap[..]);
    for i := n - 1 downto 0
      invariant AggregatesFrom(g, c, sigs, heap[..], i)
      invariant heap[n - 1..] == old(heap[n - 1..])
    {
      LeavesSplit(n, i);
      MergeAggregates(g, c, sigs, LeavesUnder(n, i), LeavesUnder(n, 2 * i + 1), LeavesUnder(n, 2 * i + 2),
                      heap[..][2 * i + 1], heap[..][2 * i + 2]);
      heap[i] := MergeNodes(g, heap[2 * i + 1], heap[2 * i + 2]);
    }
    forall p | 0 <= p < n
      ensures heap[..][n - 1 + p] == LeafNode(g, c, sigs[p])
    {
      assert heap[n - 1..][p] == old(heap[n - 1..])[p];
    }
  }

  // ----- Verification -----

  /** `verify_aggregate_sig`: wrong or oversized bitmaps fail; an empty mapping accepts only the
      infinity signature; otherwise the aggregate key must not be infinity and the pairing must match. */
  predicate Verifies<G(==)>(g: Group<G>, c: Committee<G>, node: TreeNode<G>)
    requires c.Valid()
  {
    && |node.signers| == |c.ids| <= MAX_SIGNERS_LEN
    && var expected := SumBits(g, node.signers, c.keys);
       if |node.signers| == 0 then node.sig == g.zero
       else expected != g.zero && node.sig == expected
  }

  /** Leaf `p` is reported: no node on its way up to the root verifies. */
  ghost predicate Blamed<G>(g: Group<G>, c: Committee<G>, nodes: seq<TreeNode<G>>, n: nat, p: nat)
    requires c.Valid() && p < n && |nodes| == 2 * n - 1
  {
    forall i :: 0 <= i < |nodes| && Under(i, n - 1 + p) ==> !Verifies(g, c, nodes[i])
  }

  /** No node strictly above `i` verifies. */
  ghost predicate AllAboveFail<G>(g: Group<G>, c: Committee<G>, nodes: seq<TreeNode<G>>, i: nat)
    requires c.Valid()
  {
    forall k :: 0 <= k < |nodes| && k != i && Under(k, i) ==> !Verifies(g, c, nodes[k])
  }

  lemma AboveChild<G>(g: Group<G>, c: Committee<G>, nodes: seq<TreeNode<G>>, i: nat, child: nat)
    requires c.Valid() && i < |nodes| && AllAboveFail(g, c, nodes, i) && !Verifies(g, c, nodes[i])
    requires child == 2 * i + 1 || child == 2 * i + 2
    ensures AllAboveFail(g, c, nodes, child)
  {
    forall k | 0 <= k < |nodes| && k != child && Under(k, child)
      ensures !Verifies(g, c, nodes[k])
    {
      assert (child - 1) / 2 == i && Under(k, i);
    }
  }


  /** The leaves under `i` that are not reported. */
  ghost function UnblamedUnder<G>(g: Group<G>, c: Committee<G>, nodes: seq<TreeNode<G>>, n: nat, i: nat)
    : (bits: seq<bool>)
    requires c.Valid() && n > 0 && |nodes| == 2 * n - 1
    ensures |bits| == n
    ensures forall p :: 0 <= p < n ==> bits[p] == (Under(i, n - 1 + p) && !Blamed(g, c, nodes, n, p))
  {
    seq(n, p requires 0 <= p < n => Under(i, n - 1 + p) && !Blamed(g, c, nodes, n, p))
  }

  lemma VerifiedMatches<G(!new)>(g: Group<G>, c: Committee<G>, node: TreeNode<G>)
    requires c.Valid() && Verifies(g, c, node)
    ensures node.sig == SumBits(g, node.signers, c.keys)
  {
  }

  /** The unreported signatures under `i` add up to what their signers should have produced. */
  ghost predicate SumMatchesUnder<G(!new)>(g: Group<G>, c: Committee<G>, sigs: seq<Signed<G>>,
                                           nodes: seq<TreeNode<G>>, i: nat)
    requires ByDistinctMembers(c, sigs) && |sigs| > 0 && |nodes| == 2 * |sigs| - 1
  {
    var bits := UnblamedUnder(g, c, nodes, |sigs|, i);
    SumBits(g, bits, Given(sigs)) == SumBits(g, bits, Expected(c, sigs))
  }

  lemma SumMatchesUnderVerified<G(!new)>(g: Group<G>, c: Committee<G>, sigs: seq<Signed<G>>,
                                         nodes: seq<TreeNode<G>>, i: nat)
    requires ByDistinctMembers(c, sigs) && IsHeap(g, c, sigs, nodes)
    requires i < |nodes| && Verifies(g, c, nodes[i])
    ensures SumMatchesUnder(g, c, sigs, nodes, i)
  {
    assert UnblamedUnder(g, c, nodes, |sigs|, i) == LeavesUnder(|sigs|, i);
    VerifiedMatches(g, c, nodes[i]);
    assert Aggregates(g, c, sigs, LeavesUnder(|sigs|, i), nodes[i]);
  }

  lemma SumMatchesUnderLeaf<G(!new)>(g: Group<G>, c: Committee<G>, sigs: seq<Signed<G>>,
                                     nodes: seq<TreeNode<G>>, i: nat)
    requires ByDistinctMembers(c, sigs) && |sigs| > 0 && |nodes| == 2 * |sigs| - 1
    requires |sigs| - 1 <= i < |nodes| && AllAboveFail(g, c, nodes, i) && !Verifies(g, c, nodes[i])
    ensures SumMatchesUnder(g, c, sigs, nodes, i)
  {
    var bits := UnblamedUnder(g, c, nodes, |sigs|, i);
    var p := i - (|sigs| - 1);
    LeafAlone(|sigs|, p);
    assert Blamed(g, c, nodes, |sigs|, p);
    assert forall q :: 0 <= q < |sigs| ==> bits[q] ==> LeavesUnder(|sigs|, i)[q];
    assert NoneSet(bits);
    SumOfNone(g, bits, Given(sigs));
    SumOfNone(g, bits, Expected(c, sigs));
  }

  lemma SumMatchesUnderInner<G(!new)>(g: Group<G>, c: Committee<G>, sigs: seq<Signed<G>>,
                                      nodes: seq<TreeNode<G>>, i: nat)
    requires Commutative(g) && ByDistinctMembers(c, sigs) && |sigs| > 0 && |nodes| == 2 * |sigs| - 1
    requires i < |sigs| - 1
    requires SumMatchesUnder(g, c, sigs, nodes, 2 * i + 1) && SumMatchesUnder(g, c, sigs, nodes, 2 * i + 2)
    ensures SumMatchesUnder(g, c, sigs, nodes, i)
  {
    var n := |sigs|;
    var bits, l, r := UnblamedUnder(g, c, nodes, n, i), UnblamedUnder(g, c, nodes, n, 2 * i + 1),
                      UnblamedUnder(g, c, nodes, n, 2 * i + 2);
    UnblamedSplit(g, c, nodes, n, i);
    SumOfSplit(g, bits, l, r, Given(sigs));
    SumOfSplit(g, bits, l, r, Expected(c, sigs));
  }

  /** The signatures that are not reported add up to what their signers should have
      produced, even when invalid signatures among them cancel out. */
  lemma {:induction false} UnblamedSumMatches<G(!new)>(g: Group<G>, c: Committee<G>, sigs: seq<Signed<G>>,
                                                       nodes: seq<TreeNode<G>>, i: nat)
    requires Commutative(g) && ByDistinctMembers(c, sigs) && IsHeap(g, c, sigs, nodes)
    requires i < |nodes| && AllAboveFail(g, c, nodes, i)
    ensures SumMatchesUnder(g, c, sigs, nodes, i)
    decreases |nodes| - i
  {
    if Verifies(g, c, nodes[i]) {
      SumMatchesUnderVerified(g, c, sigs, nodes, i);
    } else if i >= |sigs| - 1 {
      SumMatchesUnderLeaf(g, c, sigs, nodes, i);
    } else {
      forall child | child == 2 * i + 1 || child == 2 * i + 2
        ensures SumMatchesUnder(g, c, sigs, nodes, child)
      {
        AboveChild(g, c, nodes, i, child);
        UnblamedSumMatches(g, c, sigs, nodes, child);
      }
      SumMatchesUnderInner(g, c, sigs, nodes, i);
    }
  }

  lemma UnblamedSplit<G>(g: Group<G>, c: Committee<G>, nodes: seq<TreeNode<G>>, n: nat, i: nat)
    requires c.Valid() && n > 0 && |nodes| == 2 * n - 1 && i < n - 1
    ensures Splits(UnblamedUnder(g, c, nodes, n, i),
                   UnblamedUnder(g, c, nodes, n, 2 * i + 1), UnblamedUnder(g, c, nodes, n, 2 * i + 2))
  {
    var x, a, b := UnblamedUnder(g, c, nodes, n, i),
                   UnblamedUnder(g, c, nodes, n, 2 * i + 1), UnblamedUnder(g, c, nodes, n, 2 * i + 2);
    forall p | 0 <= p < n
      ensures x[p] == (a[p] || b[p]) && !(a[p] && b[p])
    {
      UnderChildren(i, n - 1 + p);
    }
  }

  ghost predicate NobodyBlamed<G>(g: Group<G>, c: Committee<G>, nodes: seq<TreeNode<G>>, n: nat)
    requires c.Valid() && |nodes| == 2 * n - 1
  {
    forall p :: 0 <= p < n ==> !Blamed(g, c, nodes, n, p)
  }

  /** If the whole aggregate verifies, nobody is reported. */
  lemma VerifiedRootBlamesNobody<G>(g: Group<G>, c: Committee<G>, nodes: seq<TreeNode<G>>, n: nat)
    requires c.Valid() && n > 0 && |nodes| == 2 * n - 1 && Verifies(g, c, nodes[0])
    ensures NobodyBlamed(g, c, nodes, n)
  {
    forall p | 0 <= p < n
      ensures !Blamed(g, c, nodes, n, p)
    {
      UnderRoot(n - 1 + p);
    }
  }

  lemma UnblamedRootMatches<G(!new)>(g: Group<G>, c: Committee<G>, sigs: seq<Signed<G>>, nodes: seq<TreeNode<G>>)
    requires Commutative(g) && ByDistinctMembers(c, sigs) && IsHeap(g, c, sigs, nodes)
    requires NobodyBlamed(g, c, nodes, |sigs|)
    ensures nodes[0].sig == SumBits(g, nodes[0].signers, c.keys) && |c.ids| <= MAX_SIGNERS_LEN
  {
    var n := |sigs|;
    assert Aggregates(g, c, sigs, LeavesUnder(n, 0), nodes[0]);
    assert AllAboveFail(g, c, nodes, 0);
    UnblamedSumMatches(g, c, sigs, nodes, 0);
    assert UnblamedUnder(g, c, nodes, n, 0) == LeavesUnder(n, 0);
    assert !Blamed(g, c, nodes, n, 0);
  }

  /** The aggregate verifies exactly when the search reports nobody and the aggregate key of the
      signers, which the caller can compute beforehand, is not infinity. */
  lemma NobodyBlamedIffVerifies<G(!new)>(g: Group<G>, c: Committee<G>, sigs: seq<Signed<G>>, nodes: seq<TreeNode<G>>)
    requires Commutative(g) && ByDistinctMembers(c, sigs) && IsHeap(g, c, sigs, nodes)
    ensures |nodes[0].signers| == |c.keys|
    ensures Verifies(g, c, nodes[0]) <==>
            NobodyBlamed(g, c, nodes, |sigs|) && SumBits(g, nodes[0].signers, c.keys) != g.zero
  {
    var n := |sigs|;
    assert Aggregates(g, c, sigs, LeavesUnder(n, 0), nodes[0]);
    if Verifies(g, c, nodes[0]) {
      VerifiedRootBlamesNobody(g, c, nodes, n);
    }
    if NobodyBlamed(g, c, nodes, n) {
      UnblamedRootMatches(g, c, sigs, nodes);
      assert sigs[0].who in c.ids;
    }
  }

  /** Otherwise the equivalence fails on honest signatures: everyone signs correctly, the search
      reports nobody, and yet the aggregate does not verify because its key is infinity. */
  lemma InfinityKeyEscapesSearch<G(!new)>(g: Group<G>, c: Committee<G>, sigs: seq<Signed<G>>, nodes: seq<TreeNode<G>>)
    requires Commutative(g) && ByDistinctMembers(c, sigs) && IsHeap(g, c, sigs, nodes)
    requires |c.ids| <= MAX_SIGNERS_LEN
    requires forall p :: 0 <= p < |sigs| ==> sigs[p].sig == Expected(c, sigs)[p] != g.zero
    requires SumBits(g, nodes[0].signers, c.keys) == g.zero
    ensures NobodyBlamed(g, c, nodes, |sigs|) && !Verifies(g, c, nodes[0])
  {
    var n := |sigs|;
    forall p | 0 <= p < n
      ensures !Blamed(g, c, nodes, n, p)
    {
      HonestLeafVerifies(g, c, sigs, nodes, p);
      assert Under(n - 1 + p, n - 1 + p);
    }
    assert sigs[0].who in c.ids;
  }

  lemma PairRoot<G(!new)>(g: Group<G>, c: Committee<G>, sigs: seq<Signed<G>>) returns (root: TreeNode<G>)
    requires Commutative(g) && ByDistinctMembers(c, sigs) && |sigs| == 2
    ensures Aggregates(g, c, sigs, LeavesUnder(2, 0), root)
  {
    LeafAggregates(g, c, sigs, 0);
    LeafAggregates(g, c, sigs, 1);
    LeavesSplit(2, 0);
    var left, right := LeafNode(g, c, sigs[0]), LeafNode(g, c, sigs[1]);
    MergeAggregates(g, c, sigs, LeavesUnder(2, 0), LeavesUnder(2, 1), LeavesUnder(2, 2), left, right);
    root := MergeNodes(g, left, right);
  }

  /** Two members whose keys cancel, each signing correctly. */
  lemma CancellingPair<G(!new)>(g: Group<G>, c: Committee<G>, sigs: seq<Signed<G>>)
    requires Commutative(g) && ByDistinctMembers(c, sigs) && |sigs| == 2 && |c.ids| <= MAX_SIGNERS_LEN
    requires forall p :: 0 <= p < 2 ==> sigs[p].sig == Expected(c, sigs)[p] != g.zero
    requires g.add(Expected(c, sigs)[0], Expected(c, sigs)[1]) == g.zero
    ensures exists nodes :: PassesUnverified(g, c, sigs, nodes)
  {
    var root := PairRoot(g, c, sigs);
    var nodes := [root, LeafNode(g, c, sigs[0]), LeafNode(g, c, sigs[1])];
    LeafAggregates(g, c, sigs, 0);
    LeafAggregates(g, c, sigs, 1);
    assert LeavesUnder(2, 0) == [true, true] by {
      AllUnderRoot(2);
    }
    SumOfPair(g, Expected(c, sigs));
    InfinityKeyEscapesSearch(g, c, sigs, nodes);
    assert PassesUnverified(g, c, sigs, nodes);
  }

  lemma SumOfPair<G(!new)>(g: Group<G>, vals: seq<G>)
    requires Commutative(g) && |vals| == 2
    ensures SumBits(g, [true, true], vals) == g.add(vals[0], vals[1])
  {
    var bits := [true, true];
    assert SumBits(g, bits, vals) == g.add(SumBits(g, bits[..1], vals[..1]), vals[1]);
    assert SumBits(g, bits[..1], vals[..1]) == g.add(g.zero, vals[0]) by {
      assert bits[..1][..0] == [];
    }
    assert UnitAt(g, vals[0]);
  }

  const CANCELLING_COMMITTEE := Committee([7, 8], [1, -1])
  const CANCELLING_SIGNATURES := [Signed(7, 1), Signed(8, -1)]

  lemma CancellingKeys()
    ensures ByDistinctMembers(CANCELLING_COMMITTEE, CANCELLING_SIGNATURES)
    ensures Expected(CANCELLING_COMMITTEE, CANCELLING_SIGNATURES)[0] == 1
    ensures Expected(CANCELLING_COMMITTEE, CANCELLING_SIGNATURES)[1] == -1
  {
    assert Position([7, 8], 7) == 0 && Position([7, 8], 8) == 1;
  }

  lemma InfinityKeyExample()
    ensures exists nodes :: PassesUnverified(Group(0, Plus), CANCELLING_COMMITTEE, CANCELLING_SIGNATURES, nodes)
  {
    PlusIsCommutative();
    CancellingKeys();
    CancellingPair(Group(0, Plus), CANCELLING_COMMITTEE, CANCELLING_SIGNATURES);
  }

  function Plus(a: int, b: int): int {
    a + b
  }

  lemma PlusIsCommutative()
    ensures Commutative(Group(0, Plus))
  {
  }

  /** The search reports nobody although the aggregate does not verify. */
  ghost predicate PassesUnverified<G(!new)>(g: Group<G>, c: Committee<G>, sigs: seq<Signed<G>>, nodes: seq<TreeNode<G>>) {
    && Commutative(g) && ByDistinctMembers(c, sigs) && IsHeap(g, c, sigs, nodes)
    && NobodyBlamed(g, c, nodes, |sigs|) && !Verifies(g, c, nodes[0])
  }

  lemma HonestLeafVerifies<G(!new)>(g: Group<G>, c: Committee<G>, sigs: seq<Signed<G>>, nodes: seq<TreeNode<G>>, p: nat)
    requires Commutative(g) && ByDistinctMembers(c, sigs) && IsHeap(g, c, sigs, nodes) && p < |sigs|
    requires |c.ids| <= MAX_SIGNERS_LEN
    ensures Verifies(g, c, nodes[|sigs| - 1 + p]) <==>
            sigs[p].sig == Expected(c, sigs)[p] && Expected(c, sigs)[p] != g.zero
  {
    var k := c.IndexOf(sigs[p].who);
    var node := nodes[|sigs| - 1 + p];
    assert node == LeafNode(g, c, sigs[p]);
    assert OneHot(node.signers, k);
    SumOfOne(g, node.signers, c.keys, k);
    assert UnitAt(g, sigs[p].sig);
  }

  // ----- AggregationTree::verify -----

  /** `Panicked` is a failing leaf without a signer. */
  datatype VerifyResult<G> = Verified(node: TreeNode<G>) | Invalid(sigs: seq<Signed<G>>) | Panicked

  /** `list` holds, once each, exactly the reported signatures among the leaves outside `pending`. */
  ghost predicate ListsBlamed<G>(g: Group<G>, c: Committee<G>, sigs: seq<Signed<G>>, nodes: seq<TreeNode<G>>,
                                 pending: set<nat>, list: seq<Signed<G>>)
    requires c.Valid() && |nodes| == 2 * |sigs| - 1
  {
    && (forall a, b :: 0 <= a < b < |list| ==> list[a] != list[b])
    && (forall p :: 0 <= p < |sigs| && |sigs| - 1 + p !in pending ==>
          (Blamed(g, c, nodes, |sigs|, p) <==> sigs[p] in list))
    && (forall a :: 0 <= a < |list| ==> BlamedSig(g, c, sigs, nodes, pending, list[a]))
  }

  ghost predicate BlamedSig<G>(g: Group<G>, c: Committee<G>, sigs: seq<Signed<G>>, nodes: seq<TreeNode<G>>,
                               pending: set<nat>, s: Signed<G>)
    requires c.Valid() && |nodes| == 2 * |sigs| - 1
  {
    exists p :: 0 <= p < |sigs| && sigs[p] == s && |sigs| - 1 + p !in pending && Blamed(g, c, nodes, |sigs|, p)
  }

  /** The heap positions still to be examined: everything below a queued node. */
  ghost function Pending(queue: seq<nat>, size: nat): set<nat> {
    set k | 0 <= k < size && InSomeSubtree(queue, k)
  }

  ghost predicate InSomeSubtree(queue: seq<nat>, k: nat) {
    exists a :: 0 <= a < |queue| && Under(queue[a], k)
  }

  /** Queued subtrees do not overlap, and nothing above a queued node verifies. */
  ghost predicate QueueOk<G>(g: Group<G>, c: Committee<G>, nodes: seq<TreeNode<G>>, queue: seq<nat>)
    requires c.Valid()
  {
    && (forall a :: 0 <= a < |queue| ==> queue[a] < |nodes| && AllAboveFail(g, c, nodes, queue[a]))
    && (forall a, b, k :: 0 <= a < b < |queue| && Under(queue[a], k) ==> !Under(queue[b], k))
  }

  lemma PopPending(queue: seq<nat>, size: nat, k: nat)
    requires |queue| > 0
    ensures InSomeSubtree(queue, k) <==> Under(queue[0], k) || InSomeSubtree(queue[1..], k)
  {
    if InSomeSubtree(queue, k) {
      var a :| 0 <= a < |queue| && Under(queue[a], k);
      assert a > 0 ==> Under(queue[1..][a - 1], k);
    }
    if InSomeSubtree(queue[1..], k) {
      var a :| 0 <= a < |queue| - 1 && Under(queue[1..][a], k);
      assert Under(queue[a + 1], k);
    }
  }

  lemma PushPending(queue: seq<nat>, l: nat, r: nat, k: nat)
    ensures InSomeSubtree(queue + [l, r], k) <==> InSomeSubtree(queue, k) || Under(l, k) || Under(r, k)
  {
    var queue' := queue + [l, r];
    assert queue'[|queue|] == l && queue'[|queue| + 1] == r;
    if InSomeSubtree(queue, k) {
      var a :| 0 <= a < |queue| && Under(queue[a], k);
      assert Under(queue'[a], k);
    }
  }

  /** Replacing the front of the queue by its children. */
  lemma ExpandFront<G>(g: Group<G>, c: Committee<G>, nodes: seq<TreeNode<G>>, queue: seq<nat>)
    requires c.Valid() && |queue| > 0 && QueueOk(g, c, nodes, queue)
    requires 2 * queue[0] + 2 < |nodes| && !Verifies(g, c, nodes[queue[0]])
    ensures QueueOk(g, c, nodes, queue[1..] + [2 * queue[0] + 1, 2 * queue[0] + 2])
    ensures Pending(queue[1..] + [2 * queue[0] + 1, 2 * queue[0] + 2], |nodes|) == Pending(queue, |nodes|) - {queue[0]}
  {
    var i, l, r := queue[0], 2 * queue[0] + 1, 2 * queue[0] + 2;
    var tail := queue[1..];
    var queue' := tail + [l, r];
    AboveChild(g, c, nodes, i, l);
    AboveChild(g, c, nodes, i, r);
    forall a, b, k | 0 <= a < b < |queue'| && Under(queue'[a], k)
      ensures !Under(queue'[b], k)
    {
      UnderChildren(i, k);
      if a < |tail| {
        assert queue'[a] == queue[a + 1];
        assert b < |tail| ==> queue'[b] == queue[b + 1];
        assert !Under(queue[0], k);
      }
    }
    forall k | 0 <= k < |nodes|
      ensures k in Pending(queue', |nodes|) <==> k in Pending(queue, |nodes|) - {i}
    {
      PopPending(queue, |nodes|, k);
      PushPending(tail, l, r, k);
      UnderChildren(i, k);
    }
  }

  /** Dropping the front of the queue. */
  lemma DropFront<G>(g: Group<G>, c: Committee<G>, nodes: seq<TreeNode<G>>, queue: seq<nat>)
    requires c.Valid() && |queue| > 0 && QueueOk(g, c, nodes, queue)
    ensures QueueOk(g, c, nodes, queue[1..])
    ensures forall k :: 0 <= k < |nodes| ==>
              (k in Pending(queue[1..], |nodes|) <==> k in Pending(queue, |nodes|) && !Under(queue[0], k))
    ensures queue[0] in Pending(queue, |nodes|) && queue[0] !in Pending(queue[1..], |nodes|)
  {
    var tail := queue[1..];
    forall a, b, k | 0 <= a < b < |tail| && Under(tail[a], k)
      ensures !Under(tail[b], k)
    {
      assert tail[a] == queue[a + 1] && tail[b] == queue[b + 1];
    }
    forall k | 0 <= k < |nodes|
      ensures k in Pending(tail, |nodes|) <==> k in Pending(queue, |nodes|) && !Under(queue[0], k)
    {
      PopPending(queue, |nodes|, k);
      if InSomeSubtree(tail, k) {
        var a :| 0 <= a < |tail| && Under(tail[a], k);
        assert queue[a + 1] == tail[a];
      }
    }
    assert Under(queue[0], queue[0]) && InSomeSubtree(queue, queue[0]);
  }
}
