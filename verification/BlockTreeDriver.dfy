/** Sequences of calls on a BlockTree object are runs. */
module BlockTreeDriver {
  import opened ConsensusTypes
  import opened BlockForest
  import opened BlockTreeRuns
  import opened BlockTrees

  ghost function EventsOf(r: Run): seq<Event> {
    match r case Start(_) => [] case Then(before, e, _, _) => EventsOf(before) + [e]
  }

  /** Whatever tree the calls so far may have led to, the next call is allowed on it. */
  ghost predicate Permitted(root: RootInfo, events: seq<Event>) {
    forall r, k | IsRun(r) && Initial(r) == root && 0 <= k < |events| && EventsOf(r) == events[..k] ::
      Allowed(Last(r), events[k])
  }

  /** One allowed call is one step, no check fails, and the tree with its payload index stays
      valid. */
  method Call(tree: BlockTree, e: Event) returns (committed: seq<FullBlock>)
    requires tree.Valid() && Allowed(tree.Abs(), e)
    modifies tree, tree.tree
    ensures tree.Valid()
    ensures Step(old(tree.Abs()), e, tree.Abs(), committed)
  {
    committed := [];
    match e
    case Add(block) =>
      tree.Add(block);
    case UpdateCoherency(id, policy) =>
      var _ := tree.TryUpdateCoherency(id, policy);
    case Prune(newRoot) =>
      var r := tree.Prune(newRoot);
      committed := r.value;
  }

  lemma RunGrows(run: Run, events: seq<Event>, i: nat, f: Forest, out: seq<FullBlock>)
    requires IsRun(run) && i < |events| && EventsOf(run) == events[..i]
    requires Allowed(Last(run), events[i]) && Step(Last(run), events[i], f, out)
    ensures IsRun(Then(run, events[i], f, out)) && EventsOf(Then(run, events[i], f, out)) == events[..i + 1]
  {
    assert events[..i + 1] == events[..i] + [events[i]];
  }

  /** For every permitted sequence of calls the object goes through a run of exactly these calls,
      valid with its payload index at every point, and returns what the run commits. */
  method RunCalls(root: RootInfo, events: seq<Event>) returns (tree: BlockTree, committed: seq<FullBlock>, ghost run: Run)
    requires root.Consistent() && Permitted(root, events)
    ensures fresh(tree) && tree.Valid()
    ensures IsRun(run) && Initial(run) == root && EventsOf(run) == events
    ensures Last(run) == tree.Abs() && Committed(run) == committed
    ensures IsChain(root, committed) && tree.root == EndOf(root, committed)
  {
    tree := new BlockTree(root);
    committed := [];
    run := Start(root);
    for i := 0 to |events|
      invariant fresh(tree) && fresh(tree.tree) && tree.Valid()
      invariant IsRun(run) && Initial(run) == root && EventsOf(run) == events[..i]
      invariant Last(run) == tree.Abs() && Committed(run) == committed
    {
      var out := Call(tree, events[i]);
      RunGrows(run, events, i, tree.Abs(), out);
      run := Then(run, events[i], tree.Abs(), out);
      committed := committed + out;
    }
    assert events[..|events|] == events;
    RunsCommitOneChain(run);
  }
}
