/** Whole runs of blocksync: any sequence of requests, cancellations, answers and timeouts. */
module BlockSyncRuns {
  import opened Collections
  import opened ConsensusTypes
  import opened BlockSyncModel
  import opened BlockSyncSteps
  import opened BlockSyncs
  import opened BlockSyncRelation
  import opened BlockSyncProgress
  import opened BlockSyncPeers

  datatype Run = Start | Then(before: Run, event: Event, out: seq<Command>, state: State)

  function Last(run: Run): State {
    match run case Start => InitialState() case Then(_, _, _, s) => s
  }

  function Events(run: Run): seq<Event> {
    match run case Start => [] case Then(before, e, _, _) => Events(before) + [e]
  }

  /** Every command issued so far, in order. */
  function Log(run: Run): seq<Command> {
    match run case Start => [] case Then(before, _, out, _) => Log(before) + out
  }

  /** A step is defined where the core invariant holds, which `RunsRest` shows it always does. */
  ghost predicate IsRun(run: Run) {
    match run
    case Start => true
    case Then(before, e, out, s) =>
      IsRun(before) && EventOk(e) && CoreInv(Last(before).core) && Step(Last(before), e, out, s)
  }

  lemma InitialRests()
    ensures StateOk(InitialState())
  {
    EmptyCoreRests(StateSync, InitialState().env);
    forall r
      ensures BalancedAt(Tracked(InitialState().core), InitialState().env.emitted, InitialState().books, r)
    {
    }
  }

  lemma {:induction false} RunsRest(run: Run)
    requires IsRun(run)
    ensures StateOk(Last(run))
  {
    match run
    case Start => InitialRests();
    case Then(before, e, out, s) =>
      RunsRest(before);
      StepKeepsOk(Last(before), e, out, s);
  }

  /** After every run: each header request and each initiated body request has an armed timer or an
      unanswered ledger fetch; the in-flight count is exact, at most ten, and ten unless nothing
      waits; a range is in one map only; every missing body is requested; no filled range waits. */
  lemma NothingIsStranded(run: Run)
    requires IsRun(run)
    ensures var s, env := Last(run).core, Last(run).env;
            && (forall r :: r in s.headers ==>
                  HeadersRequest(r) in env.timers || (s.headers[r].to.None? && HeadersRequest(r) in env.ledger))
            && (forall p :: p in s.payloads && s.payloads[p].Some? ==>
                  PayloadRequest(p) in env.timers || (s.payloads[p].value.to.None? && PayloadRequest(p) in env.ledger))
            && s.inFlight == |Initiated(s.payloads)| <= 10
            && (s.inFlight < 10 ==> forall p :: p in s.payloads ==> s.payloads[p].Some?)
            && s.headers.Keys !! s.completed.Keys
            && (forall r :: r in s.completed ==> !Filled(s.completed[r]) && Wanted(s.completed[r], s.payloads))
  {
    RunsRest(run);
  }

  // ----- Every accepted request is accounted for -----

  function AcceptedIn(run: Run, r: BlockRange): nat {
    match run
    case Start => 0
    case Then(before, e, _, _) => AcceptedIn(before, r) + if Accepts(Last(before).core, e, r) then 1 else 0
  }

  function CancelledIn(run: Run, r: BlockRange): nat {
    match run
    case Start => 0
    case Then(before, e, _, _) => CancelledIn(before, r) + if Cancels(Last(before).core, e, r) then 1 else 0
  }

  function ClearedIn(run: Run, r: BlockRange): nat {
    match run
    case Start => 0
    case Then(before, e, _, _) => ClearedIn(before, r) + if Clears(Last(before).core, e, r) then 1 else 0
  }

  /** In every run the last event decides what becomes of a range. */
  lemma LastEventDecides(run: Run, r: BlockRange)
    requires IsRun(run) && run.Then?
    ensures Fate(Last(run.before).core, run.event, run.out, Last(run).core, r)
    ensures Booked(Last(run.before), run.event, run.out, Last(run), r)
  {
    RunsRest(run.before);
    StepDecidesFate(Last(run.before), run.event, run.out, run.state, r);
  }

  /** The ghost books of `r` count nothing but events. */
  ghost predicate Counted(run: Run, r: BlockRange) {
    var s := Last(run);
    && s.books.accepted[r] == AcceptedIn(run, r) && s.books.cancelled[r] == CancelledIn(run, r)
    && s.books.cleared[r] == ClearedIn(run, r) && s.env.emitted[r] == Emits(Log(run))[r]
  }

  lemma CountOneMore(run: Run, r: BlockRange)
    requires run.Then? && Counted(run.before, r) && Booked(Last(run.before), run.event, run.out, Last(run), r)
    ensures Counted(run, r)
  {
    EmitsConcat(Log(run.before), run.out);
  }

  lemma {:induction false} BooksCountEvents(run: Run, r: BlockRange)
    requires IsRun(run)
    ensures Counted(run, r)
  {
    if run.Then? {
      BooksCountEvents(run.before, r);
      LastEventDecides(run, r);
      CountOneMore(run, r);
    }
  }

  /** Over every run, as often as a range was accepted it was emitted, cancelled by its requester or
      cleared by a change of requester, or it is tracked still. */
  lemma RequestsAreAccountedFor(run: Run, r: BlockRange)
    requires IsRun(run)
    ensures AcceptedIn(run, r) == Emits(Log(run))[r] + CancelledIn(run, r) + ClearedIn(run, r)
                                  + if r in Tracked(Last(run).core) then 1 else 0
  {
    RunsRest(run);
    BooksCountEvents(run, r);
    var s := Last(run);
    assert BalancedAt(Tracked(s.core), s.env.emitted, s.books, r);
  }

  predicate IsPrefix(early: Run, run: Run) {
    early == run || (run.Then? && IsPrefix(early, run.before))
  }

  /** A tracked range stays tracked until it is emitted, cancelled or cleared. */
  lemma {:induction false} TrackedUntilEnded(early: Run, run: Run, r: BlockRange)
    requires IsRun(run) && IsPrefix(early, run) && r in Tracked(Last(early).core)
    requires Emits(Log(run))[r] == Emits(Log(early))[r]
    requires CancelledIn(run, r) == CancelledIn(early, r) && ClearedIn(run, r) == ClearedIn(early, r)
    ensures r in Tracked(Last(run).core)
  {
    PrefixIsRun(early, run);
    CountsGrow(early, run, r);
    RequestsAreAccountedFor(early, r);
    RequestsAreAccountedFor(run, r);
  }

  lemma {:induction false} PrefixIsRun(early: Run, run: Run)
    requires IsRun(run) && IsPrefix(early, run)
    ensures IsRun(early)
  {
    if early != run {
      PrefixIsRun(early, run.before);
    }
  }

  lemma {:induction false} CountsGrow(early: Run, run: Run, r: BlockRange)
    requires IsPrefix(early, run)
    ensures AcceptedIn(early, r) <= AcceptedIn(run, r)
  {
    if early != run {
      CountsGrow(early, run.before, r);
    }
  }

  // ----- Everything sent is sound -----

  lemma {:induction false} RunsAreSound(run: Run)
    requires IsRun(run)
    ensures AllSound(Log(run))
  {
    match run
    case Start =>
    case Then(before, e, out, s) =>
      RunsAreSound(before);
      RunsRest(before);
      StepIsSound(Last(before), e, out, s);
  }

  /** Two Emits for one range carry the same blocks, in any two runs, whoever supplied the parts. */
  lemma EmitsAgree(a: Run, b: Run, i: nat, j: nat)
    requires IsRun(a) && IsRun(b) && i < |Log(a)| && j < |Log(b)|
    requires Log(a)[i].Emit? && Log(b)[j].Emit? && Log(a)[i].range == Log(b)[j].range
    ensures Log(a)[i].blocks == Log(b)[j].blocks
  {
    RunsAreSound(a);
    RunsAreSound(b);
    assert Sound(Log(a)[i]) && Sound(Log(b)[j]);
    EmittedBlocksDetermined(Log(a)[i].range, Log(a)[i].blocks, Log(b)[j].blocks);
  }

  // ----- Peers -----

  ghost predicate Requested(run: Run, who: NodeId, request: Request) {
    exists e :: e in Events(run) && IsRequest(e, who, request)
  }

  lemma RequestedThen(run: Run, who: NodeId, request: Request)
    requires run.Then? && (Requested(run.before, who, request) || IsRequest(run.event, who, request))
    ensures Requested(run, who, request)
  {
    if Requested(run.before, who, request) {
      var e :| e in Events(run.before) && IsRequest(e, who, request);
      assert e in Events(run);
    } else {
      assert run.event in Events(run);
    }
  }

  lemma {:induction false} WaitingWasRequested(run: Run, who: NodeId, request: Request)
    requires IsRun(run) && WaitsFor(Last(run).peers, who, request)
    ensures Requested(run, who, request)
  {
    if run.Then? {
      StepWaitsFor(Last(run.before), run.event, run.out, run.state, who, request);
      if !IsRequest(run.event, who, request) {
        WaitingWasRequested(run.before, who, request);
      }
      RequestedThen(run, who, request);
    }
  }

  ghost predicate AnswerRequested(run: Run, c: Command) {
    c.SendResponse? ==> Requested(run, c.to, AnsweredRequest(c.response))
  }

  /** Over every run, each answer sent is to a peer that had asked for exactly that range or body. */
  lemma {:induction false} AnswersWereRequested(run: Run)
    requires IsRun(run)
    ensures forall i :: 0 <= i < |Log(run)| ==> AnswerRequested(run, Log(run)[i])
  {
    if run.Then? {
      AnswersWereRequested(run.before);
      forall c | c in Log(run.before)
        ensures AnswerRequested(run, c)
      {
        assert AnswerRequested(run.before, c);
        AnswerRequestedThen(run, c);
      }
      forall i | 0 <= i < |run.out|
        ensures AnswerRequested(run, run.out[i])
      {
        LastAnswersWereRequested(run, i);
      }
    }
  }

  lemma AnswerRequestedThen(run: Run, c: Command)
    requires run.Then? && AnswerRequested(run.before, c)
    ensures AnswerRequested(run, c)
  {
    if c.SendResponse? {
      RequestedThen(run, c.to, AnsweredRequest(c.response));
    }
  }

  lemma LastAnswersWereRequested(run: Run, i: nat)
    requires IsRun(run) && run.Then? && i < |run.out|
    ensures AnswerRequested(run, run.out[i])
  {
    var c := run.out[i];
    RunsRest(run.before);
    StepAnswersRequests(Last(run.before), run.event, run.out, run.state, i);
    if c.SendResponse? {
      if !IsRequest(run.event, c.to, AnsweredRequest(c.response)) {
        WaitingWasRequested(run.before, c.to, AnsweredRequest(c.response));
      }
      RequestedThen(run, c.to, AnsweredRequest(c.response));
    }
  }

  /** Since it asked, the peer has asked for other headers. */
  ghost predicate AskedAnew(run: Run, who: NodeId, request: Request) {
    exists e :: e in Events(run) && AsksAnew(e, who, request)
  }

  /** What has become of a request of a peer. */
  ghost predicate Served(run: Run, who: NodeId, request: Request) {
    || Answered(Log(run), who, request)
    || WaitsFor(Last(run).peers, who, request)
    || AskedAnew(run, who, request)
  }

  lemma AnsweredThen(a: seq<Command>, b: seq<Command>, who: NodeId, request: Request)
    requires Answered(a, who, request) || Answered(b, who, request)
    ensures Answered(a + b, who, request)
  {
    if Answered(a, who, request) {
      var c :| c in a && c.SendResponse? && c.to == who && AnsweredRequest(c.response) == request;
      assert c in a + b;
    } else {
      var c :| c in b && c.SendResponse? && c.to == who && AnsweredRequest(c.response) == request;
      assert c in a + b;
    }
  }

  lemma AskedAnewThen(run: Run, who: NodeId, request: Request)
    requires run.Then? && (AskedAnew(run.before, who, request) || AsksAnew(run.event, who, request))
    ensures AskedAnew(run, who, request)
  {
    if AskedAnew(run.before, who, request) {
      var e :| e in Events(run.before) && AsksAnew(e, who, request);
      assert e in Events(run);
    } else {
      assert run.event in Events(run);
    }
  }

  lemma ServedThen(run: Run, who: NodeId, request: Request)
    requires IsRun(run) && run.Then? && Served(run.before, who, request)
    ensures Served(run, who, request)
  {
    if Answered(Log(run.before), who, request) {
      AnsweredThen(Log(run.before), run.out, who, request);
    } else if AskedAnew(run.before, who, request) {
      AskedAnewThen(run, who, request);
    } else {
      NobodyIsForgotten(Last(run.before), run.event, run.out, run.state, who, request);
      if Answered(run.out, who, request) {
        AnsweredThen(Log(run.before), run.out, who, request);
      } else if AsksAnew(run.event, who, request) {
        AskedAnewThen(run, who, request);
      }
    }
  }

  /** Over every run, whoever asked for a body or for a range that is not empty has been answered,
      waits for the ledger, or has asked for other headers since. */
  lemma {:induction false} EveryPeerIsServed(run: Run, who: NodeId, request: Request)
    requires IsRun(run) && Requested(run, who, request)
    requires request.HeadersRequest? ==> request.range.numBlocks > 0
    ensures Served(run, who, request)
  {
    if run.Then? {
      RequestedBeforeOrNow(run, who, request);
      if Requested(run.before, who, request) {
        EveryPeerIsServed(run.before, who, request);
        ServedThen(run, who, request);
      } else {
        EveryRequestIsHeard(Last(run.before), run.event, run.out, run.state);
        if Answered(run.out, who, request) {
          AnsweredThen(Log(run.before), run.out, who, request);
        }
      }
    }
  }

  lemma RequestedBeforeOrNow(run: Run, who: NodeId, request: Request)
    requires run.Then? && Requested(run, who, request)
    ensures Requested(run.before, who, request) || IsRequest(run.event, who, request)
  {
    var e :| e in Events(run) && IsRequest(e, who, request);
    assert e in Events(run.before) || e == run.event;
  }

  // ----- Own requests -----

  /** Over every run, a request that is with a peer was sent to that peer. */
  lemma {:induction false} PeersWereAsked(run: Run, q: Request, who: NodeId)
    requires IsRun(run) && SentTo(Last(run).core, q) == Some(Some(who))
    ensures SendRequest(who, q) in Log(run)
  {
    if run.Then? {
      var s := Last(run.before);
      StepTargets(s, run.event, run.out, run.state, q);
      StepAsks(s, run.event, run.out, run.state, who, q);
      if MustRetry(s.core, run.event, q) {
        assert SendRequest(who, q) in run.out;
      } else {
        PeersWereAsked(run.before, q, who);
      }
    }
  }

  /** After every run, no body is asked for that some range has kept. */
  lemma {:induction false} NothingKeptIsAskedFor(run: Run)
    requires IsRun(run)
    ensures Unheld(Last(run).core)
  {
    if run.Then? {
      NothingKeptIsAskedFor(run.before);
      StepKeepsUnheld(Last(run.before), run.event, run.out, run.state);
    }
  }

  /** In every run the last response decides which bodies are asked for. */
  lemma LastResponseDecides(run: Run, p: BodyId)
    requires IsRun(run) && run.Then? && IsResponse(run.event)
    ensures var s, e := Last(run.before).core, run.event;
            p in Last(run).core.payloads <==>
              && (p in s.payloads || BringsHeaderOf(s, e, p)) && !BringsBody(s, e, p)
              && !(IsUsed(s, e) && AtHand(s, e.cache, p))
  {
    NothingKeptIsAskedFor(run.before);
    BodyRequestsLeft(Last(run.before), run.event, run.out, run.state, p);
  }

  // ----- The handlers make these runs -----

  ghost function StateOf(sync: BlockSync): State
    reads sync
  {
    State(sync.Abs(), sync.env, sync.books, sync.PeersNow())
  }

  /** One event handled is one step. */
  method Handle(sync: BlockSync, e: Event) returns (cmds: seq<Command>)
    requires sync.Valid() && EventOk(e)
    modifies sync
    ensures sync.Valid()
    ensures Step(old(StateOf(sync)), e, cmds, StateOf(sync))
  {
    match e
    case SelfRequestEvent(requester, range) =>
      cmds := sync.HandleSelfRequest(requester, range);
    case CancelEvent(requester, range) =>
      sync.HandleSelfCancelRequest(requester, range);
      cmds := [];
    case PeerRequestEvent(from, request, cache) =>
      cmds := sync.HandlePeerRequest(from, request, cache);
    case LedgerEvent(response, cache, peer) =>
      cmds := HandleLedger(sync, response, cache, peer);
    case PeerResponseEvent(from, response, cache, peer) =>
      cmds := sync.HandlePeerResponse(from, response, cache, peer);
    case TimeoutEvent(request, peer) =>
      cmds := sync.HandleTimeout(request, peer);
  }

  method HandleLedger(sync: BlockSync, response: Response, cache: BlockCache, peer: Option<NodeId>)
    returns (cmds: seq<Command>)
    requires sync.Valid() && EventOk(LedgerEvent(response, cache, peer))
    modifies sync
    ensures sync.Valid()
    ensures Step(old(StateOf(sync)), LedgerEvent(response, cache, peer), cmds, StateOf(sync))
  {
    ghost var s := StateOf(sync);
    ghost var k;
    cmds, k := sync.HandleLedgerResponse(response, cache, peer);
    LedgerIsStep(s, response, cache, peer, cmds, k, StateOf(sync));
  }

  lemma LedgerIsStep(s: State, response: Response, cache: BlockCache, peer: Option<NodeId>, cmds: seq<Command>, k: nat, s': State)
    requires CoreInv(s.core) && EventOk(LedgerEvent(response, cache, peer)) && s'.books == s.books
    requires Responded(s.core, None, response, cache, peer, s'.core)
    requires s'.env == AfterAll(LedgerAnswered(s.env, AnsweredRequest(response)), cmds)
    requires k <= |cmds| && PeersAnswered(s.peers, response, cmds[..k], s'.peers)
    requires ResponseSays(s.core, None, response, cache, peer, s'.core, cmds[k..])
    ensures Step(s, LedgerEvent(response, cache, peer), cmds, s')
  {
    EnvSkipsAnswers(LedgerAnswered(s.env, AnsweredRequest(response)), cmds, k);
    assert LedgerStep(s, response, cache, peer, cmds[..k], cmds[k..], s');
  }

  lemma EnvSkipsAnswers(env: Env, cmds: seq<Command>, k: nat)
    requires k <= |cmds| && GoodAnswers(cmds[..k])
    ensures AfterAll(env, cmds) == AfterAll(env, cmds[k..])
  {
    AnswersLeaveEnv(env, cmds[..k]);
    AfterPrefix(env, cmds[..k], cmds);
  }

  lemma EventsGrow(run: Run, events: seq<Event>, i: nat, out: seq<Command>, s: State)
    requires i < |events| && Events(run) == events[..i]
    ensures Events(Then(run, events[i], out, s)) == events[..i + 1]
  {
    assert events[..i + 1] == events[..i] + [events[i]];
  }

  /** Whatever events come, the handlers go through a run of exactly these events. */
  method RunEvents(events: seq<Event>) returns (sync: BlockSync, log: seq<Command>, ghost run: Run)
    requires forall i :: 0 <= i < |events| ==> EventOk(events[i])
    ensures fresh(sync) && sync.Valid()
    ensures IsRun(run) && Events(run) == events && Log(run) == log && Last(run) == StateOf(sync)
  {
    sync := new BlockSync();
    log := [];
    run := Start;
    for i := 0 to |events|
      invariant fresh(sync) && sync.Valid()
      invariant IsRun(run) && Events(run) == events[..i] && Log(run) == log && Last(run) == StateOf(sync)
    {
      var cmds := Handle(sync, events[i]);
      EventsGrow(run, events, i, cmds, StateOf(sync));
      run := Then(run, events[i], cmds, StateOf(sync));
      log := log + cmds;
    }
    assert events[..|events|] == events;
  }
}
