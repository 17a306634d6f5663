/** One event of blocksync as a relation of states and commands, put together from what the
    handlers promise, and what every such step keeps. */
module BlockSyncRelation {
  import opened Collections
  import opened ConsensusTypes
  import opened BlockSyncModel
  import opened BlockSyncSteps
  import opened BlockSyncs

  datatype Event =
    | SelfRequestEvent(requester: Requester, range: BlockRange)
    | CancelEvent(requester: Requester, range: BlockRange)
    | PeerRequestEvent(from: NodeId, request: Request, cache: BlockCache)
    | LedgerEvent(response: Response, cache: BlockCache, peer: Option<NodeId>)
    | PeerResponseEvent(from: NodeId, response: Response, cache: BlockCache, peer: Option<NodeId>)
    | TimeoutEvent(request: Request, peer: Option<NodeId>)

  /** Caches file bodies under their ids and ledger headers verify; peers may send anything. */
  ghost predicate EventOk(e: Event) {
    match e
    case PeerRequestEvent(_, _, cache) => cache.Valid()
    case LedgerEvent(response, cache, _) =>
      cache.Valid() && (response.HeadersReply? ==> LedgerHeadersOk(response.headers))
    case PeerResponseEvent(_, _, cache, _) => cache.Valid()
    case _ => true
  }

  datatype State = State(core: Core, env: Env, books: Books, peers: Peers)

  function InitialState(): State {
    State(EmptyCore(StateSync), Env(multiset{}, {}, multiset{}), Books(multiset{}, multiset{}, multiset{}),
          Peers(map[], map[], map[]))
  }

  /** Every self request is attended, the scheduler is saturated, no filled range is held back,
      the books balance, and what is kept for a peer rebuilds what it asked for. */
  ghost predicate StateOk(s: State) {
    Resting(s.core, s.env, s.books) && Serving(s.peers.waiting, s.peers.asked)
  }

  // ----- The step relation -----

  /** A response handled for the node itself; `env` is the environment when it starts. */
  ghost predicate SelfResponds(s: Core, env: Env, sender: Option<NodeId>, response: Response, cache: BlockCache,
                               peer: Option<NodeId>, cmds: seq<Command>, s': Core, env': Env)
    requires CoreInv(s) && cache.Valid()
  {
    && Responded(s, sender, response, cache, peer, s')
    && ResponseSays(s, sender, response, cache, peer, s', cmds)
    && env' == AfterAll(env, cmds)
  }

  /** The answers to the peers that waited for what the ledger answered. */
  ghost predicate PeersAnswered(p: Peers, response: Response, cmds: seq<Command>, p': Peers) {
    && GoodAnswers(cmds)
    && p' == Unlisted(p, response)
    && match response
       case HeadersReply(h) => AnswersExactly(cmds, AskedFor(p.asked, h.range), h.HeadersFound?)
       case PayloadReply(b) => AnswersAll(cmds, b, WaitingFor(p.bodies, b.GetPayloadId()))
  }

  ghost predicate LedgerStep(s: State, response: Response, cache: BlockCache, peer: Option<NodeId>,
                             answers: seq<Command>, cmds: seq<Command>, s': State)
    requires CoreInv(s.core) && cache.Valid()
  {
    && PeersAnswered(s.peers, response, answers, s'.peers)
    && SelfResponds(s.core, LedgerAnswered(s.env, AnsweredRequest(response)), None, response, cache, peer, cmds, s'.core, s'.env)
    && s'.books == s.books
  }

  ghost predicate Step(s: State, e: Event, out: seq<Command>, s': State)
    requires CoreInv(s.core) && EventOk(e)
  {
    match e
    case SelfRequestEvent(requester, range) =>
      && out == RequestCommands(s.core, requester, range)
      && s' == State(SelfRequested(s.core, requester, range), AfterAll(s.env, out),
                     RequestBooks(s.books, s.core, requester, range), s.peers)
    case CancelEvent(requester, range) =>
      && out == []
      && s' == State(Cancelled(s.core, requester, range), s.env, CancelBooks(s.books, s.core, requester, range), s.peers)
    case PeerRequestEvent(from, request, cache) =>
      && PeerServed(s.core.completed, s.peers, from, request, cache, out, s'.peers)
      && s' == State(s.core, AfterAll(s.env, out), s.books, s'.peers)
    case LedgerEvent(response, cache, peer) =>
      exists k :: 0 <= k <= |out| && LedgerStep(s, response, cache, peer, out[..k], out[k..], s')
    case PeerResponseEvent(from, response, cache, peer) =>
      && SelfResponds(s.core, s.env, Some(from), response, cache, peer, out, s'.core, s'.env)
      && s' == State(s'.core, s'.env, s.books, s.peers)
    case TimeoutEvent(request, peer) =>
      && out == (if InProgress(s.core, request) then RetryCommands(peer, request) else [])
      && s' == State(TimedOut(s.core, request, peer), AfterAll(TimerFired(s.env, request), out), s.books, s.peers)
  }

  // ----- Counting emits -----

  lemma {:induction false} EmittedCountsEmits(env: Env, cmds: seq<Command>)
    ensures AfterAll(env, cmds).emitted == env.emitted + Emits(cmds)
    decreases |cmds|
  {
    if cmds != [] {
      EmittedCountsEmits(env, cmds[..|cmds| - 1]);
    }
  }

  /** The ranges that stop being tracked are the ranges emitted, once each. */
  ghost predicate EmitsWhatGoes(s: Core, s': Core, cmds: seq<Command>) {
    forall r :: Emits(cmds)[r] == if r in Tracked(s) && r !in Tracked(s') then 1 else 0
  }

  lemma EmitsKeepBalance(s: Core, env: Env, books: Books, s': Core, env': Env, cmds: seq<Command>)
    requires Balanced(Tracked(s), env.emitted, books) && EmitsWhatGoes(s, s', cmds)
    requires env' == AfterAll(env, cmds) && Tracked(s') <= Tracked(s)
    ensures Balanced(Tracked(s'), env'.emitted, books)
  {
    EmittedCountsEmits(env, cmds);
    forall r
      ensures BalancedAt(Tracked(s'), env'.emitted, books, r)
    {
      assert BalancedAt(Tracked(s), env.emitted, books, r);
    }
  }

  // ----- Commands and attendance -----

  lemma {:induction false} FetchesStay(env: Env, cmds: seq<Command>, q: Request)
    ensures q in env.ledger ==> q in AfterAll(env, cmds).ledger
    ensures q.PayloadRequest? && FetchPayload(q.bodyId) in cmds ==> q in AfterAll(env, cmds).ledger
    decreases |cmds|
  {
    if cmds != [] {
      FetchesStay(env, cmds[..|cmds| - 1], q);
    }
  }

  lemma {:induction false} TimersStay(env: Env, cmds: seq<Command>, q: Request)
    requires q in env.timers && ResetTimeout(q) !in cmds
    ensures q in AfterAll(env, cmds).timers
    decreases |cmds|
  {
    if cmds != [] {
      TimersStay(env, cmds[..|cmds| - 1], q);
    }
  }

  // ----- A pass of the scheduler -----

  lemma CachedIdsAreHashes(s: Core, cache: BlockCache, p: BodyId)
    requires CoreInv(s) && cache.Valid() && p in CachedIds(s, cache)
    ensures p.BodyHash?
  {
    if cache.GetPayload(p).None? {
      var r :| r in s.completed && p in s.completed[r].payloadCache;
      assert GoodCompleted(r, s.completed[r], s.mode);
    }
  }

  lemma {:induction false} AbsorbedKeepsInv(s: Core, found: set<BodyId>)
    requires CoreInv(s) && found <= s.payloads.Keys && (forall p :: p in found ==> p.BodyHash?)
    ensures CoreInv(Absorbed(s, found)) && Tracked(Absorbed(s, found)) == Tracked(s)
    decreases found
  {
    if found == {} {
      AbsorbedNothing(s);
    } else {
      var p :| p in found;
      AbsorbedKeepsInv(s, found - {p});
      AbsorbOneMore(s, found - {p}, p, p.body);
      BodyArrivedKeepsInv(Absorbed(s, found - {p}), p, p.body);
      assert found - {p} + {p} == found;
    }
  }

  lemma StartedKeepsInv(mid: Core, s': Core)
    requires CoreInv(mid) && s'.headers == mid.headers && s'.mode == mid.mode
    requires Started(mid.payloads, s'.payloads, mid.mode) && s'.completed == Unfilled(mid.completed)
    requires s'.inFlight == |Initiated(s'.payloads)| <= BLOCKSYNC_MAX_PAYLOAD_REQUESTS
    ensures CoreInv(s') && NoneFilled(s'.completed) && Tracked(s') <= Tracked(mid)
  {
    forall r | r in s'.completed
      ensures GoodCompleted(r, s'.completed[r], s'.mode) && Wanted(s'.completed[r], s'.payloads)
    {
      assert GoodCompleted(r, mid.completed[r], mid.mode) && Wanted(mid.completed[r], mid.payloads);
    }
  }

  lemma ScheduledKeepsLive(s: Core, env: Env, cache: BlockCache, s': Core, cmds: seq<Command>)
    requires CoreInv(s) && Live(s, env, None) && cache.Valid()
    requires Scheduled(s, cache, s') && SchedulerSays(s, cache, s', cmds)
    ensures Live(s', AfterAll(env, cmds), None)
  {
    var env' := AfterAll(env, cmds);
    forall r | r in s'.headers
      ensures Attended(env', HeadersRequest(r), s'.headers[r])
    {
      assert Attended(env, HeadersRequest(r), s.headers[r]);
      FetchesStay(env, cmds, HeadersRequest(r));
      if HeadersRequest(r) in env.timers {
        TimersStay(env, cmds, HeadersRequest(r));
      }
    }
    forall p | p in s'.payloads && s'.payloads[p].Some?
      ensures Attended(env', PayloadRequest(p), s'.payloads[p].value)
    {
      FetchesStay(env, cmds, PayloadRequest(p));
      var mid := Absorbed(s, CachedIds(s, cache)).payloads;
      if mid[p].Some? {
        assert Attended(env, PayloadRequest(p), s.payloads[p].value);
        if PayloadRequest(p) in env.timers {
          TimersStay(env, cmds, PayloadRequest(p));
        }
      }
    }
  }

  lemma ScheduledRests(s: Core, env: Env, cache: BlockCache, s': Core, cmds: seq<Command>)
    requires CoreInv(s) && Live(s, env, None) && cache.Valid()
    requires Scheduled(s, cache, s') && SchedulerSays(s, cache, s', cmds)
    ensures CoreInv(s') && Live(s', AfterAll(env, cmds), None) && Settled(s') && Tracked(s') <= Tracked(s)
  {
    var found := CachedIds(s, cache);
    forall p | p in found
      ensures p.BodyHash?
    {
      CachedIdsAreHashes(s, cache, p);
    }
    AbsorbedKeepsInv(s, found);
    StartedKeepsInv(Absorbed(s, found), s');
    ScheduledKeepsLive(s, env, cache, s', cmds);
  }

  // ----- A response -----

  /** The request a ledger answer leaves unattended for the moment. */
  function Answering(sender: Option<NodeId>, response: Response): Option<Request> {
    if sender.None? then Some(AnsweredRequest(response)) else None
  }

  lemma IgnoredRests(s: Core, env: Env, books: Books, sender: Option<NodeId>, response: Response)
    requires Working(s, env, books, Answering(sender, response)) && Ignored(s, response)
    ensures Working(s, env, books, None)
  {
    if sender.None? {
      AnswerNotNeeded(s, env, books, AnsweredRequest(response));
    }
  }

  lemma HeadersAppliedWorks(s: Core, env: Env, books: Books, sender: Option<NodeId>, response: HeadersResponse,
                            peer: Option<NodeId>)
    requires Working(s, env, books, Answering(sender, HeadersReply(response))) && response.range in s.headers
    requires response.range.numBlocks > 0 && (sender.None? ==> LedgerHeadersOk(response))
    ensures Working(HeadersApplied(s, sender, response, peer), AfterAll(env, HeadersCommands(s, sender, response, peer)), books, None)
    ensures Tracked(HeadersApplied(s, sender, response, peer)) == Tracked(s)
  {
    var range, answering := response.range, Answering(sender, HeadersReply(response));
    match response
    case HeadersFound(_, headers) =>
      if VerifyBlockHeaders(range, headers) {
        HeadersArrivedWorks(s, env, books, range, headers, answering);
        HeadersArrivedKeepsInv(s, range, headers);
        AfterOne(env, ResetTimeout(HeadersRequest(range)));
      }
    case HeadersNotAvailable(_) =>
      if sender.None? && s.headers[range].to.None? {
        RetryHeadersWorks(s, env, books, range, peer, answering);
        RetryArms(env, peer, HeadersRequest(range), s.mode);
      } else if sender.None? {
        AnswerNotNeeded(s, env, books, HeadersRequest(range));
      }
  }

  lemma PayloadAppliedWorks(s: Core, env: Env, books: Books, sender: Option<NodeId>, response: BodyResponse,
                            peer: Option<NodeId>)
    requires Working(s, env, books, Answering(sender, PayloadReply(response)))
    requires response.GetPayloadId() in s.payloads && s.payloads[response.GetPayloadId()].Some?
    ensures Working(PayloadApplied(s, sender, response, peer), AfterAll(env, PayloadCommands(s, sender, response, peer)), books, None)
    ensures Tracked(PayloadApplied(s, sender, response, peer)) == Tracked(s)
  {
    var p, answering := response.GetPayloadId(), Answering(sender, PayloadReply(response));
    match response
    case BodyFound(body) =>
      BodyArrivedWorks(s, env, books, p, body, answering);
      BodyArrivedKeepsInv(s, p, body);
      AfterOne(env, ResetTimeout(PayloadRequest(p)));
    case BodyNotAvailable(_) =>
      if sender.None? && s.payloads[p].value.to.None? {
        RetryPayloadWorks(s, env, books, p, peer, answering);
        RetryArms(env, peer, PayloadRequest(p), s.mode);
      } else if sender.None? {
        AnswerNotNeeded(s, env, books, PayloadRequest(p));
      }
  }

  lemma UnfilledKeepsInv(s: Core)
    requires CoreInv(s)
    ensures var s' := s.(completed := Unfilled(s.completed)); CoreInv(s') && Tracked(s') <= Tracked(s)
  {
    var s' := s.(completed := Unfilled(s.completed));
    forall r | r in s'.completed
      ensures GoodCompleted(r, s'.completed[r], s'.mode) && Wanted(s'.completed[r], s'.payloads)
    {
      assert GoodCompleted(r, s.completed[r], s.mode) && Wanted(s.completed[r], s.payloads);
    }
  }

  lemma AppliedWorks(s: Core, env: Env, books: Books, sender: Option<NodeId>, response: Response, peer: Option<NodeId>)
    requires Working(s, env, books, Answering(sender, response)) && !Ignored(s, response)
    requires sender.None? && response.HeadersReply? ==> LedgerHeadersOk(response.headers)
    ensures var a, env' := Applied(s, sender, response, peer), AfterAll(env, FirstCommands(s, sender, response, peer));
            CoreInv(a) && Live(a, env', None) && Tracked(a) <= Tracked(s) && a.mode == s.mode
  {
    match response
    case HeadersReply(headers) =>
      HeadersAppliedWorks(s, env, books, sender, headers, peer);
    case PayloadReply(payload) =>
      PayloadAppliedWorks(s, env, books, sender, payload, peer);
      UnfilledKeepsInv(PayloadApplied(s, sender, payload, peer));
  }

  lemma AfterPrefix(env: Env, first: seq<Command>, cmds: seq<Command>)
    requires first <= cmds
    ensures AfterAll(env, cmds) == AfterAll(AfterAll(env, first), cmds[|first|..])
  {
    AfterConcat(env, first, cmds[|first|..]);
    assert cmds == first + cmds[|first|..];
  }

  lemma InThreeParts(cmds: seq<Command>, i: nat, j: nat)
    requires i <= j <= |cmds|
    ensures cmds == cmds[..i] + cmds[i..j] + cmds[j..]
  {
  }

  lemma {:induction false} EmitsDisturbNothing(env: Env, emits: seq<Command>)
    requires AllEmits(emits)
    ensures AfterAll(env, emits).ledger == env.ledger && AfterAll(env, emits).timers == env.timers
    decreases |emits|
  {
    if emits != [] {
      EmitsDisturbNothing(env, emits[..|emits| - 1]);
    }
  }

  /** The commands of a response in their three parts lead to a settled state. */
  lemma PartsSettle(s: Core, env: Env, books: Books, sender: Option<NodeId>, response: Response, cache: BlockCache,
                    peer: Option<NodeId>, s': Core, first: seq<Command>, emits: seq<Command>, rest: seq<Command>)
    requires Working(s, env, books, Answering(sender, response)) && !Ignored(s, response) && cache.Valid()
    requires sender.None? && response.HeadersReply? ==> LedgerHeadersOk(response.headers)
    requires Responded(s, sender, response, cache, peer, s')
    requires ResponseParts(s, sender, response, cache, peer, s', first, emits, rest)
    ensures CoreInv(s') && Live(s', AfterAll(env, first + emits + rest), None) && Settled(s') && Tracked(s') <= Tracked(s)
  {
    AppliedWorks(s, env, books, sender, response, peer);
    var env1 := AfterAll(env, first);
    var env2 := AfterAll(env1, emits);
    EmitsDisturbNothing(env1, emits);
    ScheduledRests(Applied(s, sender, response, peer), env2, cache, s', rest);
    AfterConcat(env, first, emits);
    AfterConcat(env, first + emits, rest);
  }

  // ----- What a response emits -----

  lemma EmitsFilledIsGood(cmds: seq<Command>, completed: CompletedHeaders, mode: Requester)
    requires EmitsFilled(cmds, completed, mode) && CompletedOk(completed, mode)
    requires forall i :: 0 <= i < |cmds| ==> !cmds[i].SendResponse?
    ensures GoodCommands(cmds, mode)
  {
    forall i | 0 <= i < |cmds|
      ensures GoodCommand(cmds[i], mode)
    {
      var c := cmds[i];
      assert c in cmds;
      if c.Emit? {
        EmitOfIsComplete(c.range, completed[c.range], mode, c);
      }
    }
  }

  lemma ScheduledEmits(s: Core, cache: BlockCache, s': Core, cmds: seq<Command>)
    requires CoreInv(s) && cache.Valid() && Scheduled(s, cache, s') && SchedulerSays(s, cache, s', cmds)
    ensures EmitsWhatGoes(s, s', cmds) && GoodCommands(cmds, s.mode)
  {
    var found := CachedIds(s, cache);
    forall p | p in found
      ensures p.BodyHash?
    {
      CachedIdsAreHashes(s, cache, p);
    }
    AbsorbedKeepsInv(s, found);
    forall i | 0 <= i < |cmds|
      ensures !cmds[i].SendResponse?
    {
      assert cmds[i] in cmds;
    }
    EmitsFilledIsGood(cmds, Absorbed(s, found).completed, s.mode);
  }

  lemma FirstCommandsAreQuiet(s: Core, sender: Option<NodeId>, response: Response, peer: Option<NodeId>)
    requires CoreInv(s) && !Ignored(s, response)
    ensures var first := FirstCommands(s, sender, response, peer); GoodCommands(first, s.mode) && Emits(first) == multiset{}
  {
    NoEmits(FirstCommands(s, sender, response, peer));
  }

  /** A body lets go of the ranges it fills. */
  lemma EarlyEmits(s: Core, a: Core, emits: seq<Command>)
    requires CoreInv(a) && Tracked(a) == Tracked(s) && a.mode == s.mode && AllEmits(emits) && EmitsFilled(emits, a.completed, a.mode)
    ensures EmitsWhatGoes(s, a.(completed := Unfilled(a.completed)), emits) && GoodCommands(emits, s.mode)
  {
    EmitsFilledIsGood(emits, a.completed, a.mode);
  }

  /** What goes first and what goes later add up. */
  lemma GoesInTwo(s: Core, a: Core, s': Core, first: seq<Command>, emits: seq<Command>, rest: seq<Command>)
    requires Emits(first) == multiset{} && EmitsWhatGoes(s, a, emits) && EmitsWhatGoes(a, s', rest)
    requires Tracked(s') <= Tracked(a) <= Tracked(s)
    ensures EmitsWhatGoes(s, s', first + emits + rest)
  {
    EmitsConcat(first, emits);
    EmitsConcat(first + emits, rest);
  }

  lemma GoodInThree(first: seq<Command>, emits: seq<Command>, rest: seq<Command>, mode: Requester)
    requires GoodCommands(first, mode) && GoodCommands(emits, mode) && GoodCommands(rest, mode)
    ensures GoodCommands(first + emits + rest, mode)
  {
  }

  lemma PartsEmit(s: Core, env: Env, books: Books, sender: Option<NodeId>, response: Response, cache: BlockCache,
                  peer: Option<NodeId>, s': Core, first: seq<Command>, emits: seq<Command>, rest: seq<Command>)
    requires Working(s, env, books, Answering(sender, response)) && !Ignored(s, response) && cache.Valid()
    requires sender.None? && response.HeadersReply? ==> LedgerHeadersOk(response.headers)
    requires Responded(s, sender, response, cache, peer, s')
    requires ResponseParts(s, sender, response, cache, peer, s', first, emits, rest)
    ensures EmitsWhatGoes(s, s', first + emits + rest) && GoodCommands(first + emits + rest, s.mode)
  {
    var a := Applied(s, sender, response, peer);
    AppliedWorks(s, env, books, sender, response, peer);
    RestEmits(a, AfterAll(env, first), cache, s', rest);
    FirstCommandsAreQuiet(s, sender, response, peer);
    AppliedEmits(s, env, books, sender, response, peer, emits);
    PartsJoin(s, a, s', first, emits, rest);
  }

  lemma RestEmits(a: Core, env: Env, cache: BlockCache, s': Core, rest: seq<Command>)
    requires CoreInv(a) && Live(a, env, None) && cache.Valid() && Scheduled(a, cache, s') && SchedulerSays(a, cache, s', rest)
    ensures EmitsWhatGoes(a, s', rest) && GoodCommands(rest, a.mode) && Tracked(s') <= Tracked(a)
  {
    ScheduledRests(a, env, cache, s', rest);
    ScheduledEmits(a, cache, s', rest);
  }

  lemma PartsJoin(s: Core, a: Core, s': Core, first: seq<Command>, emits: seq<Command>, rest: seq<Command>)
    requires Emits(first) == multiset{} && EmitsWhatGoes(s, a, emits) && EmitsWhatGoes(a, s', rest)
    requires Tracked(s') <= Tracked(a) <= Tracked(s) && a.mode == s.mode
    requires GoodCommands(first, s.mode) && GoodCommands(emits, s.mode) && GoodCommands(rest, a.mode)
    ensures EmitsWhatGoes(s, s', first + emits + rest) && GoodCommands(first + emits + rest, s.mode)
  {
    GoesInTwo(s, a, s', first, emits, rest);
    GoodInThree(first, emits, rest, s.mode);
  }

  lemma AppliedEmits(s: Core, env: Env, books: Books, sender: Option<NodeId>, response: Response, peer: Option<NodeId>,
                     emits: seq<Command>)
    requires Working(s, env, books, Answering(sender, response)) && !Ignored(s, response) && AllEmits(emits)
    requires sender.None? && response.HeadersReply? ==> LedgerHeadersOk(response.headers)
    requires response.HeadersReply? ==> emits == []
    requires response.PayloadReply? ==> EmitsFilled(emits, PayloadApplied(s, sender, response.payload, peer).completed, s.mode)
    ensures EmitsWhatGoes(s, Applied(s, sender, response, peer), emits) && GoodCommands(emits, s.mode)
  {
    match response
    case HeadersReply(headers) =>
      HeadersAppliedWorks(s, env, books, sender, headers, peer);
    case PayloadReply(payload) =>
      PayloadAppliedWorks(s, env, books, sender, payload, peer);
      EarlyEmits(s, PayloadApplied(s, sender, payload, peer), emits);
  }

  /** Whoever responds, and with whatever: afterwards everything is attended and settled again, the
      ranges that went were emitted, once each and complete, and nobody was answered. */
  lemma ResponseRests(s: Core, env: Env, books: Books, sender: Option<NodeId>, response: Response, cache: BlockCache,
                      peer: Option<NodeId>, cmds: seq<Command>, s': Core, env': Env)
    requires Working(s, env, books, Answering(sender, response)) && Settled(s) && cache.Valid()
    requires sender.None? && response.HeadersReply? ==> LedgerHeadersOk(response.headers)
    requires SelfResponds(s, env, sender, response, cache, peer, cmds, s', env')
    ensures Resting(s', env', books) && Tracked(s') <= Tracked(s)
    ensures EmitsWhatGoes(s, s', cmds) && GoodCommands(cmds, s.mode)
  {
    if Ignored(s, response) {
      IgnoredRests(s, env, books, sender, response);
    } else {
      var i, j :| 0 <= i <= j <= |cmds|
                  && ResponseParts(s, sender, response, cache, peer, s', cmds[..i], cmds[i..j], cmds[j..]);
      InThreeParts(cmds, i, j);
      PartsSettle(s, env, books, sender, response, cache, peer, s', cmds[..i], cmds[i..j], cmds[j..]);
      PartsEmit(s, env, books, sender, response, cache, peer, s', cmds[..i], cmds[i..j], cmds[j..]);
      EmitsKeepBalance(s, env, books, s', env', cmds);
    }
  }

  // ----- Every step -----

  lemma TimeoutRests(s: Core, env: Env, books: Books, request: Request, peer: Option<NodeId>)
    requires Resting(s, env, books)
    ensures var out := if InProgress(s, request) then RetryCommands(peer, request) else [];
            Resting(TimedOut(s, request, peer), AfterAll(TimerFired(env, request), out), books)
    ensures Tracked(TimedOut(s, request, peer)) == Tracked(s)
  {
    if InProgress(s, request) {
      RearmedTimer(env, peer, request, s.mode);
      match request
      case HeadersRequest(range) => RetryHeadersWorks(s, env, books, range, peer, None);
      case PayloadRequest(p) => RetryPayloadWorks(s, env, books, p, peer, None);
    } else {
      TimerFiredWorks(s, env, books, request);
    }
  }

  lemma PeerServedRests(s: State, from: NodeId, request: Request, cache: BlockCache, out: seq<Command>, s': State)
    requires StateOk(s) && cache.Valid() && Step(s, PeerRequestEvent(from, request, cache), out, s')
    ensures StateOk(s')
  {
    if out != [] {
      AfterOne(s.env, out[0]);
      assert out == [out[0]];
      ServingRests(s.core, s.env, s.books, out[0]);
      if request.HeadersRequest? && out[0].FetchHeaders? {
        var range := request.range;
        var cached := CachedPart(range, cache);
        CachedPartFits(range, cache);
        AskingServes(s.peers.waiting, s.peers.asked, LedgerPart(range, cached), from, cached);
      }
    }
  }

  lemma LedgerStepRests(s: State, response: Response, cache: BlockCache, peer: Option<NodeId>,
                        answers: seq<Command>, cmds: seq<Command>, s': State)
    requires StateOk(s) && EventOk(LedgerEvent(response, cache, peer))
    requires LedgerStep(s, response, cache, peer, answers, cmds, s')
    ensures StateOk(s') && Tracked(s'.core) <= Tracked(s.core)
    ensures EmitsWhatGoes(s.core, s'.core, cmds) && GoodCommands(cmds, s.core.mode)
  {
    var env := LedgerAnswered(s.env, AnsweredRequest(response));
    LedgerAnsweredWorks(s.core, s.env, s.books, AnsweredRequest(response));
    ResponseRests(s.core, env, s.books, None, response, cache, peer, cmds, s'.core, s'.env);
  }

  /** Whatever event comes, the state invariant holds again. */
  lemma StepKeepsOk(s: State, e: Event, out: seq<Command>, s': State)
    requires StateOk(s) && EventOk(e) && Step(s, e, out, s')
    ensures StateOk(s')
  {
    match e
    case SelfRequestEvent(requester, range) =>
      SelfRequestedRests(s.core, s.env, s.books, requester, range);
    case CancelEvent(requester, range) =>
      CancelledRests(s.core, s.env, s.books, requester, range);
    case PeerRequestEvent(from, request, cache) =>
      PeerServedRests(s, from, request, cache, out, s');
    case LedgerEvent(response, cache, peer) =>
      var k :| 0 <= k <= |out| && LedgerStep(s, response, cache, peer, out[..k], out[k..], s');
      LedgerStepRests(s, response, cache, peer, out[..k], out[k..], s');
    case PeerResponseEvent(from, response, cache, peer) =>
      ResponseRests(s.core, s.env, s.books, Some(from), response, cache, peer, out, s'.core, s'.env);
    case TimeoutEvent(request, peer) =>
      TimeoutRests(s.core, s.env, s.books, request, peer);
  }

  // ----- What becomes of a range -----

  /** The event asks for `r`, which is not tracked once a change of requester has cleared the rest. */
  predicate Accepts(s: Core, e: Event, r: BlockRange) {
    && e.SelfRequestEvent? && e.range == r && r.numBlocks > 0
    && (e.requester == s.mode ==> r !in Tracked(s))
  }

  /** The requester that is being served cancels `r`. */
  predicate Cancels(s: Core, e: Event, r: BlockRange) {
    e.CancelEvent? && e.range == r && e.requester == s.mode && r in Tracked(s)
  }

  /** The other requester asks for something, which drops all that is tracked. */
  predicate Clears(s: Core, e: Event, r: BlockRange) {
    e.SelfRequestEvent? && e.range.numBlocks > 0 && e.requester != s.mode && r in Tracked(s)
  }

  /** A range is tracked after an event iff the event made it so, or it was tracked and is neither
      emitted, nor cancelled by its requester, nor cleared by the other one; and emits are single. */
  ghost predicate Fate(s: Core, e: Event, out: seq<Command>, s': Core, r: BlockRange) {
    && (r in Tracked(s') <==>
          Accepts(s, e, r) || (r in Tracked(s) && Emits(out)[r] == 0 && !Cancels(s, e, r) && !Clears(s, e, r)))
    && Emits(out)[r] <= 1 && (Emits(out)[r] == 1 ==> r in Tracked(s))
  }

  /** What the event adds to the books. */
  ghost predicate Booked(s: State, e: Event, out: seq<Command>, s': State, r: BlockRange) {
    && s'.books.accepted[r] == s.books.accepted[r] + (if Accepts(s.core, e, r) then 1 else 0)
    && s'.books.cancelled[r] == s.books.cancelled[r] + (if Cancels(s.core, e, r) then 1 else 0)
    && s'.books.cleared[r] == s.books.cleared[r] + (if Clears(s.core, e, r) then 1 else 0)
    && s'.env.emitted[r] == s.env.emitted[r] + Emits(out)[r]
  }

  lemma RequestBooked(books: Books, s: Core, requester: Requester, range: BlockRange, r: BlockRange)
    ensures var e, books' := SelfRequestEvent(requester, range), RequestBooks(books, s, requester, range);
            && books'.accepted[r] == books.accepted[r] + (if Accepts(s, e, r) then 1 else 0)
            && books'.cancelled[r] == books.cancelled[r]
            && books'.cleared[r] == books.cleared[r] + (if Clears(s, e, r) then 1 else 0)
  {
    assert RequestExists(SwitchMode(s, requester), range) <==> requester == s.mode && range in Tracked(s);
  }

  lemma RequestEmitsNothing(s: Core, env: Env, requester: Requester, range: BlockRange)
    ensures var out := RequestCommands(s, requester, range);
            Emits(out) == multiset{} && AfterAll(env, out).emitted == env.emitted
  {
    var out := RequestCommands(s, requester, range);
    NoEmits(out);
    EmittedCountsEmits(env, out);
  }

  lemma RequestFate(s: State, requester: Requester, range: BlockRange, out: seq<Command>, s': State, r: BlockRange)
    requires StateOk(s) && Step(s, SelfRequestEvent(requester, range), out, s')
    ensures Fate(s.core, SelfRequestEvent(requester, range), out, s'.core, r)
    ensures Booked(s, SelfRequestEvent(requester, range), out, s', r)
  {
    RequestTracks(s, requester, range, r);
    RequestBooked(s.books, s.core, requester, range, r);
    RequestEmitsNothing(s.core, s.env, requester, range);
  }

  lemma RequestTracks(s: State, requester: Requester, range: BlockRange, r: BlockRange)
    requires StateOk(s)
    ensures var e := SelfRequestEvent(requester, range);
            r in Tracked(SelfRequested(s.core, requester, range)) <==>
              Accepts(s.core, e, r) || (r in Tracked(s.core) && !Clears(s.core, e, r))
  {
    SelfRequestedRests(s.core, s.env, s.books, requester, range);
  }

  lemma CancelFate(s: State, requester: Requester, range: BlockRange, out: seq<Command>, s': State, r: BlockRange)
    requires StateOk(s) && Step(s, CancelEvent(requester, range), out, s')
    ensures Fate(s.core, CancelEvent(requester, range), out, s'.core, r)
    ensures Booked(s, CancelEvent(requester, range), out, s', r)
  {
    CancelCounts(s, requester, range, r);
    NoEmits(out);
  }

  lemma CancelCounts(s: State, requester: Requester, range: BlockRange, r: BlockRange)
    requires StateOk(s)
    ensures var e, books' := CancelEvent(requester, range), CancelBooks(s.books, s.core, requester, range);
            && (r in Tracked(Cancelled(s.core, requester, range)) <==> r in Tracked(s.core) && !Cancels(s.core, e, r))
            && books'.accepted == s.books.accepted && books'.cleared == s.books.cleared
            && books'.cancelled[r] == s.books.cancelled[r] + (if Cancels(s.core, e, r) then 1 else 0)
  {
    CancelledRests(s.core, s.env, s.books, requester, range);
  }

  /** Events that leave the books alone: only emits let a range go. */
  lemma OtherFate(s: State, e: Event, out: seq<Command>, s': State, r: BlockRange)
    requires !e.SelfRequestEvent? && !e.CancelEvent? && s'.books == s.books
    requires Tracked(s'.core) <= Tracked(s.core) && EmitsWhatGoes(s.core, s'.core, out)
    requires s'.env.emitted == s.env.emitted + Emits(out)
    ensures Fate(s.core, e, out, s'.core, r) && Booked(s, e, out, s', r)
  {
  }

  lemma LedgerFate(s: State, response: Response, cache: BlockCache, peer: Option<NodeId>, out: seq<Command>, k: nat, s': State)
    requires StateOk(s) && EventOk(LedgerEvent(response, cache, peer)) && k <= |out|
    requires LedgerStep(s, response, cache, peer, out[..k], out[k..], s')
    ensures EmitsWhatGoes(s.core, s'.core, out) && s'.env.emitted == s.env.emitted + Emits(out)
    ensures Tracked(s'.core) <= Tracked(s.core) && s'.books == s.books
  {
    LedgerStepRests(s, response, cache, peer, out[..k], out[k..], s');
    EmittedCountsEmits(LedgerAnswered(s.env, AnsweredRequest(response)), out[k..]);
    AnswersEmitNothing(out, k);
  }

  lemma AnswersEmitNothing(out: seq<Command>, k: nat)
    requires k <= |out| && GoodAnswers(out[..k])
    ensures Emits(out) == Emits(out[k..])
  {
    NoEmits(out[..k]);
    EmitsConcat(out[..k], out[k..]);
    assert out[..k] + out[k..] == out;
  }

  lemma PeerRequestFate(s: State, from: NodeId, request: Request, cache: BlockCache, out: seq<Command>, s': State, r: BlockRange)
    requires StateOk(s) && cache.Valid() && Step(s, PeerRequestEvent(from, request, cache), out, s')
    ensures Fate(s.core, PeerRequestEvent(from, request, cache), out, s'.core, r)
    ensures Booked(s, PeerRequestEvent(from, request, cache), out, s', r)
  {
    NoEmits(out);
    EmittedCountsEmits(s.env, out);
    OtherFate(s, PeerRequestEvent(from, request, cache), out, s', r);
  }

  lemma LedgerEventFate(s: State, response: Response, cache: BlockCache, peer: Option<NodeId>, out: seq<Command>, s': State,
                        r: BlockRange)
    requires StateOk(s) && EventOk(LedgerEvent(response, cache, peer)) && Step(s, LedgerEvent(response, cache, peer), out, s')
    ensures Fate(s.core, LedgerEvent(response, cache, peer), out, s'.core, r)
    ensures Booked(s, LedgerEvent(response, cache, peer), out, s', r)
  {
    var k :| 0 <= k <= |out| && LedgerStep(s, response, cache, peer, out[..k], out[k..], s');
    LedgerFate(s, response, cache, peer, out, k, s');
    OtherFate(s, LedgerEvent(response, cache, peer), out, s', r);
  }

  lemma PeerResponseFate(s: State, from: NodeId, response: Response, cache: BlockCache, peer: Option<NodeId>,
                         out: seq<Command>, s': State, r: BlockRange)
    requires StateOk(s) && cache.Valid() && Step(s, PeerResponseEvent(from, response, cache, peer), out, s')
    ensures Fate(s.core, PeerResponseEvent(from, response, cache, peer), out, s'.core, r)
    ensures Booked(s, PeerResponseEvent(from, response, cache, peer), out, s', r)
  {
    ResponseRests(s.core, s.env, s.books, Some(from), response, cache, peer, out, s'.core, s'.env);
    EmittedCountsEmits(s.env, out);
    OtherFate(s, PeerResponseEvent(from, response, cache, peer), out, s', r);
  }

  lemma TimeoutFate(s: State, request: Request, peer: Option<NodeId>, out: seq<Command>, s': State, r: BlockRange)
    requires StateOk(s) && Step(s, TimeoutEvent(request, peer), out, s')
    ensures Fate(s.core, TimeoutEvent(request, peer), out, s'.core, r) && Booked(s, TimeoutEvent(request, peer), out, s', r)
  {
    TimeoutRests(s.core, s.env, s.books, request, peer);
    NoEmits(out);
    EmittedCountsEmits(TimerFired(s.env, request), out);
    OtherFate(s, TimeoutEvent(request, peer), out, s', r);
  }

  lemma StepDecidesFate(s: State, e: Event, out: seq<Command>, s': State, r: BlockRange)
    requires StateOk(s) && EventOk(e) && Step(s, e, out, s')
    ensures Fate(s.core, e, out, s'.core, r) && Booked(s, e, out, s', r)
  {
    match e
    case SelfRequestEvent(requester, range) => RequestFate(s, requester, range, out, s', r);
    case CancelEvent(requester, range) => CancelFate(s, requester, range, out, s', r);
    case PeerRequestEvent(from, request, cache) => PeerRequestFate(s, from, request, cache, out, s', r);
    case LedgerEvent(response, cache, peer) => LedgerEventFate(s, response, cache, peer, out, s', r);
    case PeerResponseEvent(from, response, cache, peer) => PeerResponseFate(s, from, response, cache, peer, out, s', r);
    case TimeoutEvent(request, peer) => TimeoutFate(s, request, peer, out, s', r);
  }

  // ----- What is sent out -----

  /** Complete ranges are emitted, and headers sent to peers verify. */
  ghost predicate Sound(c: Command) {
    match c
    case Emit(_, range, blocks) => CompleteRange(range, blocks)
    case SendResponse(_, _) => GoodAnswer(c)
    case _ => true
  }

  ghost predicate AllSound(cmds: seq<Command>) {
    forall i :: 0 <= i < |cmds| ==> Sound(cmds[i])
  }

  lemma GoodIsSound(cmds: seq<Command>, mode: Requester)
    requires GoodCommands(cmds, mode)
    ensures AllSound(cmds)
  {
    forall i | 0 <= i < |cmds|
      ensures Sound(cmds[i])
    {
      assert GoodCommand(cmds[i], mode);
    }
  }

  lemma LedgerIsSound(s: State, response: Response, cache: BlockCache, peer: Option<NodeId>, out: seq<Command>, k: nat, s': State)
    requires StateOk(s) && EventOk(LedgerEvent(response, cache, peer)) && k <= |out|
    requires LedgerStep(s, response, cache, peer, out[..k], out[k..], s')
    ensures AllSound(out)
  {
    LedgerStepRests(s, response, cache, peer, out[..k], out[k..], s');
    GoodIsSound(out[k..], s.core.mode);
    forall i | 0 <= i < |out|
      ensures Sound(out[i])
    {
      assert if i < k then GoodAnswer(out[..k][i]) else Sound(out[k..][i - k]);
    }
  }

  lemma StepIsSound(s: State, e: Event, out: seq<Command>, s': State)
    requires StateOk(s) && EventOk(e) && Step(s, e, out, s')
    ensures AllSound(out)
  {
    match e
    case SelfRequestEvent(_, _) =>
    case CancelEvent(_, _) =>
    case PeerRequestEvent(from, request, cache) =>
      if request.HeadersRequest? && request.range.numBlocks > 0 {
        CachedPartFits(request.range, cache);
      }
    case LedgerEvent(response, cache, peer) =>
      var k :| 0 <= k <= |out| && LedgerStep(s, response, cache, peer, out[..k], out[k..], s');
      LedgerIsSound(s, response, cache, peer, out, k, s');
    case PeerResponseEvent(from, response, cache, peer) =>
      ResponseRests(s.core, s.env, s.books, Some(from), response, cache, peer, out, s'.core, s'.env);
      GoodIsSound(out, s.core.mode);
    case TimeoutEvent(request, peer) =>
  }

  // ----- Peers get what they asked for -----

  predicate IsRequest(e: Event, who: NodeId, request: Request) {
    e.PeerRequestEvent? && e.from == who && e.request == request
  }

  /** `who` is waiting for the ledger to answer `request`. */
  ghost predicate WaitsFor(p: Peers, who: NodeId, request: Request) {
    match request
    case HeadersRequest(range) => exists lr :: lr in p.asked && who in p.asked[lr] && p.asked[lr][who] == range
    case PayloadRequest(id) => id in p.bodies && who in p.bodies[id]
  }

  /** Nobody waits without having asked. */
  lemma StepWaitsFor(s: State, e: Event, out: seq<Command>, s': State, who: NodeId, request: Request)
    requires CoreInv(s.core) && EventOk(e) && Step(s, e, out, s')
    requires WaitsFor(s'.peers, who, request)
    ensures WaitsFor(s.peers, who, request) || IsRequest(e, who, request)
  {
    match e
    case SelfRequestEvent(_, _) =>
    case CancelEvent(_, _) =>
    case PeerRequestEvent(from, asked, cache) =>
      if request.HeadersRequest? {
        var lr :| lr in s'.peers.asked && who in s'.peers.asked[lr] && s'.peers.asked[lr][who] == request.range;
        assert IsRequest(e, who, request) || (lr in s.peers.asked && who in s.peers.asked[lr] && s.peers.asked[lr][who] == request.range);
      }
    case LedgerEvent(response, cache, peer) =>
      var k :| 0 <= k <= |out| && LedgerStep(s, response, cache, peer, out[..k], out[k..], s');
      UnlistedWaitsFor(s.peers, response, who, request);
    case PeerResponseEvent(_, _, _, _) =>
    case TimeoutEvent(_, _) =>
  }

  lemma UnlistedWaitsFor(p: Peers, response: Response, who: NodeId, request: Request)
    requires WaitsFor(Unlisted(p, response), who, request)
    ensures WaitsFor(p, who, request)
  {
    if request.HeadersRequest? {
      var asked := Unlisted(p, response).asked;
      var lr :| lr in asked && who in asked[lr] && asked[lr][who] == request.range;
      assert lr in p.asked && who in p.asked[lr] && p.asked[lr][who] == request.range;
    }
  }

  /** The command, if it is an answer, is for a peer waiting for just that or asking for it now. */
  ghost predicate AnswersARequest(p: Peers, e: Event, c: Command) {
    c.SendResponse? ==>
      var request := AnsweredRequest(c.response);
      WaitsFor(p, c.to, request) || IsRequest(e, c.to, request)
  }

  lemma SelfCommandsAnswerNobody(cmds: seq<Command>, mode: Requester)
    requires GoodCommands(cmds, mode)
    ensures forall i :: 0 <= i < |cmds| ==> !cmds[i].SendResponse?
  {
    forall i | 0 <= i < |cmds|
      ensures !cmds[i].SendResponse?
    {
      assert GoodCommand(cmds[i], mode);
    }
  }

  lemma AnswersGoToWaiting(p: Peers, response: Response, answers: seq<Command>, p': Peers, i: nat)
    requires PeersAnswered(p, response, answers, p') && i < |answers|
    ensures answers[i].SendResponse? && WaitsFor(p, answers[i].to, AnsweredRequest(answers[i].response))
  {
    if response.HeadersReply? {
      var lr := response.headers.range;
      assert AnswersOne(answers[i], AskedFor(p.asked, lr), response.headers.HeadersFound?);
      assert lr in p.asked && answers[i].to in p.asked[lr];
    }
  }

  lemma LedgerAnswersRequests(s: State, response: Response, cache: BlockCache, peer: Option<NodeId>,
                              out: seq<Command>, k: nat, s': State, i: nat)
    requires StateOk(s) && EventOk(LedgerEvent(response, cache, peer)) && k <= |out|
    requires LedgerStep(s, response, cache, peer, out[..k], out[k..], s') && i < |out|
    ensures AnswersARequest(s.peers, LedgerEvent(response, cache, peer), out[i])
  {
    LedgerStepRests(s, response, cache, peer, out[..k], out[k..], s');
    SelfCommandsAnswerNobody(out[k..], s.core.mode);
    if i < k {
      AnswersGoToWaiting(s.peers, response, out[..k], s'.peers, i);
    } else {
      assert out[i] == out[k..][i - k];
    }
  }

  lemma StepAnswersRequests(s: State, e: Event, out: seq<Command>, s': State, i: nat)
    requires StateOk(s) && EventOk(e) && Step(s, e, out, s') && i < |out|
    ensures AnswersARequest(s.peers, e, out[i])
  {
    match e
    case SelfRequestEvent(_, _) =>
    case CancelEvent(_, _) =>
    case PeerRequestEvent(_, _, _) =>
    case LedgerEvent(response, cache, peer) =>
      var k :| 0 <= k <= |out| && LedgerStep(s, response, cache, peer, out[..k], out[k..], s');
      LedgerAnswersRequests(s, response, cache, peer, out, k, s', i);
    case PeerResponseEvent(from, response, cache, peer) =>
      ResponseRests(s.core, s.env, s.books, Some(from), response, cache, peer, out, s'.core, s'.env);
      SelfCommandsAnswerNobody(out, s.core.mode);
    case TimeoutEvent(_, _) =>
  }
}
