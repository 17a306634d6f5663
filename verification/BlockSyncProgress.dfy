/** What one event does to each request of the node and to each waiting peer, told on the fields
    of the state and on the commands alone (monad-blocksync/src/blocksync.rs). */
module BlockSyncProgress {
  import opened Collections
  import opened ConsensusTypes
  import opened ForestQueries
  import opened BlockSyncModel
  import opened BlockSyncSteps
  import opened BlockSyncs
  import opened BlockSyncRelation

  // ----- Where requests are -----

  /** None if the request is not in progress, Some(None) while it is with the own ledger. */
  function SentTo(s: Core, q: Request): Option<Option<NodeId>> {
    match q
    case HeadersRequest(r) => if r in s.headers then Some(s.headers[r].to) else None
    case PayloadRequest(p) => if p in s.payloads && s.payloads[p].Some? then Some(s.payloads[p].value.to) else None
  }

  function Refusal(q: Request): Response {
    match q
    case HeadersRequest(r) => HeadersReply(HeadersNotAvailable(r))
    case PayloadRequest(p) => PayloadReply(BodyNotAvailable(p))
  }

  /** The event calls for asking a peer: the timer of a request in progress has fired, or the ledger
      does not have what it was asked for. */
  predicate MustRetry(s: Core, e: Event, q: Request) {
    || (e.TimeoutEvent? && e.request == q && SentTo(s, q).Some?)
    || (e.LedgerEvent? && e.response == Refusal(q) && SentTo(s, q) == Some(None))
  }

  predicate InCache(cache: BlockCache, p: BodyId) {
    match cache case TreeCache(_, payloads) => p in payloads case BufferCache(bodies) => p in bodies
  }

  /** The body is at hand: in the cache of the call or kept with a range. */
  ghost predicate AtHand(s: Core, cache: BlockCache, p: BodyId) {
    InCache(cache, p) || exists r :: r in s.completed && p in s.completed[r].payloadCache
  }

  /** No request is kept for a body that some range has kept. */
  ghost predicate Unheld(s: Core) {
    forall p, r :: p in s.payloads && r in s.completed ==> p !in s.completed[r].payloadCache
  }

  // ----- A response in its parts -----

  predicate IsResponse(e: Event) {
    e.LedgerEvent? || e.PeerResponseEvent?
  }

  function Sender(e: Event): Option<NodeId> {
    if e.PeerResponseEvent? then Some(e.from) else None
  }

  /** The response brings headers that verify for a range that is being asked for. */
  predicate BringsHeaders(s: Core, e: Event, range: BlockRange) {
    && IsResponse(e) && e.response.HeadersReply? && e.response.headers.HeadersFound? && e.response.headers.range == range
    && range in s.headers && range.numBlocks > 0 && VerifyBlockHeaders(range, e.response.headers.headers)
  }

  /** The response brings the body of a request in progress. */
  predicate BringsBody(s: Core, e: Event, p: BodyId) {
    && IsResponse(e) && e.response.PayloadReply? && e.response.payload.BodyFound? && e.response.payload.body.GetId() == p
    && p in s.payloads && s.payloads[p].Some?
  }

  /** The response brings what was asked for. */
  predicate Ended(s: Core, e: Event, q: Request) {
    match q case HeadersRequest(r) => BringsHeaders(s, e, r) case PayloadRequest(p) => BringsBody(s, e, p)
  }

  /** The commands of a response: answers to peers, then the commands of the response itself, the
      ranges it filled, and those of the scheduler. */
  ghost predicate InParts(s: Core, e: Event, s': Core, answers: seq<Command>, first: seq<Command>, emits: seq<Command>,
                          rest: seq<Command>)
    requires CoreInv(s) && EventOk(e) && IsResponse(e)
  {
    && GoodAnswers(answers)
    && if Ignored(s, e.response) then s' == s && first == [] && emits == [] && rest == []
       else && ResponseParts(s, Sender(e), e.response, e.cache, e.peer, s', first, emits, rest)
            && Scheduled(Applied(s, Sender(e), e.response, e.peer), e.cache, s')
  }

  lemma SelfRespondsInParts(s: Core, env: Env, e: Event, cmds: seq<Command>, s': Core, env': Env)
    returns (first: seq<Command>, emits: seq<Command>, rest: seq<Command>)
    requires CoreInv(s) && EventOk(e) && IsResponse(e)
    requires SelfResponds(s, env, Sender(e), e.response, e.cache, e.peer, cmds, s', env')
    ensures cmds == first + emits + rest && InParts(s, e, s', [], first, emits, rest)
  {
    if Ignored(s, e.response) {
      first, emits, rest := [], [], [];
    } else {
      var i, j :| 0 <= i <= j <= |cmds|
                  && ResponseParts(s, Sender(e), e.response, e.cache, e.peer, s', cmds[..i], cmds[i..j], cmds[j..]);
      first, emits, rest := cmds[..i], cmds[i..j], cmds[j..];
      InThreeParts(cmds, i, j);
    }
  }

  lemma StepInParts(s: State, e: Event, out: seq<Command>, s': State)
    returns (answers: seq<Command>, first: seq<Command>, emits: seq<Command>, rest: seq<Command>)
    requires CoreInv(s.core) && EventOk(e) && Step(s, e, out, s') && IsResponse(e)
    ensures out == answers + first + emits + rest && InParts(s.core, e, s'.core, answers, first, emits, rest)
  {
    if e.LedgerEvent? {
      var k :| 0 <= k <= |out| && LedgerStep(s, e.response, e.cache, e.peer, out[..k], out[k..], s');
      answers := out[..k];
      first, emits, rest := SelfRespondsInParts(s.core, LedgerAnswered(s.env, AnsweredRequest(e.response)), e, out[k..], s'.core, s'.env);
      JoinParts(out, k, first, emits, rest);
    } else {
      answers := [];
      first, emits, rest := SelfRespondsInParts(s.core, s.env, e, out, s'.core, s'.env);
      JoinParts(out, 0, first, emits, rest);
      assert out[..0] == [];
    }
  }

  lemma JoinParts(out: seq<Command>, k: nat, first: seq<Command>, emits: seq<Command>, rest: seq<Command>)
    requires k <= |out| && out[k..] == first + emits + rest
    ensures out == out[..k] + first + emits + rest
  {
    assert out == out[..k] + out[k..];
  }

  /** Asking a peer, or arming a timer. */
  predicate Asks(c: Command) {
    c.SendRequest? || c.ScheduleTimeout?
  }

  ghost predicate NoneAsks(cmds: seq<Command>) {
    forall c :: c in cmds ==> !Asks(c)
  }

  lemma AnswersAskNothing(answers: seq<Command>)
    requires GoodAnswers(answers)
    ensures NoneAsks(answers)
  {
    forall c | c in answers
      ensures !Asks(c)
    {
      var i :| 0 <= i < |answers| && answers[i] == c;
      assert GoodAnswer(answers[i]);
    }
  }

  /** Only the response itself asks peers or arms timers. */
  lemma OnlyFirstAsks(s: Core, e: Event, s': Core, answers: seq<Command>, first: seq<Command>, emits: seq<Command>,
                      rest: seq<Command>)
    requires CoreInv(s) && EventOk(e) && IsResponse(e) && InParts(s, e, s', answers, first, emits, rest)
    ensures NoneAsks(answers) && NoneAsks(emits) && NoneAsks(rest)
  {
    AnswersAskNothing(answers);
  }

  lemma CountInFirst(answers: seq<Command>, first: seq<Command>, emits: seq<Command>, rest: seq<Command>, c: Command)
    requires NoneAsks(answers) && NoneAsks(emits) && NoneAsks(rest) && Asks(c)
    ensures multiset(answers + first + emits + rest)[c] == multiset(first)[c]
  {
    assert c !in answers && c !in emits && c !in rest;
  }

  // ----- Asking peers -----

  lemma RetryCounts(peer: Option<NodeId>, q: Request, who: NodeId, q': Request)
    ensures multiset(RetryCommands(peer, q))[SendRequest(who, q')] == if q' == q && peer == Some(who) then 1 else 0
    ensures multiset(RetryCommands(peer, q))[ScheduleTimeout(q')] == if q' == q then 1 else 0
  {
  }

  lemma RetryIsForAnswered(s: Core, e: Event, q: Request)
    requires IsResponse(e) && MustRetry(s, e, q)
    ensures q == AnsweredRequest(e.response) && !Ignored(s, e.response)
  {
  }

  /** The commands of the response itself are those of a retry if it calls for one, and ask nothing
      if not. */
  ghost predicate AsksAsCalledFor(s: Core, e: Event, first: seq<Command>)
    requires IsResponse(e)
  {
    var q := AnsweredRequest(e.response);
    if MustRetry(s, e, q) then first == RetryCommands(e.peer, q) else NoneAsks(first)
  }

  lemma FirstAsksAsCalledFor(s: Core, e: Event)
    requires CoreInv(s) && EventOk(e) && IsResponse(e) && !Ignored(s, e.response)
    ensures AsksAsCalledFor(s, e, FirstCommands(s, Sender(e), e.response, e.peer))
  {
  }

  lemma PartsAskAsCalledFor(s: Core, e: Event, s': Core, answers: seq<Command>, first: seq<Command>, emits: seq<Command>,
                            rest: seq<Command>)
    requires CoreInv(s) && EventOk(e) && IsResponse(e) && InParts(s, e, s', answers, first, emits, rest)
    ensures AsksAsCalledFor(s, e, first)
  {
    if Ignored(s, e.response) {
      if MustRetry(s, e, AnsweredRequest(e.response)) {
        RetryIsForAnswered(s, e, AnsweredRequest(e.response));
      }
    } else {
      FirstAsksAsCalledFor(s, e);
    }
  }

  lemma CalledForCounts(s: Core, e: Event, first: seq<Command>, who: NodeId, q: Request)
    requires IsResponse(e) && AsksAsCalledFor(s, e, first)
    ensures multiset(first)[SendRequest(who, q)] == if MustRetry(s, e, q) && e.peer == Some(who) then 1 else 0
    ensures multiset(first)[ScheduleTimeout(q)] == if MustRetry(s, e, q) then 1 else 0
  {
    var q' := AnsweredRequest(e.response);
    if MustRetry(s, e, q) {
      RetryIsForAnswered(s, e, q);
    }
    if MustRetry(s, e, q') {
      RetryCounts(e.peer, q', who, q);
    } else {
      assert SendRequest(who, q) !in first && ScheduleTimeout(q) !in first;
    }
  }

  lemma QuietEventsAskNothing(s: State, e: Event, out: seq<Command>, s': State)
    requires CoreInv(s.core) && EventOk(e) && Step(s, e, out, s')
    requires e.SelfRequestEvent? || e.CancelEvent? || e.PeerRequestEvent?
    ensures NoneAsks(out)
  {
  }

  lemma TimeoutAsks(s: State, e: Event, out: seq<Command>, s': State, who: NodeId, q: Request)
    requires CoreInv(s.core) && EventOk(e) && Step(s, e, out, s') && e.TimeoutEvent?
    ensures multiset(out)[SendRequest(who, q)] == if MustRetry(s.core, e, q) && e.peer == Some(who) then 1 else 0
    ensures multiset(out)[ScheduleTimeout(q)] == if MustRetry(s.core, e, q) then 1 else 0
  {
    RetryCounts(e.peer, e.request, who, q);
  }

  lemma NoneAsksCounts(cmds: seq<Command>, who: NodeId, q: Request)
    requires NoneAsks(cmds)
    ensures multiset(cmds)[SendRequest(who, q)] == 0 && multiset(cmds)[ScheduleTimeout(q)] == 0
  {
    assert SendRequest(who, q) !in cmds && ScheduleTimeout(q) !in cmds;
  }

  lemma ResponseAsks(s: State, e: Event, out: seq<Command>, s': State, who: NodeId, q: Request)
    requires CoreInv(s.core) && EventOk(e) && Step(s, e, out, s') && IsResponse(e)
    ensures multiset(out)[SendRequest(who, q)] == if MustRetry(s.core, e, q) && e.peer == Some(who) then 1 else 0
    ensures multiset(out)[ScheduleTimeout(q)] == if MustRetry(s.core, e, q) then 1 else 0
  {
    var answers, first, emits, rest := StepInParts(s, e, out, s');
    OnlyFirstAsks(s.core, e, s'.core, answers, first, emits, rest);
    CountInFirst(answers, first, emits, rest, SendRequest(who, q));
    CountInFirst(answers, first, emits, rest, ScheduleTimeout(q));
    PartsAskAsCalledFor(s.core, e, s'.core, answers, first, emits, rest);
    CalledForCounts(s.core, e, first, who, q);
  }

  /** Every event, every request and every peer: the request is sent to the peer if and only if a
      retry is called for and this peer was chosen, then once; and the timer is armed along with it. */
  lemma StepAsks(s: State, e: Event, out: seq<Command>, s': State, who: NodeId, q: Request)
    requires CoreInv(s.core) && EventOk(e) && Step(s, e, out, s')
    ensures multiset(out)[SendRequest(who, q)] == if MustRetry(s.core, e, q) && e.peer == Some(who) then 1 else 0
    ensures multiset(out)[ScheduleTimeout(q)] == if MustRetry(s.core, e, q) then 1 else 0
  {
    if e.TimeoutEvent? {
      TimeoutAsks(s, e, out, s', who, q);
    } else if IsResponse(e) {
      ResponseAsks(s, e, out, s', who, q);
    } else {
      QuietEventsAskNothing(s, e, out, s');
      NoneAsksCounts(out, who, q);
    }
  }

  // ----- Where requests go -----

  /** The scheduler leaves a request where it is, starts it at the ledger, or drops it because its
      body is at hand. */
  lemma ScheduledTargets(a: Core, cache: BlockCache, s': Core, q: Request)
    requires cache.Valid() && Scheduled(a, cache, s')
    ensures || SentTo(s', q) == SentTo(a, q)
            || (SentTo(a, q) == None && SentTo(s', q) == Some(None))
            || (q.PayloadRequest? && SentTo(s', q) == None && q.bodyId !in s'.payloads && IsCached(a.completed, cache, q.bodyId))
  {
  }

  /** What a response itself does to the target of a request. */
  ghost predicate Retargeted(s: Core, e: Event, a: Core, q: Request) {
    if MustRetry(s, e, q) && IsResponse(e) then SentTo(a, q) == Some(e.peer)
    else SentTo(a, q) == if Ended(s, e, q) then None else SentTo(s, q)
  }

  lemma HeadersAppliedTargets(s: Core, e: Event, q: Request)
    requires CoreInv(s) && IsResponse(e) && e.response.HeadersReply? && e.response.headers.range in s.headers
    requires e.response.headers.range.numBlocks > 0
    ensures Retargeted(s, e, HeadersApplied(s, Sender(e), e.response.headers, e.peer), q)
  {
    if e.response.headers.HeadersFound? {
      WithWaitingAdds(s.payloads, e.response.headers.headers);
    }
  }

  lemma PayloadAppliedTargets(s: Core, e: Event, q: Request)
    requires CoreInv(s) && IsResponse(e) && e.response.PayloadReply? && !Ignored(s, e.response)
    ensures Retargeted(s, e, PayloadApplied(s, Sender(e), e.response.payload, e.peer), q)
  {
  }

  lemma AppliedTargets(s: Core, e: Event, q: Request)
    requires CoreInv(s) && EventOk(e) && IsResponse(e) && !Ignored(s, e.response)
    ensures Retargeted(s, e, Applied(s, Sender(e), e.response, e.peer), q)
  {
    if e.response.HeadersReply? {
      HeadersAppliedTargets(s, e, q);
    } else {
      PayloadAppliedTargets(s, e, q);
    }
  }

  lemma AppliedCaches(s: Core, e: Event, q: Request)
    requires CoreInv(s) && EventOk(e) && IsResponse(e) && q.PayloadRequest? && MustRetry(s, e, q)
    requires !Ignored(s, e.response)
    requires IsCached(Applied(s, Sender(e), e.response, e.peer).completed, e.cache, q.bodyId)
    ensures AtHand(s, e.cache, q.bodyId)
  {
  }

  /** After an event that calls for a retry the request is with the chosen peer, or it is dropped
      because its body is at hand; and a request is with a peer only if it was before or was just
      sent there. */
  lemma StepTargets(s: State, e: Event, out: seq<Command>, s': State, q: Request)
    requires CoreInv(s.core) && EventOk(e) && Step(s, e, out, s')
    ensures MustRetry(s.core, e, q) ==>
              || SentTo(s'.core, q) == Some(e.peer)
              || (e.LedgerEvent? && q.PayloadRequest? && q.bodyId !in s'.core.payloads && AtHand(s.core, e.cache, q.bodyId))
    ensures SentTo(s'.core, q).Some? && SentTo(s'.core, q).value.Some? && !MustRetry(s.core, e, q) ==>
              SentTo(s'.core, q) == SentTo(s.core, q)
    ensures SentTo(s'.core, q).Some? && SentTo(s.core, q).Some? && !MustRetry(s.core, e, q) ==>
              SentTo(s'.core, q) == SentTo(s.core, q) || (e.SelfRequestEvent? && e.requester != s.core.mode)
  {
    if IsResponse(e) {
      ResponseTargets(s, e, out, s', q);
    } else {
      QuietStep(s, e, out, s');
      QuietTargets(s.core, e, q);
    }
  }

  /** The own requests after an event that is no response. */
  function AfterQuiet(s: Core, e: Event): Core {
    match e
    case SelfRequestEvent(requester, range) => SelfRequested(s, requester, range)
    case CancelEvent(requester, range) => Cancelled(s, requester, range)
    case TimeoutEvent(request, peer) => TimedOut(s, request, peer)
    case _ => s
  }

  lemma QuietStep(s: State, e: Event, out: seq<Command>, s': State)
    requires CoreInv(s.core) && EventOk(e) && Step(s, e, out, s') && !IsResponse(e)
    ensures s'.core == AfterQuiet(s.core, e)
  {
  }

  lemma QuietTargets(s: Core, e: Event, q: Request)
    requires !IsResponse(e)
    ensures var s' := AfterQuiet(s, e);
            if MustRetry(s, e, q) then SentTo(s', q) == Some(e.peer)
            else || SentTo(s', q) == SentTo(s, q) || SentTo(s', q) == None
                 || (SentTo(s', q) == Some(None) && e.SelfRequestEvent? && (SentTo(s, q) == None || e.requester != s.mode))
  {
  }

  lemma ResponseTargets(s: State, e: Event, out: seq<Command>, s': State, q: Request)
    requires CoreInv(s.core) && EventOk(e) && Step(s, e, out, s') && IsResponse(e)
    ensures MustRetry(s.core, e, q) ==>
              || SentTo(s'.core, q) == Some(e.peer)
              || (q.PayloadRequest? && q.bodyId !in s'.core.payloads && AtHand(s.core, e.cache, q.bodyId))
    ensures SentTo(s'.core, q).Some? && SentTo(s'.core, q).value.Some? && !MustRetry(s.core, e, q) ==>
              SentTo(s'.core, q) == SentTo(s.core, q)
    ensures SentTo(s'.core, q).Some? && SentTo(s.core, q).Some? && !MustRetry(s.core, e, q) ==>
              SentTo(s'.core, q) == SentTo(s.core, q) || (e.SelfRequestEvent? && e.requester != s.core.mode)
  {
    var answers, first, emits, rest := StepInParts(s, e, out, s');
    if MustRetry(s.core, e, q) {
      RetryIsForAnswered(s.core, e, q);
    }
    if !Ignored(s.core, e.response) {
      AppliedTargets(s.core, e, q);
      var a := Applied(s.core, Sender(e), e.response, e.peer);
      ScheduledTargets(a, e.cache, s'.core, q);
      if MustRetry(s.core, e, q) && q.PayloadRequest? && IsCached(a.completed, e.cache, q.bodyId) {
        AppliedCaches(s.core, e, q);
      }
    }
  }

  // ----- Good answers are used -----

  lemma AnswerIsUsed(s: State, e: Event, out: seq<Command>, s': State) returns (cmds: seq<Command>)
    requires CoreInv(s.core) && EventOk(e) && Step(s, e, out, s') && IsResponse(e)
    ensures (forall c :: c in cmds ==> c in out) && AnswerUsed(s.core, Sender(e), e.response, s'.core, cmds)
  {
    if e.LedgerEvent? {
      var k :| 0 <= k <= |out| && LedgerStep(s, e.response, e.cache, e.peer, out[..k], out[k..], s');
      cmds := out[k..];
    } else {
      cmds := out;
    }
    GoodAnswersAreUsed(s.core, Sender(e), e.response, e.cache, e.peer, s'.core, cmds);
  }

  /** Verified headers for a range that is asked for end the header request, whether it was sent to
      the ledger or to a peer: the range is held or emitted with exactly these headers, the other
      header requests stay, and the timer is taken back if a peer answered. */
  lemma HeadersAreUsed(s: State, e: Event, out: seq<Command>, s': State, range: BlockRange)
    requires CoreInv(s.core) && EventOk(e) && Step(s, e, out, s') && BringsHeaders(s.core, e, range)
    ensures s'.core.headers.Keys == s.core.headers.Keys - {range}
    ensures if range in s'.core.completed then SlotHeaders(s'.core.completed[range].blocks) == e.response.headers.headers
            else exists c :: c in out && c.Emit? && c.range == range && Headers(c.blocks) == e.response.headers.headers
    ensures e.PeerResponseEvent? ==> ResetTimeout(HeadersRequest(range)) in out
  {
    var cmds := AnswerIsUsed(s, e, out, s');
  }

  /** A body for a request in progress ends the request, whoever was asked: no range still held lacks
      it, and the timer is taken back if a peer answered. */
  lemma BodyIsUsed(s: State, e: Event, out: seq<Command>, s': State, p: BodyId)
    requires CoreInv(s.core) && EventOk(e) && Step(s, e, out, s') && BringsBody(s.core, e, p)
    ensures p !in s'.core.payloads
    ensures BodyInPlace(s'.core.completed, e.response.payload.body)
    ensures e.PeerResponseEvent? ==> ResetTimeout(PayloadRequest(p)) in out
  {
    var cmds := AnswerIsUsed(s, e, out, s');
  }

  // ----- Which requests are left -----

  lemma HeadersAppliedHeaders(s: Core, e: Event, r: BlockRange)
    requires CoreInv(s) && IsResponse(e) && e.response.HeadersReply? && e.response.headers.range in s.headers
    requires e.response.headers.range.numBlocks > 0
    ensures r in HeadersApplied(s, Sender(e), e.response.headers, e.peer).headers <==> r in s.headers && !BringsHeaders(s, e, r)
  {
  }

  lemma AppliedHeaders(s: Core, e: Event, r: BlockRange)
    requires CoreInv(s) && EventOk(e) && IsResponse(e) && !Ignored(s, e.response)
    ensures r in Applied(s, Sender(e), e.response, e.peer).headers <==> r in s.headers && !BringsHeaders(s, e, r)
  {
    if e.response.HeadersReply? {
      HeadersAppliedHeaders(s, e, r);
    }
  }

  lemma IgnoredBringsNothing(s: Core, e: Event, r: BlockRange)
    requires IsResponse(e) && Ignored(s, e.response)
    ensures !BringsHeaders(s, e, r)
  {
  }

  /** A header request is ended by verified headers and by no other response. */
  lemma HeaderRequestsLeft(s: State, e: Event, out: seq<Command>, s': State, r: BlockRange)
    requires CoreInv(s.core) && EventOk(e) && Step(s, e, out, s') && IsResponse(e)
    ensures r in s'.core.headers <==> r in s.core.headers && !BringsHeaders(s.core, e, r)
  {
    var answers, first, emits, rest := StepInParts(s, e, out, s');
    if Ignored(s.core, e.response) {
      IgnoredBringsNothing(s.core, e, r);
    } else {
      AppliedHeaders(s.core, e, r);
    }
  }

  /** The body of one of the headers that the response brings. */
  predicate BringsHeaderOf(s: Core, e: Event, p: BodyId) {
    && IsResponse(e) && e.response.HeadersReply? && BringsHeaders(s, e, e.response.headers.range)
    && exists i :: 0 <= i < |e.response.headers.headers| && e.response.headers.headers[i].bodyId == p
  }

  /** The response is about a request in progress. */
  predicate IsUsed(s: Core, e: Event) {
    IsResponse(e) && SentTo(s, AnsweredRequest(e.response)).Some?
  }

  lemma UsedIsNotIgnored(s: Core, e: Event)
    requires IsResponse(e)
    ensures IsUsed(s, e) <==> !Ignored(s, e.response)
  {
  }

  lemma {:induction false} WithWaitingIs(payloads: PayloadRequests, headers: seq<Header>, p: BodyId)
    ensures p in WithWaiting(payloads, headers) <==>
              p in payloads || exists i :: 0 <= i < |headers| && headers[i].bodyId == p
    decreases |headers|
  {
    if headers != [] {
      var n := |headers| - 1;
      WithWaitingIs(payloads, headers[..n], p);
      if i :| 0 <= i < |headers| && headers[i].bodyId == p {
        assert i < n ==> headers[..n][i].bodyId == p;
      }
      if i :| 0 <= i < n && headers[..n][i].bodyId == p {
        assert headers[i].bodyId == p;
      }
    }
  }

  lemma HeadersAppliedRequests(s: Core, e: Event, p: BodyId)
    requires CoreInv(s) && IsResponse(e) && e.response.HeadersReply? && e.response.headers.range in s.headers
    requires e.response.headers.range.numBlocks > 0
    ensures p in HeadersApplied(s, Sender(e), e.response.headers, e.peer).payloads <==> p in s.payloads || BringsHeaderOf(s, e, p)
  {
    if e.response.headers.HeadersFound? {
      WithWaitingIs(s.payloads, e.response.headers.headers, p);
    }
  }

  lemma PayloadAppliedRequests(s: Core, e: Event, p: BodyId)
    requires CoreInv(s) && IsResponse(e) && e.response.PayloadReply? && !Ignored(s, e.response)
    ensures p in PayloadApplied(s, Sender(e), e.response.payload, e.peer).payloads <==> p in s.payloads && !BringsBody(s, e, p)
  {
  }

  lemma AppliedRequests(s: Core, e: Event, p: BodyId)
    requires CoreInv(s) && EventOk(e) && IsResponse(e) && !Ignored(s, e.response)
    ensures p in Applied(s, Sender(e), e.response, e.peer).payloads <==>
              (p in s.payloads || BringsHeaderOf(s, e, p)) && !BringsBody(s, e, p)
  {
    if e.response.HeadersReply? {
      HeadersAppliedRequests(s, e, p);
    } else {
      PayloadAppliedRequests(s, e, p);
    }
  }

  lemma CacheHas(cache: BlockCache, p: BodyId)
    requires cache.Valid()
    ensures cache.GetPayload(p).Some? <==> InCache(cache, p)
  {
  }

  lemma CachedIsAtHand(s: Core, cache: BlockCache, p: BodyId)
    requires cache.Valid()
    ensures IsCached(s.completed, cache, p) <==> AtHand(s, cache, p)
  {
    CacheHas(cache, p);
  }

  /** A range with nothing kept adds nothing to what is cached. */
  lemma NewRangeCachesNothing(completed: CompletedHeaders, range: BlockRange, ch: CompletedHeader, cache: BlockCache, p: BodyId)
    requires cache.Valid() && range !in completed && ch.payloadCache == map[]
    ensures IsCached(completed[range := ch], cache, p) <==> IsCached(completed, cache, p)
  {
    var after := completed[range := ch];
    if r :| r in completed && p in completed[r].payloadCache {
      assert r in after && p in after[r].payloadCache;
    }
  }

  /** Headers leave what is at hand as it was. */
  lemma HeadersAppliedAtHand(s: Core, sender: Option<NodeId>, response: HeadersResponse, cache: BlockCache, peer: Option<NodeId>, p: BodyId)
    requires CoreInv(s) && cache.Valid() && response.range in s.headers && response.range.numBlocks > 0
    ensures IsCached(HeadersApplied(s, sender, response, peer).completed, cache, p) <==> AtHand(s, cache, p)
  {
    CachedIsAtHand(s, cache, p);
    if response.HeadersFound? {
      NewRangeCachesNothing(s.completed, response.range, CompletedHeader(s.mode, FreshSlots(response.headers), map[]), cache, p);
    }
  }

  /** Ranges that are gone, or have been handed another body, say nothing new about a body that
      nobody has kept. */
  lemma StillNotCached(before: CompletedHeaders, after: CompletedHeaders, cache: BlockCache, p: BodyId)
    requires cache.Valid() && (forall r :: r in before ==> p !in before[r].payloadCache)
    requires forall r :: r in after ==> r in before && (p in after[r].payloadCache ==> p in before[r].payloadCache)
    ensures IsCached(after, cache, p) <==> IsCached(before, cache, p)
  {
  }

  lemma PayloadAppliedCaches(s: Core, sender: Option<NodeId>, response: BodyResponse, peer: Option<NodeId>, p: BodyId)
    requires CoreInv(s) && !Ignored(s, PayloadReply(response)) && (response.BodyFound? ==> response.body.GetId() != p)
    ensures var after := Applied(s, sender, PayloadReply(response), peer).completed;
            forall r :: r in after ==> r in s.completed && (p in after[r].payloadCache ==> p in s.completed[r].payloadCache)
  {
  }

  /** So does a body, except for itself. */
  lemma PayloadAppliedAtHand(s: Core, sender: Option<NodeId>, response: BodyResponse, cache: BlockCache, peer: Option<NodeId>, p: BodyId)
    requires CoreInv(s) && Unheld(s) && cache.Valid() && !Ignored(s, PayloadReply(response))
    requires p in s.payloads && (response.BodyFound? ==> response.body.GetId() != p)
    ensures IsCached(Applied(s, sender, PayloadReply(response), peer).completed, cache, p) <==> AtHand(s, cache, p)
  {
    CachedIsAtHand(s, cache, p);
    PayloadAppliedCaches(s, sender, response, peer, p);
    StillNotCached(s.completed, Applied(s, sender, PayloadReply(response), peer).completed, cache, p);
  }

  lemma AppliedAtHand(s: Core, e: Event, p: BodyId)
    requires CoreInv(s) && Unheld(s) && EventOk(e) && IsResponse(e) && !Ignored(s, e.response)
    requires (p in s.payloads || BringsHeaderOf(s, e, p)) && !BringsBody(s, e, p)
    ensures IsCached(Applied(s, Sender(e), e.response, e.peer).completed, e.cache, p) <==> AtHand(s, e.cache, p)
  {
    match e.response
    case HeadersReply(headers) => HeadersAppliedAtHand(s, Sender(e), headers, e.cache, e.peer, p);
    case PayloadReply(payload) => PayloadAppliedAtHand(s, Sender(e), payload, e.cache, e.peer, p);
  }

  lemma ScheduledRequests(a: Core, cache: BlockCache, s': Core, p: BodyId)
    requires cache.Valid() && Scheduled(a, cache, s')
    ensures p in s'.payloads <==> p in a.payloads && !IsCached(a.completed, cache, p)
  {
  }

  /** A body is asked for after a response if and only if it was before, or is new with the headers,
      and neither came with the response nor is at hand when the response is used. */
  lemma BodyRequestsLeft(s: State, e: Event, out: seq<Command>, s': State, p: BodyId)
    requires CoreInv(s.core) && Unheld(s.core) && EventOk(e) && Step(s, e, out, s') && IsResponse(e)
    ensures p in s'.core.payloads <==>
              && (p in s.core.payloads || BringsHeaderOf(s.core, e, p)) && !BringsBody(s.core, e, p)
              && !(IsUsed(s.core, e) && AtHand(s.core, e.cache, p))
  {
    var answers, first, emits, rest := StepInParts(s, e, out, s');
    UsedIsNotIgnored(s.core, e);
    if !Ignored(s.core, e.response) {
      AppliedRequests(s.core, e, p);
      ScheduledRequests(Applied(s.core, Sender(e), e.response, e.peer), e.cache, s'.core, p);
      if (p in s.core.payloads || BringsHeaderOf(s.core, e, p)) && !BringsBody(s.core, e, p) {
        AppliedAtHand(s.core, e, p);
      }
    }
  }

  lemma ScheduledUnheld(a: Core, cache: BlockCache, s': Core)
    requires cache.Valid() && Scheduled(a, cache, s')
    ensures Unheld(s') && forall p :: p in s'.payloads ==> !InCache(cache, p)
  {
    var found := CachedIds(a, cache);
    forall p | p in s'.payloads
      ensures !InCache(cache, p) && forall r :: r in s'.completed ==> p !in s'.completed[r].payloadCache
    {
      CacheHas(cache, p);
      assert p in a.payloads && p !in found;
      forall r | r in s'.completed
        ensures p !in s'.completed[r].payloadCache
      {
        assert p !in a.completed[r].payloadCache && p !in Missing(a.completed[r], found);
      }
    }
  }

  lemma FewerRequestsUnheld(s: Core, s': Core)
    requires Unheld(s) && s'.payloads.Keys <= s.payloads.Keys && (forall r :: r in s'.completed ==> r in s.completed && s'.completed[r] == s.completed[r])
    ensures Unheld(s')
  {
  }

  lemma QuietAddsNothing(s: Core, e: Event)
    requires !IsResponse(e)
    ensures var s' := AfterQuiet(s, e);
            && s'.payloads.Keys <= s.payloads.Keys
            && forall r :: r in s'.completed ==> r in s.completed && s'.completed[r] == s.completed[r]
  {
  }

  /** Nothing that is kept is asked for: every step leaves it so. */
  lemma StepKeepsUnheld(s: State, e: Event, out: seq<Command>, s': State)
    requires CoreInv(s.core) && Unheld(s.core) && EventOk(e) && Step(s, e, out, s')
    ensures Unheld(s'.core)
  {
    if IsResponse(e) {
      var answers, first, emits, rest := StepInParts(s, e, out, s');
      if !Ignored(s.core, e.response) {
        ScheduledUnheld(Applied(s.core, Sender(e), e.response, e.peer), e.cache, s'.core);
      }
    } else {
      QuietStep(s, e, out, s');
      QuietAddsNothing(s.core, e);
      FewerRequestsUnheld(s.core, s'.core);
    }
  }

  // ----- Timers taken back, and fetches made -----

  lemma FirstResets(s: Core, e: Event, q: Request)
    requires CoreInv(s) && EventOk(e) && IsResponse(e) && !Ignored(s, e.response)
    ensures ResetTimeout(q) in FirstCommands(s, Sender(e), e.response, e.peer) <==> e.PeerResponseEvent? && Ended(s, e, q)
    ensures forall p :: FetchPayload(p) !in FirstCommands(s, Sender(e), e.response, e.peer)
  {
  }

  lemma RestResets(a: Core, cache: BlockCache, s': Core, rest: seq<Command>, q: Request)
    requires cache.Valid() && Scheduled(a, cache, s') && SchedulerSays(a, cache, s', rest)
    ensures ResetTimeout(q) in rest <==>
              q.PayloadRequest? && q.bodyId !in s'.payloads && SentTo(a, q).Some? && SentTo(a, q).value.Some?
  {
  }

  lemma RestFetches(a: Core, cache: BlockCache, s': Core, rest: seq<Command>, p: BodyId)
    requires cache.Valid() && Scheduled(a, cache, s') && SchedulerSays(a, cache, s', rest)
    ensures FetchPayload(p) in rest <==> SentTo(s', PayloadRequest(p)).Some? && SentTo(a, PayloadRequest(p)).None?
  {
  }

  lemma OnlyTwoParts(answers: seq<Command>, first: seq<Command>, emits: seq<Command>, rest: seq<Command>, c: Command)
    requires GoodAnswers(answers) && AllEmits(emits) && (c.ResetTimeout? || c.FetchPayload?)
    ensures c in answers + first + emits + rest <==> c in first || c in rest
  {
    forall i | 0 <= i < |answers|
      ensures answers[i] != c
    {
      assert GoodAnswer(answers[i]);
    }
  }

  /** Where a request is once the response itself has been dealt with. */
  function TargetAfter(s: Core, e: Event, q: Request): Option<Option<NodeId>>
    requires IsResponse(e)
  {
    if MustRetry(s, e, q) then Some(e.peer) else SentTo(s, q)
  }

  /** A response takes back the timer of a request if and only if a peer brought what was asked for,
      or the request had gone to a peer and is dropped because its body is at hand. */
  ghost predicate TakenBack(s: Core, e: Event, s': Core, q: Request)
    requires IsResponse(e)
  {
    if Ended(s, e, q) then e.PeerResponseEvent?
    else q.PayloadRequest? && q.bodyId !in s'.payloads && TargetAfter(s, e, q).Some? && TargetAfter(s, e, q).value.Some?
  }

  lemma IgnoredTakesBackNothing(s: Core, e: Event, q: Request)
    requires IsResponse(e) && Ignored(s, e.response)
    ensures !TakenBack(s, e, s, q)
  {
  }

  lemma PartsTakeBack(s: Core, e: Event, a: Core, s': Core, first: seq<Command>, rest: seq<Command>, q: Request)
    requires IsResponse(e) && Retargeted(s, e, a, q)
    requires ResetTimeout(q) in first <==> e.PeerResponseEvent? && Ended(s, e, q)
    requires ResetTimeout(q) in rest <==>
               q.PayloadRequest? && q.bodyId !in s'.payloads && SentTo(a, q).Some? && SentTo(a, q).value.Some?
    ensures ResetTimeout(q) in first || ResetTimeout(q) in rest <==> TakenBack(s, e, s', q)
  {
  }

  lemma ResponseTakesBack(s: State, e: Event, out: seq<Command>, s': State, q: Request)
    requires CoreInv(s.core) && EventOk(e) && Step(s, e, out, s') && IsResponse(e)
    ensures ResetTimeout(q) in out <==> TakenBack(s.core, e, s'.core, q)
  {
    var answers, first, emits, rest := StepInParts(s, e, out, s');
    OnlyTwoParts(answers, first, emits, rest, ResetTimeout(q));
    if Ignored(s.core, e.response) {
      IgnoredTakesBackNothing(s.core, e, q);
    } else {
      var a := Applied(s.core, Sender(e), e.response, e.peer);
      AppliedTargets(s.core, e, q);
      FirstResets(s.core, e, q);
      RestResets(a, e.cache, s'.core, rest, q);
      PartsTakeBack(s.core, e, a, s'.core, first, rest, q);
    }
  }

  /** A response has a body fetched from the ledger if and only if its request is started by it. */
  lemma ResponseFetches(s: State, e: Event, out: seq<Command>, s': State, p: BodyId)
    requires CoreInv(s.core) && EventOk(e) && Step(s, e, out, s') && IsResponse(e)
    ensures FetchPayload(p) in out <==> SentTo(s'.core, PayloadRequest(p)).Some? && SentTo(s.core, PayloadRequest(p)).None?
  {
    var answers, first, emits, rest := StepInParts(s, e, out, s');
    OnlyTwoParts(answers, first, emits, rest, FetchPayload(p));
    if !Ignored(s.core, e.response) {
      var a := Applied(s.core, Sender(e), e.response, e.peer);
      AppliedTargets(s.core, e, PayloadRequest(p));
      FirstResets(s.core, e, PayloadRequest(p));
      RestFetches(a, e.cache, s'.core, rest, p);
      EndedIsGone(s, e, out, s', p);
    }
  }

  lemma EndedIsGone(s: State, e: Event, out: seq<Command>, s': State, p: BodyId)
    requires CoreInv(s.core) && EventOk(e) && Step(s, e, out, s') && IsResponse(e)
    ensures Ended(s.core, e, PayloadRequest(p)) ==> SentTo(s'.core, PayloadRequest(p)).None?
  {
    if BringsBody(s.core, e, p) {
      BodyIsUsed(s, e, out, s', p);
    }
  }

  /** A self request has the headers fetched from the ledger exactly when it is accepted, and is then
      in progress there for the requester. */
  lemma SelfRequestFetches(s: State, e: Event, out: seq<Command>, s': State)
    requires CoreInv(s.core) && EventOk(e) && Step(s, e, out, s') && e.SelfRequestEvent?
    ensures out == if Accepts(s.core, e, e.range) then [FetchHeaders(e.range)] else []
    ensures Accepts(s.core, e, e.range) ==> SentTo(s'.core, HeadersRequest(e.range)) == Some(None)
    ensures s'.core.mode == if e.range.numBlocks == 0 then s.core.mode else e.requester
  {
  }
}
