/** The steps of blocksync's handlers on the self-request state, with the account of every
    request ever accepted (monad-blocksync/src/blocksync.rs). */
module BlockSyncSteps {
  import opened Collections
  import opened ConsensusTypes
  import opened BlockSyncModel

  /** Every self request accepted, and those ended other than by an Emit. */
  datatype Books = Books(accepted: multiset<BlockRange>, cancelled: multiset<BlockRange>, cleared: multiset<BlockRange>)

  /** Every accepted request for a range is tracked, emitted, cancelled or cleared, exactly once. */
  ghost predicate BalancedAt(tracked: set<BlockRange>, emitted: multiset<BlockRange>, books: Books, r: BlockRange) {
    books.accepted[r] == emitted[r] + books.cancelled[r] + books.cleared[r] + (if r in tracked then 1 else 0)
  }

  ghost predicate Balanced(tracked: set<BlockRange>, emitted: multiset<BlockRange>, books: Books) {
    forall r :: BalancedAt(tracked, emitted, books, r)
  }

  lemma BalancedAfterAccept(tracked: set<BlockRange>, emitted: multiset<BlockRange>, books: Books, range: BlockRange)
    requires Balanced(tracked, emitted, books) && range !in tracked
    ensures Balanced(tracked + {range}, emitted, books.(accepted := books.accepted + multiset{range}))
  {
    forall r
      ensures BalancedAt(tracked + {range}, emitted, books.(accepted := books.accepted + multiset{range}), r)
    {
      assert BalancedAt(tracked, emitted, books, r);
    }
  }

  lemma BalancedAfterClear(tracked: set<BlockRange>, emitted: multiset<BlockRange>, books: Books, left: set<BlockRange>)
    requires Balanced(tracked, emitted, books) && left <= tracked
    ensures Balanced(left, emitted, books.(cleared := books.cleared + multiset(tracked - left)))
  {
    forall r
      ensures BalancedAt(left, emitted, books.(cleared := books.cleared + multiset(tracked - left)), r)
    {
      assert BalancedAt(tracked, emitted, books, r);
    }
  }

  lemma BalancedAfterCancel(tracked: set<BlockRange>, emitted: multiset<BlockRange>, books: Books, left: set<BlockRange>)
    requires Balanced(tracked, emitted, books) && left <= tracked
    ensures Balanced(left, emitted, books.(cancelled := books.cancelled + multiset(tracked - left)))
  {
    forall r
      ensures BalancedAt(left, emitted, books.(cancelled := books.cancelled + multiset(tracked - left)), r)
    {
      assert BalancedAt(tracked, emitted, books, r);
    }
  }

  lemma BalancedAfterEmit(tracked: set<BlockRange>, emitted: multiset<BlockRange>, books: Books, range: BlockRange)
    requires Balanced(tracked, emitted, books) && range in tracked
    ensures Balanced(tracked - {range}, emitted + multiset{range}, books)
  {
    forall r
      ensures BalancedAt(tracked - {range}, emitted + multiset{range}, books, r)
    {
      assert BalancedAt(tracked, emitted, books, r);
    }
  }

  /** Holds between the steps inside a handler. */
  ghost predicate Working(s: Core, env: Env, books: Books, answering: Option<Request>) {
    CoreInv(s) && Live(s, env, answering) && Balanced(Tracked(s), env.emitted, books)
  }

  /** Holds between handler calls. */
  ghost predicate Resting(s: Core, env: Env, books: Books) {
    Working(s, env, books, None) && Settled(s)
  }

  lemma AfterOne(env: Env, c: Command)
    ensures AfterAll(env, [c]) == After(env, c)
  {
    assert [c][..0] == [];
  }

  // ----- handle_self_request -----

  function EmptyCore(mode: Requester): Core {
    Core(map[], map[], 0, map[], mode)
  }

  /** A requester other than the current mode first drops everything in progress. */
  function SwitchMode(s: Core, requester: Requester): Core {
    if requester == s.mode then s else EmptyCore(requester)
  }

  /** `self_request_exists`. */
  predicate RequestExists(s: Core, range: BlockRange)
    ensures RequestExists(s, range) <==> range in Tracked(s)
  {
    range in s.headers || range in s.completed
  }

  /** A range joins the header requests unless it is tracked already. */
  function TrackingOf(s: Core, range: BlockRange): Core {
    if RequestExists(s, range) then s else s.(headers := s.headers[range := SelfRequest(s.mode, None)])
  }

  function TrackCommands(s: Core, range: BlockRange): seq<Command> {
    if RequestExists(s, range) then [] else [FetchHeaders(range)]
  }

  ghost function TrackBooks(books: Books, s: Core, range: BlockRange): Books {
    if RequestExists(s, range) then books else books.(accepted := books.accepted + multiset{range})
  }

  function SelfRequested(s: Core, requester: Requester, range: BlockRange): Core {
    if range.numBlocks == 0 then s else TrackingOf(SwitchMode(s, requester), range)
  }

  function RequestCommands(s: Core, requester: Requester, range: BlockRange): seq<Command> {
    if range.numBlocks == 0 then [] else TrackCommands(SwitchMode(s, requester), range)
  }

  ghost function SwitchBooks(books: Books, s: Core, requester: Requester): Books {
    if requester == s.mode then books else books.(cleared := books.cleared + multiset(Tracked(s)))
  }

  ghost function RequestBooks(books: Books, s: Core, requester: Requester, range: BlockRange): Books {
    if range.numBlocks == 0 then books
    else TrackBooks(SwitchBooks(books, s, requester), SwitchMode(s, requester), range)
  }

  lemma EmptyCoreRests(mode: Requester, env: Env)
    ensures var s := EmptyCore(mode); CoreInv(s) && Live(s, env, None) && Settled(s) && Tracked(s) == {}
  {
    assert Initiated(EmptyCore(mode).payloads) == {};
  }

  lemma SwitchModeRests(s: Core, env: Env, books: Books, requester: Requester)
    requires Resting(s, env, books)
    ensures Resting(SwitchMode(s, requester), env, SwitchBooks(books, s, requester))
    ensures SwitchMode(s, requester).mode == requester
    ensures Tracked(SwitchMode(s, requester)) == (if requester == s.mode then Tracked(s) else {})
  {
    if requester != s.mode {
      EmptyCoreRests(requester, env);
      assert Tracked(s) - {} == Tracked(s);
      BalancedAfterClear(Tracked(s), env.emitted, books, {});
    }
  }

  lemma AddRequestKeepsInv(s: Core, env: Env, range: BlockRange)
    requires CoreInv(s) && Live(s, env, None) && range.numBlocks > 0 && range !in Tracked(s)
    ensures var s' := s.(headers := s.headers[range := SelfRequest(s.mode, None)]);
            CoreInv(s') && Live(s', After(env, FetchHeaders(range)), None) && Tracked(s') == Tracked(s) + {range}
  {
    var s' := s.(headers := s.headers[range := SelfRequest(s.mode, None)]);
    assert Attended(After(env, FetchHeaders(range)), HeadersRequest(range), s'.headers[range]);
    LiveAfterPush(s, env, None, FetchHeaders(range));
  }

  lemma AddRequestRests(s: Core, env: Env, books: Books, range: BlockRange)
    requires Resting(s, env, books) && range.numBlocks > 0 && range !in Tracked(s)
    ensures var s' := s.(headers := s.headers[range := SelfRequest(s.mode, None)]);
            && Resting(s', After(env, FetchHeaders(range)), books.(accepted := books.accepted + multiset{range}))
            && Tracked(s') == Tracked(s) + {range}
  {
    AddRequestKeepsInv(s, env, range);
    BalancedAfterAccept(Tracked(s), env.emitted, books, range);
  }

  /** A self request leaves the range tracked, on the account, and attended. */
  lemma SelfRequestedRests(s: Core, env: Env, books: Books, requester: Requester, range: BlockRange)
    requires Resting(s, env, books)
    ensures Resting(SelfRequested(s, requester, range), AfterAll(env, RequestCommands(s, requester, range)),
                    RequestBooks(books, s, requester, range))
    ensures range.numBlocks > 0 ==>
              Tracked(SelfRequested(s, requester, range)) == (if requester == s.mode then Tracked(s) else {}) + {range}
  {
    if range.numBlocks > 0 {
      var s' := SwitchMode(s, requester);
      SwitchModeRests(s, env, books, requester);
      if RequestExists(s', range) {
        assert Tracked(s') + {range} == Tracked(s');
      } else {
        AddRequestRests(s', env, SwitchBooks(books, s, requester), range);
        AfterOne(env, FetchHeaders(range));
      }
    }
  }

  // ----- handle_self_cancel_request -----

  function Cancelled(s: Core, requester: Requester, range: BlockRange): Core {
    s.(headers := if range in s.headers && s.headers[range].requester == requester then s.headers - {range} else s.headers,
       completed := if range in s.completed && s.completed[range].requester == requester
                    then s.completed - {range} else s.completed)
  }

  ghost function CancelBooks(books: Books, s: Core, requester: Requester, range: BlockRange): Books {
    books.(cancelled := books.cancelled + multiset(Tracked(s) - Tracked(Cancelled(s, requester, range))))
  }

  /** Forgetting ranges disturbs nothing else. */
  lemma FewerKeepInv(s: Core, s': Core)
    requires CoreInv(s) && s'.payloads == s.payloads && s'.inFlight == s.inFlight && s'.mode == s.mode
    requires forall r :: r in s'.headers ==> r in s.headers && s'.headers[r] == s.headers[r]
    requires forall r :: r in s'.completed ==> r in s.completed && s'.completed[r] == s.completed[r]
    ensures CoreInv(s') && (Settled(s) ==> Settled(s'))
  {
  }

  lemma CancelledTracks(s: Core, requester: Requester, range: BlockRange)
    requires CoreInv(s)
    ensures Tracked(Cancelled(s, requester, range)) == Tracked(s) - (if requester == s.mode then {range} else {})
  {
    if range in s.completed {
      assert GoodCompleted(range, s.completed[range], s.mode);
    }
  }

  lemma CancelledKeepsInv(s: Core, requester: Requester, range: BlockRange)
    requires CoreInv(s)
    ensures CoreInv(Cancelled(s, requester, range))
    ensures Settled(s) ==> Settled(Cancelled(s, requester, range))
    ensures Tracked(Cancelled(s, requester, range)) == Tracked(s) - (if requester == s.mode then {range} else {})
  {
    CancelledTracks(s, requester, range);
    FewerKeepInv(s, Cancelled(s, requester, range));
  }

  /** Only the requester that owns the range can cancel it, and only that range goes. */
  lemma CancelledRests(s: Core, env: Env, books: Books, requester: Requester, range: BlockRange)
    requires Resting(s, env, books)
    ensures Resting(Cancelled(s, requester, range), env, CancelBooks(books, s, requester, range))
    ensures Tracked(Cancelled(s, requester, range)) == Tracked(s) - (if requester == s.mode then {range} else {})
  {
    var s' := Cancelled(s, requester, range);
    CancelledKeepsInv(s, requester, range);
    BalancedAfterCancel(Tracked(s), env.emitted, books, Tracked(s'));
    assert LiveHeaders(s'.headers, env, None);
  }

  // ----- Emitting -----

  lemma EmitKeepsInv(s: Core, range: BlockRange)
    requires CoreInv(s) && range in s.completed
    ensures CoreInv(s.(completed := s.completed - {range}))
    ensures Tracked(s.(completed := s.completed - {range})) == Tracked(s) - {range}
  {
  }

  lemma EmitWorks(s: Core, env: Env, books: Books, c: Command)
    requires Working(s, env, books, None) && c.Emit? && c.range in s.completed && EmitOf(c, s.completed[c.range], s.mode)
    ensures GoodCommand(c, s.mode)
    ensures Working(s.(completed := s.completed - {c.range}), After(env, c), books, None)
  {
    EmitOfIsComplete(c.range, s.completed[c.range], s.mode, c);
    EmitKeepsInv(s, c.range);
    LiveAfterPush(s, env, None, c);
    BalancedAfterEmit(Tracked(s), env.emitted, books, c.range);
  }

  // ----- Bodies, headers and retries -----

  lemma BodyArrivedWorks(s: Core, env: Env, books: Books, p: BodyId, body: Body, answering: Option<Request>)
    requires Working(s, env, books, answering) && answering in {None, Some(PayloadRequest(p))}
    requires p in s.payloads && body.GetId() == p
    ensures Working(BodyArrived(s, p, body), env, books, None)
    ensures Working(BodyArrived(s, p, body), After(env, ResetTimeout(PayloadRequest(p))), books, None)
  {
    BodyArrivedKeepsInv(s, p, body);
    BodyArrivedKeepsLive(s, p, body, env);
  }

  lemma InitiateWorks(s: Core, env: Env, books: Books, p: BodyId)
    requires Working(s, env, books, None) && p in s.payloads && s.payloads[p].None?
    requires s.inFlight < BLOCKSYNC_MAX_PAYLOAD_REQUESTS
    ensures Working(Initiate(s, p), After(env, FetchPayload(p)), books, None)
  {
    InitiateKeepsInv(s, p, env);
  }

  lemma HeadersArrivedWorks(s: Core, env: Env, books: Books, range: BlockRange, headers: seq<Header>,
                            answering: Option<Request>)
    requires Working(s, env, books, answering) && answering in {None, Some(HeadersRequest(range))}
    requires range in s.headers && VerifyBlockHeaders(range, headers)
    ensures Working(HeadersArrived(s, range, headers), env, books, None)
    ensures Working(HeadersArrived(s, range, headers), After(env, ResetTimeout(HeadersRequest(range))), books, None)
  {
    HeadersArrivedKeepsInv(s, range, headers);
    HeadersArrivedKeepsLive(s, range, headers, env);
  }

  function Armed(env: Env, q: Request): Env {
    env.(timers := env.timers + {q})
  }

  lemma RetryArms(env: Env, to: Option<NodeId>, q: Request, mode: Requester)
    ensures Issued(env, RetryCommands(to, q), Armed(env, q), mode)
  {
    AfterOne(env, ScheduleTimeout(q));
    if to.Some? {
      AfterOne(env, SendRequest(to.value, q));
      AfterPush(env, [SendRequest(to.value, q)], ScheduleTimeout(q));
      assert [SendRequest(to.value, q)] + [ScheduleTimeout(q)] == RetryCommands(to, q);
    }
  }

  lemma ArmingKeepsLive(s: Core, env: Env, answering: Option<Request>, q: Request)
    requires Live(s, env, answering)
    ensures Live(s, Armed(env, q), answering)
  {
  }

  lemma RetryHeadersWorks(s: Core, env: Env, books: Books, range: BlockRange, to: Option<NodeId>, answering: Option<Request>)
    requires Working(s, env, books, answering) && answering in {None, Some(HeadersRequest(range))} && range in s.headers
    ensures Working(RetargetHeaders(s, range, to), Armed(env, HeadersRequest(range)), books, None)
  {
    var env' := Armed(env, HeadersRequest(range));
    ArmingKeepsLive(s, env, answering, HeadersRequest(range));
    RetargetHeadersKeepsInv(s, range, to, env');
  }

  lemma RetryPayloadWorks(s: Core, env: Env, books: Books, p: BodyId, to: Option<NodeId>, answering: Option<Request>)
    requires Working(s, env, books, answering) && answering in {None, Some(PayloadRequest(p))}
    requires p in s.payloads && s.payloads[p].Some?
    ensures Working(RetargetPayload(s, p, to), Armed(env, PayloadRequest(p)), books, None)
    ensures Saturated(s.payloads, s.inFlight) ==> Saturated(RetargetPayload(s, p, to).payloads, s.inFlight)
  {
    var env' := Armed(env, PayloadRequest(p));
    ArmingKeepsLive(s, env, answering, PayloadRequest(p));
    RetargetPayloadKeepsInv(s, p, to, env');
  }

  // ----- Events that use up an attendance -----

  /** One ledger fetch is answered. */
  function LedgerAnswered(env: Env, q: Request): Env {
    env.(ledger := env.ledger - multiset{q})
  }

  lemma LedgerAnsweredWorks(s: Core, env: Env, books: Books, q: Request)
    requires Working(s, env, books, None)
    ensures Working(s, LedgerAnswered(env, q), books, Some(q))
  {
    var env' := LedgerAnswered(env, q);
    forall q' | q' in env.ledger && q' != q
      ensures q' in env'.ledger
    {
    }
  }

  /** A timer fires. */
  function TimerFired(env: Env, q: Request): Env {
    env.(timers := env.timers - {q})
  }

  lemma TimerFiredWorks(s: Core, env: Env, books: Books, q: Request)
    requires Resting(s, env, books)
    requires q.HeadersRequest? ==> q.range !in s.headers
    requires q.PayloadRequest? ==> q.bodyId !in s.payloads || s.payloads[q.bodyId].None?
    ensures Resting(s, TimerFired(env, q), books)
  {
  }

  /** A timer fires for a request still in progress: it is sent again and the timer rearmed, so it
      makes no difference that the old timer is gone. */
  lemma RearmedTimer(env: Env, to: Option<NodeId>, q: Request, mode: Requester)
    ensures Issued(TimerFired(env, q), RetryCommands(to, q), Armed(env, q), mode)
  {
    RetryArms(TimerFired(env, q), to, q, mode);
    assert env.timers - {q} + {q} == env.timers + {q};
  }

  /** Serving a peer adds at most a ledger fetch, which disturbs nothing. */
  lemma ServingRests(s: Core, env: Env, books: Books, c: Command)
    requires Resting(s, env, books) && (c.SendResponse? || c.FetchHeaders? || c.FetchPayload?)
    ensures Resting(s, After(env, c), books)
  {
    LiveAfterPush(s, env, None, c);
  }

  lemma {:induction false} AnswersLeaveEnv(env: Env, cmds: seq<Command>)
    requires forall i :: 0 <= i < |cmds| ==> cmds[i].SendResponse?
    ensures AfterAll(env, cmds) == env
    decreases |cmds|
  {
    if cmds != [] {
      AnswersLeaveEnv(env, cmds[..|cmds| - 1]);
    }
  }
}
