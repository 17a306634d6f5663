/** Blocksync: fetching ranges of blocks for the node itself and serving peers
    (monad-blocksync/src/blocksync.rs).  The peer chosen by `pick_peer` and the order in which
    hash maps are walked are arbitrary; metrics are not modelled. */
module BlockSyncs {
  import opened Collections
  import opened ConsensusTypes
  import opened BlockForest
  import opened ForestQueries
  import opened BlockSyncModel
  import opened BlockSyncSteps

  /** The cached suffix kept for a peer continues the range fetched from the ledger. */
  predicate Continues(ledgerRange: BlockRange, cached: seq<Header>) {
    && ledgerRange.numBlocks > 0
    && HeadersLinked(cached)
    && (cached != [] ==> cached[0].GetParentId() == ledgerRange.lastBlockId)
  }

  /** The range rebuilt from the ledger part and the cached suffix. */
  function Rebuilt(ledgerRange: BlockRange, cached: seq<Header>): BlockRange {
    BlockRange(if cached == [] then ledgerRange.lastBlockId else cached[|cached| - 1].GetId(),
               ledgerRange.numBlocks + |cached|)
  }

  /** Joining the ledger's answer to the cached suffix answers the rebuilt range. */
  lemma JoinedHeadersVerify(ledgerRange: BlockRange, headers: seq<Header>, cached: seq<Header>)
    requires Continues(ledgerRange, cached) && VerifyBlockHeaders(ledgerRange, headers)
    ensures VerifyBlockHeaders(Rebuilt(ledgerRange, cached), headers + cached)
  {
    var joined := headers + cached;
    forall i | 0 < i < |joined|
      ensures joined[i].GetParentId() == joined[i - 1].GetId()
    {
      if i < |headers| {
        assert headers[i].GetParentId() == headers[i - 1].GetId();
      } else if i > |headers| {
        assert cached[i - |headers|].GetParentId() == cached[i - |headers| - 1].GetId();
      }
    }
  }

  /** The newest `n` headers of a list. */
  function LastHeaders(headers: seq<Header>, n: nat): seq<Header> {
    if |headers| <= n then headers else headers[|headers| - n..]
  }

  /** What the cache holds of a range: its newest headers, from the block tree only. */
  function CachedPart(range: BlockRange, cache: BlockCache): (cached: seq<Header>)
    ensures |cached| <= range.numBlocks
  {
    match cache
    case TreeCache(entries, _) => LastHeaders(Headers(ParentChain(entries, range.lastBlockId)), range.numBlocks)
    case BufferCache(_) => []
  }

  /** Splitting a request into a cached suffix and a ledger prefix loses nothing: either the cache
      answers it all, or rebuilding the two parts gives back the range asked for. */
  lemma CachedSuffix(entries: Entries, range: BlockRange)
    requires KeysMatch(entries) && range.numBlocks > 0
    ensures var cached := LastHeaders(Headers(ParentChain(entries, range.lastBlockId)), range.numBlocks);
            && |cached| <= range.numBlocks
            && (|cached| == range.numBlocks ==> VerifyBlockHeaders(range, cached))
            && (|cached| < range.numBlocks ==>
                  var ledgerRange := LedgerPart(range, cached);
                  Continues(ledgerRange, cached) && Rebuilt(ledgerRange, cached) == range)
  {
    var chain := ParentChain(entries, range.lastBlockId);
    ParentChainLinked(entries, range.lastBlockId);
    var all := Headers(chain);
    var cached := LastHeaders(all, range.numBlocks);
    assert HeadersLinked(cached) by {
      forall i | 0 < i < |cached|
        ensures cached[i].GetParentId() == cached[i - 1].GetId()
      {
        var d := |all| - |cached|;
        assert all[d + i].GetParentId() == all[d + i - 1].GetId();
      }
    }
  }

  lemma CachedPartFits(range: BlockRange, cache: BlockCache)
    requires cache.Valid() && range.numBlocks > 0
    ensures var cached := CachedPart(range, cache);
            if |cached| == range.numBlocks then VerifyBlockHeaders(range, cached)
            else Continues(LedgerPart(range, cached), cached) && Rebuilt(LedgerPart(range, cached), cached) == range
  {
    if cache.TreeCache? {
      CachedSuffix(cache.entries, range);
    }
  }

  function LedgerPart(range: BlockRange, cached: seq<Header>): BlockRange
    requires |cached| <= range.numBlocks
  {
    BlockRange(if cached == [] then range.lastBlockId else cached[0].GetParentId(), range.numBlocks - |cached|)
  }

  /** Requests of peers waiting for the ledger, with the cached suffix kept for each. */
  type PeerHeaders = map<BlockRange, map<NodeId, seq<Header>>>

  /** What is kept for each waiting peer rebuilds the range that peer asked for. */
  ghost predicate Serving(waiting: PeerHeaders, asked: map<BlockRange, map<NodeId, BlockRange>>) {
    && waiting.Keys == asked.Keys
    && forall lr :: lr in waiting ==> ServingOne(lr, waiting[lr], asked[lr])
  }

  ghost predicate ServingOne(lr: BlockRange, waiting: map<NodeId, seq<Header>>, asked: map<NodeId, BlockRange>) {
    && waiting.Keys == asked.Keys
    && forall who :: who in waiting ==> Continues(lr, waiting[who]) && asked[who] == Rebuilt(lr, waiting[who])
  }

  /** An answered request that is gone, or that is waiting for a peer, is still attended. */
  lemma AnswerNotNeeded(s: Core, env: Env, books: Books, q: Request)
    requires Working(s, env, books, Some(q))
    requires q.HeadersRequest? ==> q.range !in s.headers || s.headers[q.range].to.Some?
    requires q.PayloadRequest? ==>
               q.bodyId !in s.payloads || s.payloads[q.bodyId].None? || s.payloads[q.bodyId].value.to.Some?
    ensures Working(s, env, books, None)
  {
  }

  function FilledRanges(completed: CompletedHeaders): set<BlockRange> {
    set r | r in completed && Filled(completed[r])
  }

  /** Ranges with a missing body stay as they are. */
  ghost predicate OnlyFilledGone(before: CompletedHeaders, after: CompletedHeaders) {
    && (forall r :: r in after ==> r in before && after[r] == before[r])
    && (forall r :: r in before && !Filled(before[r]) ==> r in after)
  }

  /** Between two emits: `rest` are the filled ranges still to go. */
  ghost predicate Emitting(before: CompletedHeaders, after: CompletedHeaders, rest: set<BlockRange>) {
    rest == FilledRanges(after) && OnlyFilledGone(before, after)
  }

  lemma FilledGone(before: CompletedHeaders, after: CompletedHeaders, rest: set<BlockRange>, range: BlockRange)
    requires Emitting(before, after, rest) && range in rest
    ensures range in after && range in before && before[range] == after[range] && Filled(after[range])
    ensures Emitting(before, after - {range}, rest - {range})
  {
  }

  lemma EmitStep(start: Env, cmds: seq<Command>, env: Env, before: CompletedHeaders, after: CompletedHeaders,
                 rest: set<BlockRange>, mode: Requester, c: Command)
    requires Issued(start, cmds, env, mode) && AllEmits(cmds) && EmitsFilledBut(cmds, before, rest, mode)
    requires Emitting(before, after, rest) && c.Emit? && c.range in rest && c.range in after
    requires GoodCommand(c, mode) && EmitOf(c, after[c.range], mode)
    ensures Issued(start, cmds + [c], After(env, c), mode) && AllEmits(cmds + [c])
    ensures EmitsFilledBut(cmds + [c], before, rest - {c.range}, mode)
    ensures Emitting(before, after - {c.range}, rest - {c.range})
  {
    FilledGone(before, after, rest, c.range);
    IssuedPush(start, cmds, env, c, mode);
    EmitOneMore(cmds, before, rest, mode, c);
  }

  lemma NoFilledLeft(before: CompletedHeaders, after: CompletedHeaders)
    requires Emitting(before, after, {})
    ensures NoneFilled(after) && after == Unfilled(before)
  {
    forall r | r in after
      ensures !Filled(after[r])
    {
      assert r !in FilledRanges(after);
    }
  }

  /** Ledger answers are read back from verified blocks. */
  ghost predicate LedgerHeadersOk(response: HeadersResponse) {
    response.HeadersFound? && response.range.numBlocks > 0 ==> VerifyBlockHeaders(response.range, response.headers)
  }

  function AnsweredRequest(response: Response): Request {
    match response
    case HeadersReply(headers) => HeadersRequest(headers.range)
    case PayloadReply(payload) => PayloadRequest(payload.GetPayloadId())
  }

  /** The peers waiting for a body. */
  function WaitingFor(waiting: map<BodyId, set<NodeId>>, p: BodyId): set<NodeId> {
    if p in waiting then waiting[p] else {}
  }

  /** The commands answer the body to each of these peers, once, and do nothing else. */
  ghost predicate AnswersAll(cmds: seq<Command>, response: BodyResponse, peers: set<NodeId>) {
    && |cmds| == |peers|
    && (forall who :: who in peers ==> SendResponse(who, PayloadReply(response)) in cmds)
    && (forall i :: 0 <= i < |cmds| ==> cmds[i].SendResponse? && cmds[i].response == PayloadReply(response) && cmds[i].to in peers)
  }

  lemma AskingServes(waiting: PeerHeaders, asked: map<BlockRange, map<NodeId, BlockRange>>, lr: BlockRange,
                     sender: NodeId, cached: seq<Header>)
    requires Serving(waiting, asked) && Continues(lr, cached)
    ensures var entry := if lr in waiting then waiting[lr] else map[];
            Serving(waiting[lr := entry[sender := cached]], asked[lr := AskedFor(asked, lr)[sender := Rebuilt(lr, cached)]])
  {
    if lr in waiting {
      assert ServingOne(lr, waiting[lr], asked[lr]);
    }
  }

  /** Peers waiting for the ledger: the cached suffixes kept, who waits for which body, and what
      was asked. */
  datatype Peers = Peers(waiting: PeerHeaders, bodies: map<BodyId, set<NodeId>>,
                         asked: map<BlockRange, map<NodeId, BlockRange>>)

  /** The waiting peers once the answered ones are taken off. */
  function Unlisted(p: Peers, response: Response): Peers {
    match response
    case HeadersReply(h) => p.(waiting := p.waiting - {h.range}, asked := p.asked - {h.range})
    case PayloadReply(b) => p.(bodies := p.bodies - {b.GetPayloadId()})
  }

  /** The sender now waits for the ledger part of the range, with its cached suffix set aside. */
  function Waits(p: Peers, sender: NodeId, range: BlockRange, cached: seq<Header>): Peers
    requires |cached| <= range.numBlocks
  {
    var lr := LedgerPart(range, cached);
    var entry := if lr in p.waiting then p.waiting[lr] else map[];
    p.(waiting := p.waiting[lr := entry[sender := cached]],
       asked := p.asked[lr := AskedFor(p.asked, lr)[sender := range]])
  }

  /** A peer is answered at once exactly when the cache has all it asks for; otherwise just the
      missing part is fetched. */
  ghost predicate PeerServed(completed: CompletedHeaders, p: Peers, sender: NodeId, request: Request, cache: BlockCache,
                             cmds: seq<Command>, p': Peers)
    requires cache.Valid()
  {
    match request
    case HeadersRequest(range) =>
      var cached := CachedPart(range, cache);
      if range.numBlocks == 0 then cmds == [] && p' == p
      else if |cached| == range.numBlocks then
        cmds == [SendResponse(sender, HeadersReply(HeadersFound(range, cached)))] && p' == p
      else cmds == [FetchHeaders(LedgerPart(range, cached))] && p' == Waits(p, sender, range, cached)
    case PayloadRequest(id) =>
      if IsCached(completed, cache, id) then
        && |cmds| == 1 && cmds[0].SendResponse? && cmds[0].to == sender && cmds[0].response.PayloadReply?
        && cmds[0].response.payload.BodyFound? && cmds[0].response.payload.GetPayloadId() == id && p' == p
      else cmds == [FetchPayload(id)] && p' == p.(bodies := WithWaiter(p.bodies, id, sender))
  }

  lemma AnswerPush(cmds: seq<Command>, c: Command)
    requires GoodAnswers(cmds) && GoodAnswer(c)
    ensures GoodAnswers(cmds + [c])
  {
  }

  lemma JoinReplyIsGood(response: HeadersResponse, cached: seq<Header>, who: NodeId)
    requires Continues(response.range, cached) && LedgerHeadersOk(response)
    ensures JoinReply(response, cached).range == Rebuilt(response.range, cached)
    ensures GoodAnswer(SendResponse(who, HeadersReply(JoinReply(response, cached))))
  {
    if response.HeadersFound? {
      JoinedHeadersVerify(response.range, response.headers, cached);
    }
  }

  /** The answer for a peer whose cached suffix was set aside. */
  function JoinReply(response: HeadersResponse, cached: seq<Header>): HeadersResponse {
    match response
    case HeadersFound(range, headers) => HeadersFound(Rebuilt(range, cached), headers + cached)
    case HeadersNotAvailable(range) => HeadersNotAvailable(Rebuilt(range, cached))
  }

  /** One header answer to each asker and to nobody else, for the range asked; headers are sent
      exactly when the ledger had some. */
  ghost predicate AnswersExactly(cmds: seq<Command>, asked: map<NodeId, BlockRange>, found: bool) {
    && (forall i :: 0 <= i < |cmds| ==> AnswersOne(cmds[i], asked, found))
    && (forall i, j :: 0 <= i < j < |cmds| ==> cmds[i].to != cmds[j].to)
    && (forall who :: who in asked ==> exists i :: 0 <= i < |cmds| && cmds[i].to == who)
  }

  function AskedFor(asked: map<BlockRange, map<NodeId, BlockRange>>, lr: BlockRange): map<NodeId, BlockRange> {
    if lr in asked then asked[lr] else map[]
  }

  function WithWaiter(waiting: map<BodyId, set<NodeId>>, p: BodyId, who: NodeId): map<BodyId, set<NodeId>> {
    waiting[p := (if p in waiting then waiting[p] else {}) + {who}]
  }

  ghost predicate AnswersOne(c: Command, asked: map<NodeId, BlockRange>, found: bool) {
    && c.SendResponse? && c.response.HeadersReply? && c.to in asked
    && c.response.headers.range == asked[c.to] && c.response.headers.HeadersFound? == found
  }

  lemma AnswerOneMore(cmds: seq<Command>, wanted: map<NodeId, BlockRange>, rest: set<NodeId>, who: NodeId, reply: HeadersResponse)
    requires AnswersExactly(cmds, wanted - rest, reply.HeadersFound?)
    requires who in rest && who in wanted && reply.range == wanted[who]
    ensures AnswersExactly(cmds + [SendResponse(who, HeadersReply(reply))], wanted - (rest - {who}), reply.HeadersFound?)
  {
    var c := SendResponse(who, HeadersReply(reply));
    var cmds' := cmds + [c];
    forall i | 0 <= i < |cmds|
      ensures AnswersOne(cmds[i], wanted - (rest - {who}), reply.HeadersFound?) && cmds[i].to != who
    {
      assert AnswersOne(cmds[i], wanted - rest, reply.HeadersFound?);
    }
    forall x | x in wanted - (rest - {who})
      ensures exists i :: 0 <= i < |cmds'| && cmds'[i].to == x
    {
      if x == who {
        assert cmds'[|cmds|].to == x;
      } else {
        assert x in wanted - rest;
        var i :| 0 <= i < |cmds| && cmds[i].to == x;
        assert cmds'[i].to == x;
      }
    }
  }

  /** Between two visits of the first loop: `found` holds the cached ids among those visited. */
  ghost predicate Absorbing(s: Core, cache: BlockCache, toRequest: set<BodyId>, found: set<BodyId>)
    requires cache.Valid()
  {
    && toRequest <= s.payloads.Keys && toRequest !! found
    && (forall p :: p in found ==> p in s.payloads)
    && (forall p :: p in s.payloads && p !in toRequest ==> (p in found <==> p in CachedIds(s, cache)))
  }

  lemma AbsorbingStep(s: Core, cache: BlockCache, toRequest: set<BodyId>, found: set<BodyId>, p: BodyId)
    requires cache.Valid() && Absorbing(s, cache, toRequest, found) && p in toRequest
    ensures p in s.payloads && p !in found && p in Absorbed(s, found).payloads
    ensures if IsCached(Absorbed(s, found).completed, cache, p)
            then Absorbing(s, cache, toRequest - {p}, found + {p})
            else Absorbing(s, cache, toRequest - {p}, found)
  {
    CachedUnchanged(s.completed, found, cache, p);
    assert p in CachedIds(s, cache) <==> IsCached(s.completed, cache, p);
  }

  lemma AbsorbingDone(s: Core, cache: BlockCache, found: set<BodyId>)
    requires cache.Valid() && Absorbing(s, cache, {}, found)
    ensures found == CachedIds(s, cache)
  {
  }

  class BlockSync {
    var headersRequests: PeerHeaders
    var payloadRequests: map<BodyId, set<NodeId>>
    var selfHeadersRequests: HeaderRequests
    var selfPayloadRequests: PayloadRequests
    var selfPayloadRequestsInFlight: nat
    var selfCompletedHeadersRequests: CompletedHeaders
    var selfRequestMode: Requester

    /** The environment as the issued commands leave it, the account of all self requests, and
        the range each waiting peer asked for. */
    ghost var env: Env
    ghost var books: Books
    ghost var asked: map<BlockRange, map<NodeId, BlockRange>>

    ghost function Abs(): Core
      reads this
    {
      Core(selfHeadersRequests, selfPayloadRequests, selfPayloadRequestsInFlight,
           selfCompletedHeadersRequests, selfRequestMode)
    }

    ghost function PeersNow(): Peers
      reads this
    {
      Peers(headersRequests, payloadRequests, asked)
    }

    /** Holds between handler calls. */
    ghost predicate Valid()
      reads this
    {
      Resting(Abs(), env, books) && Serving(headersRequests, asked)
    }

    constructor ()
      ensures Valid() && Abs() == EmptyCore(StateSync)
      ensures headersRequests == map[] && payloadRequests == map[]
      ensures env == Env(multiset{}, {}, multiset{}) && books == Books(multiset{}, multiset{}, multiset{})
    {
      headersRequests := map[];
      payloadRequests := map[];
      selfHeadersRequests := map[];
      selfPayloadRequests := map[];
      selfPayloadRequestsInFlight := 0;
      selfCompletedHeadersRequests := map[];
      selfRequestMode := StateSync;
      env := Env(multiset{}, {}, multiset{});
      books := Books(multiset{}, multiset{}, multiset{});
      asked := map[];
      new;
      EmptyCoreRests(StateSync, env);
    }

    // ----- Self requests -----

    /** Starts a request unless the range is already tracked.  A request by the other
        requester first drops everything that was in progress. */
    method HandleSelfRequest(requester: Requester, range: BlockRange) returns (cmds: seq<Command>)
      requires Valid()
      modifies this`selfHeadersRequests, this`selfPayloadRequests, this`selfPayloadRequestsInFlight,
               this`selfCompletedHeadersRequests, this`selfRequestMode, this`env, this`books
      ensures Valid()
      ensures Abs() == SelfRequested(old(Abs()), requester, range)
      ensures cmds == RequestCommands(old(Abs()), requester, range)
      ensures env == AfterAll(old(env), cmds) && books == RequestBooks(old(books), old(Abs()), requester, range)
    {
      SelfRequestedRests(Abs(), env, books, requester, range);
      cmds := RequestRange(requester, range);
    }

    method RequestRange(requester: Requester, range: BlockRange) returns (cmds: seq<Command>)
      modifies this`selfHeadersRequests, this`selfPayloadRequests, this`selfPayloadRequestsInFlight,
               this`selfCompletedHeadersRequests, this`selfRequestMode, this`env, this`books
      ensures Abs() == SelfRequested(old(Abs()), requester, range)
      ensures cmds == RequestCommands(old(Abs()), requester, range)
      ensures env == AfterAll(old(env), cmds) && books == RequestBooks(old(books), old(Abs()), requester, range)
    {
      ghost var s := Abs();
      cmds := EnterRequest(requester, range);
      env, books := AfterAll(env, cmds), RequestBooks(books, s, requester, range);
    }

    method EnterRequest(requester: Requester, range: BlockRange) returns (cmds: seq<Command>)
      modifies this`selfHeadersRequests, this`selfPayloadRequests, this`selfPayloadRequestsInFlight,
               this`selfCompletedHeadersRequests, this`selfRequestMode
      ensures Abs() == SelfRequested(old(Abs()), requester, range)
      ensures cmds == RequestCommands(old(Abs()), requester, range)
    {
      if range.numBlocks == 0 {
        return [];
      }
      if requester != selfRequestMode {
        ClearSelfRequests();
        selfRequestMode := requester;
      }
      if range in selfHeadersRequests || range in selfCompletedHeadersRequests {
        return [];
      }
      selfHeadersRequests := selfHeadersRequests[range := SelfRequest(requester, None)];
      cmds := [FetchHeaders(range)];
    }

    method ClearSelfRequests()
      modifies this`selfHeadersRequests, this`selfPayloadRequests, this`selfPayloadRequestsInFlight,
               this`selfCompletedHeadersRequests
      ensures Abs() == EmptyCore(selfRequestMode)
    {
      selfHeadersRequests := map[];
      selfPayloadRequests := map[];
      selfPayloadRequestsInFlight := 0;
      selfCompletedHeadersRequests := map[];
    }

    /** Drops the range if this requester is tracking it; its payload requests go on. */
    method HandleSelfCancelRequest(requester: Requester, range: BlockRange)
      requires Valid()
      modifies this`selfHeadersRequests, this`selfCompletedHeadersRequests, this`books
      ensures Valid()
      ensures Abs() == Cancelled(old(Abs()), requester, range)
      ensures books == CancelBooks(old(books), old(Abs()), requester, range)
    {
      CancelledRests(Abs(), env, books, requester, range);
      books := CancelBooks(books, Abs(), requester, range);
      DropRequest(requester, range);
    }

    method DropRequest(requester: Requester, range: BlockRange)
      modifies this`selfHeadersRequests, this`selfCompletedHeadersRequests
      ensures Abs() == Cancelled(old(Abs()), requester, range)
    {
      if range in selfHeadersRequests && selfHeadersRequests[range].requester == requester {
        selfHeadersRequests := selfHeadersRequests - {range};
      }
      if range in selfCompletedHeadersRequests && selfCompletedHeadersRequests[range].requester == requester {
        selfCompletedHeadersRequests := selfCompletedHeadersRequests - {range};
      }
    }

    // ----- Emitting and scheduling -----

    /** Emits every range whose bodies are all there; the requester is always the current mode
        and the body of every block matches its header. */
    method HandleCompletedRanges() returns (cmds: seq<Command>)
      requires Working(Abs(), env, books, None)
      modifies this`selfCompletedHeadersRequests, this`env
      ensures Working(Abs(), env, books, None) && NoneFilled(selfCompletedHeadersRequests)
      ensures Issued(old(env), cmds, env, selfRequestMode)
      ensures selfCompletedHeadersRequests == Unfilled(old(selfCompletedHeadersRequests))
      ensures AllEmits(cmds) && EmitsFilled(cmds, old(selfCompletedHeadersRequests), selfRequestMode)
    {
      cmds := [];
      var completedRanges := FilledRanges(selfCompletedHeadersRequests);
      while completedRanges != {}
        invariant Emitting(old(selfCompletedHeadersRequests), selfCompletedHeadersRequests, completedRanges)
        invariant Working(Abs(), env, books, None)
        invariant Issued(old(env), cmds, env, selfRequestMode) && AllEmits(cmds)
        invariant EmitsFilledBut(cmds, old(selfCompletedHeadersRequests), completedRanges, selfRequestMode)
      {
        var range :| range in completedRanges;
        cmds := EmitOne(range, cmds, old(env), old(selfCompletedHeadersRequests), completedRanges);
        completedRanges := completedRanges - {range};
      }
      NoFilledLeft(old(selfCompletedHeadersRequests), selfCompletedHeadersRequests);
    }

    method EmitOne(range: BlockRange, cmds: seq<Command>, ghost start: Env, ghost before: CompletedHeaders,
                   ghost rest: set<BlockRange>)
      returns (more: seq<Command>)
      requires Working(Abs(), env, books, None) && Issued(start, cmds, env, selfRequestMode)
      requires Emitting(before, selfCompletedHeadersRequests, rest) && range in rest
      requires AllEmits(cmds) && EmitsFilledBut(cmds, before, rest, selfRequestMode)
      modifies this`selfCompletedHeadersRequests, this`env
      ensures Working(Abs(), env, books, None) && Issued(start, more, env, selfRequestMode)
      ensures Emitting(before, selfCompletedHeadersRequests, rest - {range})
      ensures AllEmits(more) && EmitsFilledBut(more, before, rest - {range}, selfRequestMode)
    {
      FilledGone(before, selfCompletedHeadersRequests, rest, range);
      ghost var s, env0 := Abs(), env;
      var c := LetGo(range);
      EmitWorks(s, env0, books, c);
      EmitStep(start, cmds, env0, before, s.completed, rest, s.mode, c);
      more := cmds + [c];
    }

    method LetGo(range: BlockRange) returns (c: Command)
      requires range in selfCompletedHeadersRequests && Filled(selfCompletedHeadersRequests[range])
      requires GoodCompleted(range, selfCompletedHeadersRequests[range], selfRequestMode)
      modifies this`selfCompletedHeadersRequests, this`env
      ensures Abs() == old(Abs()).(completed := old(selfCompletedHeadersRequests) - {range})
      ensures c.Emit? && c.range == range && EmitOf(c, old(selfCompletedHeadersRequests)[range], selfRequestMode)
      ensures env == After(old(env), c)
    {
      var completed := selfCompletedHeadersRequests[range];
      selfCompletedHeadersRequests := selfCompletedHeadersRequests - {range};
      c := Emit(completed.requester, range, FullBlocks(completed.blocks));
      env := After(env, c);
    }

    /** The body filed under `p` in the block cache or in any completed range. */
    method GetCachedPayload(p: BodyId, cache: BlockCache) returns (r: Option<Body>)
      requires CompletedOk(selfCompletedHeadersRequests, selfRequestMode) && cache.Valid()
      ensures r.Some? ==> r.value.GetId() == p
      ensures r.Some? <==> IsCached(selfCompletedHeadersRequests, cache, p)
    {
      r := cache.GetPayload(p);
      if r.Some? {
        return;
      }
      var rest := selfCompletedHeadersRequests.Keys;
      while rest != {}
        invariant rest <= selfCompletedHeadersRequests.Keys
        invariant forall k :: k in selfCompletedHeadersRequests && k !in rest ==>
                    p !in selfCompletedHeadersRequests[k].payloadCache
      {
        var k :| k in rest;
        if p in selfCompletedHeadersRequests[k].payloadCache {
          assert GoodCompleted(k, selfCompletedHeadersRequests[k], selfRequestMode);
          return Some(selfCompletedHeadersRequests[k].payloadCache[p]);
        }
        rest := rest - {k};
      }
    }

    /** Takes a body in: the request is dropped, the in-flight count follows, and every range
        missing the body gets it. */
    method TakeBody(p: BodyId, body: Body, ghost answering: Option<Request>)
      requires Working(Abs(), env, books, answering) && (answering == None || answering == Some(PayloadRequest(p)))
      requires p in selfPayloadRequests && body.GetId() == p
      modifies this`selfPayloadRequests, this`selfPayloadRequestsInFlight, this`selfCompletedHeadersRequests
      ensures Abs() == BodyArrived(old(Abs()), p, body)
      ensures Working(Abs(), env, books, None)
      ensures Working(Abs(), After(env, ResetTimeout(PayloadRequest(p))), books, None)
    {
      BodyArrivedWorks(Abs(), env, books, p, body, answering);
      InitiatedRemoved(selfPayloadRequests, p);
      if selfPayloadRequests[p].Some? {
        selfPayloadRequestsInFlight := selfPayloadRequestsInFlight - 1;
      }
      selfPayloadRequests := selfPayloadRequests - {p};
      selfCompletedHeadersRequests := FillAll(selfCompletedHeadersRequests, p, body);
    }

    /** The first loop of try_initiate_payload_requests_for_self: requests whose body has turned up
        in a cache are fulfilled. */
    method UseCachedPayloads(cache: BlockCache) returns (cmds: seq<Command>)
      requires Working(Abs(), env, books, None) && cache.Valid()
      modifies this`selfPayloadRequests, this`selfPayloadRequestsInFlight, this`selfCompletedHeadersRequests, this`env
      ensures Abs() == Absorbed(old(Abs()), CachedIds(old(Abs()), cache))
      ensures Working(Abs(), env, books, None)
      ensures Issued(old(env), cmds, env, selfRequestMode)
      ensures ResetsOf(cmds, old(selfPayloadRequests), CachedIds(old(Abs()), cache))
    {
      cmds := [];
      ghost var s := Abs();
      ghost var found: set<BodyId> := {};
      AbsorbedNothing(s);
      var toRequest := selfPayloadRequests.Keys;
      while toRequest != {}
        invariant Absorbing(s, cache, toRequest, found) && Abs() == Absorbed(s, found)
        invariant Working(Abs(), env, books, None)
        invariant Issued(old(env), cmds, env, selfRequestMode)
        invariant ResetsOf(cmds, s.payloads, found)
      {
        var p :| p in toRequest;
        AbsorbingStep(s, cache, toRequest, found, p);
        toRequest := toRequest - {p};
        var payload := GetCachedPayload(p, cache);
        if payload.Some? {
          cmds := AbsorbOne(p, payload.value, cmds, old(env), s, found);
          found := found + {p};
        }
      }
      AbsorbingDone(s, cache, found);
    }

    method AbsorbOne(p: BodyId, body: Body, cmds: seq<Command>, ghost start: Env, ghost s: Core, ghost found: set<BodyId>)
      returns (more: seq<Command>)
      requires CoreInv(s) && Abs() == Absorbed(s, found) && p in s.payloads && p !in found && body.GetId() == p
      requires Working(Abs(), env, books, None) && Issued(start, cmds, env, selfRequestMode)
      requires p in selfPayloadRequests && ResetsOf(cmds, s.payloads, found)
      modifies this`selfPayloadRequests, this`selfPayloadRequestsInFlight, this`selfCompletedHeadersRequests, this`env
      ensures Abs() == Absorbed(s, found + {p})
      ensures Working(Abs(), env, books, None) && Issued(start, more, env, selfRequestMode)
      ensures ResetsOf(more, s.payloads, found + {p})
    {
      var request := selfPayloadRequests[p];
      AbsorbOneMore(s, found, p, body);
      OneMoreReset(cmds, s.payloads, found, p);
      TakeBody(p, body, None);
      more := cmds;
      if request.Some? && request.value.to.Some? {
        IssuedPush(start, cmds, env, ResetTimeout(PayloadRequest(p)), selfRequestMode);
        env := After(env, ResetTimeout(PayloadRequest(p)));
        more := cmds + [ResetTimeout(PayloadRequest(p))];
      }
    }

    /** The second loop: start waiting requests until ten are in flight or none waits. */
    method InitiateWaiting() returns (cmds: seq<Command>)
      requires Working(Abs(), env, books, None)
      modifies this`selfPayloadRequests, this`selfPayloadRequestsInFlight, this`env
      ensures Working(Abs(), env, books, None)
      ensures Saturated(selfPayloadRequests, selfPayloadRequestsInFlight)
      ensures Issued(old(env), cmds, env, selfRequestMode)
      ensures Started(old(selfPayloadRequests), selfPayloadRequests, selfRequestMode)
      ensures FetchesOf(cmds, old(selfPayloadRequests), selfPayloadRequests)
    {
      cmds := [];
      while selfPayloadRequestsInFlight < BLOCKSYNC_MAX_PAYLOAD_REQUESTS
        invariant Working(Abs(), env, books, None)
        invariant Issued(old(env), cmds, env, selfRequestMode)
        invariant Started(old(selfPayloadRequests), selfPayloadRequests, selfRequestMode)
        invariant FetchesOf(cmds, old(selfPayloadRequests), selfPayloadRequests)
      {
        if forall p :: p in selfPayloadRequests ==> selfPayloadRequests[p].Some? {
          return;
        }
        var p :| p in selfPayloadRequests && selfPayloadRequests[p].None?;
        cmds := StartOne(p, cmds, old(env), old(selfPayloadRequests));
      }
      assert selfPayloadRequestsInFlight == BLOCKSYNC_MAX_PAYLOAD_REQUESTS;
    }

    method StartOne(p: BodyId, cmds: seq<Command>, ghost start: Env, ghost before: PayloadRequests) returns (more: seq<Command>)
      requires Working(Abs(), env, books, None) && Issued(start, cmds, env, selfRequestMode)
      requires p in selfPayloadRequests && selfPayloadRequests[p].None?
      requires selfPayloadRequestsInFlight < BLOCKSYNC_MAX_PAYLOAD_REQUESTS
      requires Started(before, selfPayloadRequests, selfRequestMode) && FetchesOf(cmds, before, selfPayloadRequests)
      modifies this`selfPayloadRequests, this`selfPayloadRequestsInFlight, this`env
      ensures Working(Abs(), env, books, None) && Issued(start, more, env, selfRequestMode)
      ensures Started(before, selfPayloadRequests, selfRequestMode) && FetchesOf(more, before, selfPayloadRequests)
      ensures selfPayloadRequestsInFlight == old(selfPayloadRequestsInFlight) + 1
    {
      InitiateWorks(Abs(), env, books, p);
      IssuedPush(start, cmds, env, FetchPayload(p), selfRequestMode);
      OneMoreFetch(cmds, before, selfPayloadRequests, p, SelfRequest(selfRequestMode, None));
      Launch(p);
      more := cmds + [FetchPayload(p)];
    }

    method Launch(p: BodyId)
      requires p in selfPayloadRequests
      modifies this`selfPayloadRequests, this`selfPayloadRequestsInFlight, this`env
      ensures Abs() == Initiate(old(Abs()), p) && env == After(old(env), FetchPayload(p))
    {
      selfPayloadRequests := selfPayloadRequests[p := Some(SelfRequest(selfRequestMode, None))];
      selfPayloadRequestsInFlight := selfPayloadRequestsInFlight + 1;
      env := After(env, FetchPayload(p));
    }

    method TryInitiatePayloadRequestsForSelf(cache: BlockCache) returns (cmds: seq<Command>)
      requires Working(Abs(), env, books, None) && cache.Valid()
      modifies this`selfPayloadRequests, this`selfPayloadRequestsInFlight, this`selfCompletedHeadersRequests, this`env
      ensures Scheduled(old(Abs()), cache, Abs()) && SchedulerSays(old(Abs()), cache, Abs(), cmds)
      ensures Resting(Abs(), env, books)
      ensures Issued(old(env), cmds, env, selfRequestMode)
    {
      var resets := UseCachedPayloads(cache);
      ghost var env1 := env;
      var fetches := InitiateWaiting();
      ghost var env2 := env;
      var emits := HandleCompletedRanges();
      IssuedConcat(old(env), resets, env1, fetches, env2, selfRequestMode);
      IssuedConcat(old(env), resets + fetches, env2, emits, env, selfRequestMode);
      SchedulerSaysAll(old(Abs()), cache, Abs(), resets, fetches, emits);
      cmds := resets + fetches + emits;
    }

    // ----- Responses for self -----

    /** Valid headers move the range from the header requests to the completed ones and queue a
        payload request for every body not requested yet. */
    method AcceptHeaders(sender: Option<NodeId>, range: BlockRange, headers: seq<Header>, ghost answering: Option<Request>)
      returns (cmds: seq<Command>)
      requires Working(Abs(), env, books, answering) && (answering == None || answering == Some(HeadersRequest(range)))
      requires range in selfHeadersRequests && range.numBlocks > 0 && VerifyBlockHeaders(range, headers)
      modifies this`selfHeadersRequests, this`selfPayloadRequests, this`selfCompletedHeadersRequests, this`env
      ensures Abs() == HeadersArrived(old(Abs()), range, headers)
      ensures cmds == if sender.Some? then [ResetTimeout(HeadersRequest(range))] else []
      ensures Working(Abs(), env, books, None)
      ensures Issued(old(env), cmds, env, selfRequestMode)
    {
      HeadersArrivedWorks(Abs(), env, books, range, headers, answering);
      cmds := [];
      if sender.Some? {
        AfterOne(env, ResetTimeout(HeadersRequest(range)));
        cmds := [ResetTimeout(HeadersRequest(range))];
        env := After(env, ResetTimeout(HeadersRequest(range)));
      }
      MoveToCompleted(range, headers);
    }

    method MoveToCompleted(range: BlockRange, headers: seq<Header>)
      modifies this`selfHeadersRequests, this`selfPayloadRequests, this`selfCompletedHeadersRequests
      ensures Abs() == HeadersArrived(old(Abs()), range, headers)
    {
      selfHeadersRequests := selfHeadersRequests - {range};
      RequestPayloads(headers);
      selfCompletedHeadersRequests :=
        selfCompletedHeadersRequests[range := CompletedHeader(selfRequestMode, FreshSlots(headers), map[])];
    }

    method RequestPayloads(headers: seq<Header>)
      modifies this`selfPayloadRequests
      ensures selfPayloadRequests == WithWaiting(old(selfPayloadRequests), headers)
    {
      for i := 0 to |headers|
        invariant selfPayloadRequests == WithWaiting(old(selfPayloadRequests), headers[..i])
      {
        assert headers[..i + 1][..i] == headers[..i];
        if headers[i].bodyId !in selfPayloadRequests {
          selfPayloadRequests := selfPayloadRequests[headers[i].bodyId := None];
        }
      }
      assert headers[..|headers|] == headers;
    }

    /** The ledger has no headers: ask the chosen peer, if any, and retry after a timeout. */
    method RetryHeaders(range: BlockRange, peer: Option<NodeId>, ghost answering: Option<Request>) returns (cmds: seq<Command>)
      requires Working(Abs(), env, books, answering) && (answering == None || answering == Some(HeadersRequest(range)))
      requires range in selfHeadersRequests
      modifies this`selfHeadersRequests, this`env
      ensures Abs() == RetargetHeaders(old(Abs()), range, peer)
      ensures Working(Abs(), env, books, None)
      ensures cmds == RetryCommands(peer, HeadersRequest(range)) && env == Armed(old(env), HeadersRequest(range))
      ensures selfHeadersRequests[range].to == peer && ScheduleTimeout(HeadersRequest(range)) in cmds
      ensures forall who: NodeId :: SendRequest(who, HeadersRequest(range)) in cmds <==> peer == Some(who)
      ensures Issued(old(env), cmds, env, selfRequestMode)
    {
      RetryHeadersWorks(Abs(), env, books, range, peer, answering);
      RetryArms(env, peer, HeadersRequest(range), selfRequestMode);
      cmds := RetryCommands(peer, HeadersRequest(range));
      env := Armed(env, HeadersRequest(range));
      selfHeadersRequests := selfHeadersRequests[range := selfHeadersRequests[range].(to := peer)];
    }

    method RetryPayload(p: BodyId, peer: Option<NodeId>, ghost answering: Option<Request>) returns (cmds: seq<Command>)
      requires Working(Abs(), env, books, answering) && (answering == None || answering == Some(PayloadRequest(p)))
      requires p in selfPayloadRequests && selfPayloadRequests[p].Some?
      modifies this`selfPayloadRequests, this`env
      ensures Abs() == RetargetPayload(old(Abs()), p, peer)
      ensures Working(Abs(), env, books, None)
      ensures old(Saturated(selfPayloadRequests, selfPayloadRequestsInFlight)) ==>
                Saturated(selfPayloadRequests, selfPayloadRequestsInFlight)
      ensures cmds == RetryCommands(peer, PayloadRequest(p)) && env == Armed(old(env), PayloadRequest(p))
      ensures selfPayloadRequests[p].value.to == peer && ScheduleTimeout(PayloadRequest(p)) in cmds
      ensures forall who: NodeId :: SendRequest(who, PayloadRequest(p)) in cmds <==> peer == Some(who)
      ensures Issued(old(env), cmds, env, selfRequestMode)
    {
      RetryPayloadWorks(Abs(), env, books, p, peer, answering);
      RetryArms(env, peer, PayloadRequest(p), selfRequestMode);
      cmds := RetryCommands(peer, PayloadRequest(p));
      env := Armed(env, PayloadRequest(p));
      selfPayloadRequests := selfPayloadRequests[p := Some(selfPayloadRequests[p].value.(to := peer))];
    }

    /** `sender` is None for an answer of the own ledger, which always verifies. */
    method HandleHeadersResponseForSelf(sender: Option<NodeId>, response: HeadersResponse, cache: BlockCache, peer: Option<NodeId>)
      returns (cmds: seq<Command>)
      requires Working(Abs(), env, books, if sender.None? then Some(HeadersRequest(response.range)) else None)
      requires Settled(Abs()) && cache.Valid() && (sender.None? ==> LedgerHeadersOk(response))
      modifies this`selfHeadersRequests, this`selfPayloadRequests, this`selfPayloadRequestsInFlight,
               this`selfCompletedHeadersRequests, this`env
      ensures Responded(old(Abs()), sender, HeadersReply(response), cache, peer, Abs())
      ensures ResponseSays(old(Abs()), sender, HeadersReply(response), cache, peer, Abs(), cmds)
      ensures AnswerUsed(old(Abs()), sender, HeadersReply(response), Abs(), cmds)
      ensures Resting(Abs(), env, books)
      ensures Issued(old(env), cmds, env, selfRequestMode)
    {
      ghost var answering := if sender.None? then Some(HeadersRequest(response.range)) else None;
      var range := response.range;
      if range !in selfHeadersRequests {
        if answering.Some? {
          AnswerNotNeeded(Abs(), env, books, HeadersRequest(range));
        }
        return [];
      }
      var first := ApplyHeaders(sender, response, peer, answering);
      ghost var env1 := env;
      var more := TryInitiatePayloadRequestsForSelf(cache);
      assert first + [] == first;
      IssuedConcat(old(env), first, env1, more, env, selfRequestMode);
      SaysInParts(old(Abs()), sender, HeadersReply(response), cache, peer, Abs(), first, [], more);
      cmds := first + [] + more;
      GoodAnswersAreUsed(old(Abs()), sender, HeadersReply(response), cache, peer, Abs(), cmds);
    }

    method ApplyHeaders(sender: Option<NodeId>, response: HeadersResponse, peer: Option<NodeId>, ghost answering: Option<Request>)
      returns (cmds: seq<Command>)
      requires answering == if sender.None? then Some(HeadersRequest(response.range)) else None
      requires Working(Abs(), env, books, answering) && response.range in selfHeadersRequests
      requires sender.None? ==> LedgerHeadersOk(response)
      modifies this`selfHeadersRequests, this`selfPayloadRequests, this`selfCompletedHeadersRequests, this`env
      ensures Abs() == HeadersApplied(old(Abs()), sender, response, peer)
      ensures cmds == HeadersCommands(old(Abs()), sender, response, peer)
      ensures Working(Abs(), env, books, None)
      ensures Issued(old(env), cmds, env, selfRequestMode)
    {
      cmds := [];
      var range := response.range;
      assert range.numBlocks > 0 && selfHeadersRequests[range].requester == selfRequestMode;
      match response {
        case HeadersFound(_, headers) =>
          if VerifyBlockHeaders(range, headers) {
            cmds := AcceptHeaders(sender, range, headers, answering);
          } else {
            assert sender.Some?;
          }
        case HeadersNotAvailable(_) =>
          if sender.None? {
            if selfHeadersRequests[range].to.None? {
              cmds := RetryHeaders(range, peer, answering);
            } else {
              AnswerNotNeeded(Abs(), env, books, HeadersRequest(range));
            }
          }
      }
    }

    /** `sender` is None for an answer of the own ledger. */
    method HandlePayloadResponseForSelf(sender: Option<NodeId>, response: BodyResponse, cache: BlockCache, peer: Option<NodeId>)
      returns (cmds: seq<Command>)
      requires Working(Abs(), env, books, if sender.None? then Some(PayloadRequest(response.GetPayloadId())) else None)
      requires Settled(Abs()) && cache.Valid()
      modifies this`selfPayloadRequests, this`selfPayloadRequestsInFlight, this`selfCompletedHeadersRequests, this`env
      ensures Responded(old(Abs()), sender, PayloadReply(response), cache, peer, Abs())
      ensures ResponseSays(old(Abs()), sender, PayloadReply(response), cache, peer, Abs(), cmds)
      ensures AnswerUsed(old(Abs()), sender, PayloadReply(response), Abs(), cmds)
      ensures Resting(Abs(), env, books)
      ensures Issued(old(env), cmds, env, selfRequestMode)
    {
      ghost var answering := if sender.None? then Some(PayloadRequest(response.GetPayloadId())) else None;
      var p := response.GetPayloadId();
      if p !in selfPayloadRequests || selfPayloadRequests[p].None? {
        if answering.Some? {
          AnswerNotNeeded(Abs(), env, books, PayloadRequest(p));
        }
        return [];
      }
      var first, emits := ApplyPayloadAndEmit(sender, response, peer, answering);
      ghost var env1 := env;
      var more := TryInitiatePayloadRequestsForSelf(cache);
      IssuedConcat(old(env), first + emits, env1, more, env, selfRequestMode);
      SaysInParts(old(Abs()), sender, PayloadReply(response), cache, peer, Abs(), first, emits, more);
      cmds := first + emits + more;
      GoodAnswersAreUsed(old(Abs()), sender, PayloadReply(response), cache, peer, Abs(), cmds);
    }

    method ApplyPayloadAndEmit(sender: Option<NodeId>, response: BodyResponse, peer: Option<NodeId>,
                               ghost answering: Option<Request>)
      returns (first: seq<Command>, emits: seq<Command>)
      requires answering == if sender.None? then Some(PayloadRequest(response.GetPayloadId())) else None
      requires Working(Abs(), env, books, answering)
      requires response.GetPayloadId() in selfPayloadRequests && selfPayloadRequests[response.GetPayloadId()].Some?
      modifies this`selfPayloadRequests, this`selfPayloadRequestsInFlight, this`selfCompletedHeadersRequests, this`env
      ensures Abs() == Applied(old(Abs()), sender, PayloadReply(response), peer)
      ensures first == PayloadCommands(old(Abs()), sender, response, peer) && AllEmits(emits)
      ensures EmitsFilled(emits, PayloadApplied(old(Abs()), sender, response, peer).completed, selfRequestMode)
      ensures Working(Abs(), env, books, None)
      ensures Issued(old(env), first + emits, env, selfRequestMode)
    {
      first := ApplyPayload(sender, response, peer, answering);
      ghost var env1 := env;
      emits := HandleCompletedRanges();
      IssuedConcat(old(env), first, env1, emits, env, selfRequestMode);
    }

    method ApplyPayload(sender: Option<NodeId>, response: BodyResponse, peer: Option<NodeId>, ghost answering: Option<Request>)
      returns (cmds: seq<Command>)
      requires answering == if sender.None? then Some(PayloadRequest(response.GetPayloadId())) else None
      requires Working(Abs(), env, books, answering)
      requires response.GetPayloadId() in selfPayloadRequests && selfPayloadRequests[response.GetPayloadId()].Some?
      modifies this`selfPayloadRequests, this`selfPayloadRequestsInFlight, this`selfCompletedHeadersRequests, this`env
      ensures Abs() == PayloadApplied(old(Abs()), sender, response, peer)
      ensures cmds == PayloadCommands(old(Abs()), sender, response, peer)
      ensures Working(Abs(), env, books, None)
      ensures Issued(old(env), cmds, env, selfRequestMode)
    {
      cmds := [];
      var p := response.GetPayloadId();
      match response {
        case BodyFound(body) =>
          assert selfPayloadRequests[p].value.requester == selfRequestMode;
          TakeBody(p, body, answering);
          if sender.Some? {
            AfterOne(env, ResetTimeout(PayloadRequest(p)));
            cmds := [ResetTimeout(PayloadRequest(p))];
            env := After(env, ResetTimeout(PayloadRequest(p)));
          }
        case BodyNotAvailable(_) =>
          if sender.None? {
            if selfPayloadRequests[p].value.to.None? {
              cmds := RetryPayload(p, peer, answering);
            } else {
              AnswerNotNeeded(Abs(), env, books, PayloadRequest(p));
            }
          }
      }
    }

    /** A response for the node itself, from the ledger when `sender` is None. */
    method HandleResponseForSelf(sender: Option<NodeId>, response: Response, cache: BlockCache, peer: Option<NodeId>)
      returns (cmds: seq<Command>)
      requires Working(Abs(), env, books, if sender.None? then Some(AnsweredRequest(response)) else None)
      requires Settled(Abs()) && cache.Valid()
      requires sender.None? && response.HeadersReply? ==> LedgerHeadersOk(response.headers)
      modifies this`selfHeadersRequests, this`selfPayloadRequests, this`selfPayloadRequestsInFlight,
               this`selfCompletedHeadersRequests, this`env
      ensures Responded(old(Abs()), sender, response, cache, peer, Abs())
      ensures ResponseSays(old(Abs()), sender, response, cache, peer, Abs(), cmds)
      ensures Resting(Abs(), env, books)
      ensures Issued(old(env), cmds, env, selfRequestMode)
    {
      match response
      case HeadersReply(headers) => cmds := HandleHeadersResponseForSelf(sender, headers, cache, peer);
      case PayloadReply(payload) => cmds := HandlePayloadResponseForSelf(sender, payload, cache, peer);
    }

    method HandlePeerResponse(sender: NodeId, response: Response, cache: BlockCache, peer: Option<NodeId>)
      returns (cmds: seq<Command>)
      requires Valid() && cache.Valid()
      modifies this`selfHeadersRequests, this`selfPayloadRequests, this`selfPayloadRequestsInFlight,
               this`selfCompletedHeadersRequests, this`env
      ensures Valid()
      ensures Responded(old(Abs()), Some(sender), response, cache, peer, Abs())
      ensures ResponseSays(old(Abs()), Some(sender), response, cache, peer, Abs(), cmds)
      ensures AnswerUsed(old(Abs()), Some(sender), response, Abs(), cmds)
      ensures Issued(old(env), cmds, env, selfRequestMode)
    {
      cmds := HandleResponseForSelf(Some(sender), response, cache, peer);
      GoodAnswersAreUsed(old(Abs()), Some(sender), response, cache, peer, Abs(), cmds);
    }

    /** A request still in progress goes to another peer and its timer is armed again. */
    method HandleTimeout(request: Request, peer: Option<NodeId>) returns (cmds: seq<Command>)
      requires Valid()
      modifies this`selfHeadersRequests, this`selfPayloadRequests, this`env
      ensures Valid()
      ensures Issued(TimerFired(old(env), request), cmds, env, selfRequestMode)
      ensures Abs() == TimedOut(old(Abs()), request, peer)
      ensures cmds == if InProgress(old(Abs()), request) then RetryCommands(peer, request) else []
      ensures forall who: NodeId :: SendRequest(who, request) in cmds <==> InProgress(Abs(), request) && peer == Some(who)
      ensures request.HeadersRequest? && request.range in selfHeadersRequests ==> selfHeadersRequests[request.range].to == peer
      ensures request.PayloadRequest? && request.bodyId in selfPayloadRequests && selfPayloadRequests[request.bodyId].Some? ==>
                selfPayloadRequests[request.bodyId].value.to == peer
    {
      RearmedTimer(env, peer, request, selfRequestMode);
      match request {
        case HeadersRequest(range) =>
          if range in selfHeadersRequests {
            cmds := RetryHeaders(range, peer, None);
            return;
          }
        case PayloadRequest(p) =>
          if p in selfPayloadRequests && selfPayloadRequests[p].Some? {
            cmds := RetryPayload(p, peer, None);
            return;
          }
      }
      TimerFiredWorks(Abs(), env, books, request);
      env := TimerFired(env, request);
      cmds := [];
    }

    // ----- Serving peers -----

    /** A header request is answered from the cache when it covers the whole range; otherwise the
        cached suffix is kept and the rest is fetched from the ledger. */
    method HandlePeerRequest(sender: NodeId, request: Request, cache: BlockCache) returns (cmds: seq<Command>)
      requires Valid() && cache.Valid()
      modifies this`headersRequests, this`payloadRequests, this`asked, this`env
      ensures Valid()
      ensures env == AfterAll(old(env), cmds)
      ensures cmds == [] <==> request.HeadersRequest? && request.range.numBlocks == 0
      ensures PeerServed(selfCompletedHeadersRequests, old(PeersNow()), sender, request, cache, cmds, PeersNow())
    {
      cmds := [];
      match request
      case HeadersRequest(range) =>
        if range.numBlocks == 0 {
          return;
        }
        var c := ServeHeaders(sender, range, cache);
        AfterOne(env, c);
        ServingRests(Abs(), env, books, c);
        env := After(env, c);
        cmds := [c];
      case PayloadRequest(p) =>
        var payload := GetCachedPayload(p, cache);
        var c;
        if payload.Some? {
          c := SendResponse(sender, PayloadReply(BodyFound(payload.value)));
        } else {
          payloadRequests := WithWaiter(payloadRequests, p, sender);
          c := FetchPayload(p);
        }
        AfterOne(env, c);
        ServingRests(Abs(), env, books, c);
        env := After(env, c);
        cmds := [c];
    }

    method ServeHeaders(sender: NodeId, range: BlockRange, cache: BlockCache) returns (c: Command)
      requires Serving(headersRequests, asked) && cache.Valid() && range.numBlocks > 0
      modifies this`headersRequests, this`asked
      ensures Serving(headersRequests, asked) && (c.SendResponse? ==> GoodAnswer(c))
      ensures PeerServed(selfCompletedHeadersRequests, old(PeersNow()), sender, HeadersRequest(range), cache, [c], PeersNow())
      ensures c.SendResponse? <==> |CachedPart(range, cache)| == range.numBlocks
    {
      var cached := CachedPart(range, cache);
      CachedPartFits(range, cache);
      if |cached| == range.numBlocks {
        return SendResponse(sender, HeadersReply(HeadersFound(range, cached)));
      }
      var ledgerRange := LedgerPart(range, cached);
      AskingServes(headersRequests, asked, ledgerRange, sender, cached);
      var entry := if ledgerRange in headersRequests then headersRequests[ledgerRange] else map[];
      headersRequests := headersRequests[ledgerRange := entry[sender := cached]];
      asked := asked[ledgerRange := AskedFor(asked, ledgerRange)[sender := range]];
      c := FetchHeaders(ledgerRange);
    }

    /** The ledger answered: every peer waiting for this range gets an answer for exactly the range
        it asked for, then the node's own request is served. */
    method HandleLedgerResponse(response: Response, cache: BlockCache, peer: Option<NodeId>)
      returns (cmds: seq<Command>, ghost answers: nat)
      requires Valid() && cache.Valid() && (response.HeadersReply? ==> LedgerHeadersOk(response.headers))
      modifies this`headersRequests, this`payloadRequests, this`asked, this`selfHeadersRequests, this`selfPayloadRequests,
               this`selfPayloadRequestsInFlight, this`selfCompletedHeadersRequests, this`env
      ensures Valid()
      ensures Responded(old(Abs()), None, response, cache, peer, Abs())
      ensures env == AfterAll(LedgerAnswered(old(env), AnsweredRequest(response)), cmds)
      ensures answers <= |cmds| && GoodAnswers(cmds[..answers]) && GoodCommands(cmds[answers..], selfRequestMode)
      ensures ResponseSays(old(Abs()), None, response, cache, peer, Abs(), cmds[answers..])
      ensures response.HeadersReply? ==>
                AnswersExactly(cmds[..answers], AskedFor(old(asked), response.headers.range), response.headers.HeadersFound?)
      ensures response.PayloadReply? ==>
                AnswersAll(cmds[..answers], response.payload, WaitingFor(old(payloadRequests), response.payload.GetPayloadId()))
      ensures PeersNow() == Unlisted(old(PeersNow()), response)
    {
      ghost var q := AnsweredRequest(response);
      LedgerAnsweredWorks(Abs(), env, books, q);
      env := LedgerAnswered(env, q);
      ghost var env0 := env;
      var replies := ReplyToPeers(response);
      var more := HandleResponseForSelf(None, response, cache, peer);
      AnswersLeaveEnv(env0, replies);
      AfterConcat(env0, replies, more);
      cmds, answers := replies + more, |replies|;
      assert cmds[..answers] == replies && cmds[answers..] == more;
    }

    method ReplyToPeers(response: Response) returns (cmds: seq<Command>)
      requires Serving(headersRequests, asked) && (response.HeadersReply? ==> LedgerHeadersOk(response.headers))
      modifies this`headersRequests, this`payloadRequests, this`asked
      ensures Serving(headersRequests, asked) && GoodAnswers(cmds)
      ensures response.HeadersReply? ==>
                AnswersExactly(cmds, AskedFor(old(asked), response.headers.range), response.headers.HeadersFound?)
      ensures response.PayloadReply? ==>
                AnswersAll(cmds, response.payload, WaitingFor(old(payloadRequests), response.payload.GetPayloadId()))
      ensures PeersNow() == Unlisted(old(PeersNow()), response)
    {
      match response
      case HeadersReply(headers) => cmds := ReplyHeaders(headers);
      case PayloadReply(payload) => cmds := ReplyPayloads(payload);
    }

    /** Answers every peer waiting for the ledger range, each for the range it asked for. */
    method ReplyHeaders(response: HeadersResponse) returns (cmds: seq<Command>)
      requires Serving(headersRequests, asked) && LedgerHeadersOk(response)
      modifies this`headersRequests, this`asked
      ensures Serving(headersRequests, asked)
      ensures headersRequests == old(headersRequests) - {response.range} && asked == old(asked) - {response.range}
      ensures GoodAnswers(cmds)
      ensures AnswersExactly(cmds, AskedFor(old(asked), response.range), response.HeadersFound?)
    {
      cmds := [];
      var requesters := if response.range in headersRequests then headersRequests[response.range] else map[];
      ghost var wanted := AskedFor(asked, response.range);
      headersRequests := headersRequests - {response.range};
      asked := asked - {response.range};
      var rest := requesters.Keys;
      while rest != {}
        invariant headersRequests == old(headersRequests) - {response.range} && Serving(headersRequests, asked)
        invariant asked == old(asked) - {response.range}
        invariant rest <= requesters.Keys && ServingOne(response.range, requesters, wanted)
        invariant GoodAnswers(cmds)
        invariant AnswersExactly(cmds, wanted - rest, response.HeadersFound?)
      {
        var who :| who in rest;
        var reply := JoinReply(response, requesters[who]);
        JoinReplyIsGood(response, requesters[who], who);
        AnswerOneMore(cmds, wanted, rest, who, reply);
        AnswerPush(cmds, SendResponse(who, HeadersReply(reply)));
        cmds := cmds + [SendResponse(who, HeadersReply(reply))];
        rest := rest - {who};
      }
      assert wanted - {} == wanted;
    }

    method ReplyPayloads(response: BodyResponse) returns (cmds: seq<Command>)
      modifies this`payloadRequests
      ensures payloadRequests == old(payloadRequests) - {response.GetPayloadId()}
      ensures GoodAnswers(cmds)
      ensures AnswersAll(cmds, response, WaitingFor(old(payloadRequests), response.GetPayloadId()))
    {
      cmds := [];
      var p := response.GetPayloadId();
      var requesters := WaitingFor(payloadRequests, p);
      payloadRequests := payloadRequests - {p};
      var rest := requesters;
      while rest != {}
        invariant rest <= requesters && GoodAnswers(cmds)
        invariant AnswersAll(cmds, response, requesters - rest)
      {
        var who :| who in rest;
        cmds := cmds + [SendResponse(who, PayloadReply(response))];
        rest := rest - {who};
      }
    }
  }
}
