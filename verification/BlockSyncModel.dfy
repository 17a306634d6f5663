/** The self-request state of blocksync as a value, its invariant, and what each small update
    does to it (monad-blocksync/src/blocksync.rs). */
module BlockSyncModel {
  import opened Collections
  import opened ConsensusTypes
  import opened BlockForest
  import opened ForestQueries
  import opened TreeStore

  const BLOCKSYNC_MAX_PAYLOAD_REQUESTS: nat := 10

  // ----- Messages and commands -----

  datatype Requester = Consensus | StateSync

  datatype Request = HeadersRequest(range: BlockRange) | PayloadRequest(bodyId: BodyId)

  datatype HeadersResponse = HeadersFound(range: BlockRange, headers: seq<Header>) | HeadersNotAvailable(range: BlockRange)

  datatype BodyResponse = BodyFound(body: Body) | BodyNotAvailable(bodyId: BodyId) {
    function GetPayloadId(): BodyId {
      match this case BodyFound(body) => body.GetId() case BodyNotAvailable(id) => id
    }
  }

  datatype Response = HeadersReply(headers: HeadersResponse) | PayloadReply(payload: BodyResponse)

  datatype Command =
    | SendRequest(to: NodeId, request: Request)
    | ScheduleTimeout(request: Request)
    | ResetTimeout(request: Request)
    | SendResponse(to: NodeId, response: Response)
    | FetchHeaders(range: BlockRange)
    | FetchPayload(bodyId: BodyId)
    | Emit(requester: Requester, range: BlockRange, blocks: seq<FullBlock>)

  /** Where payloads and headers may be found without asking anyone. */
  datatype BlockCache = TreeCache(entries: Entries, payloads: Payloads) | BufferCache(bodies: map<BodyId, Body>) {
    /** Bodies are filed under their own id. */
    ghost predicate Valid() {
      match this
      case TreeCache(entries, payloads) => KeysMatch(entries) && PayloadsIndexed(entries, payloads)
      case BufferCache(bodies) => forall p :: p in bodies ==> bodies[p].GetId() == p
    }

    function GetPayload(p: BodyId): (r: Option<Body>)
      requires Valid()
      ensures r.Some? ==> r.value.GetId() == p
    {
      match this
      case TreeCache(_, payloads) => if p in payloads then Some(payloads[p].body) else None
      case BufferCache(bodies) => if p in bodies then Some(bodies[p]) else None
    }
  }

  // ----- Header ranges -----

  /** `verify_block_headers`; on an empty range the source would panic. */
  predicate VerifyBlockHeaders(range: BlockRange, headers: seq<Header>)
    requires range.numBlocks > 0
  {
    && |headers| == range.numBlocks
    && range.lastBlockId == headers[|headers| - 1].GetId()
    && HeadersLinked(headers)
  }

  /** A range has at most one list of headers. */
  lemma {:induction false} HeadersDetermined(range: BlockRange, a: seq<Header>, b: seq<Header>)
    requires range.numBlocks > 0 && VerifyBlockHeaders(range, a) && VerifyBlockHeaders(range, b)
    ensures a == b
    decreases |a|
  {
    var n := |a| - 1;
    assert a == a[..n] + [a[n]] && b == b[..n] + [b[n]];
    if n > 0 {
      HeadersDetermined(BlockRange(a[n].GetParentId(), n), a[..n], b[..n]);
    }
  }

  /** What an Emit carries: the headers of the range, each with its own body. */
  ghost predicate CompleteRange(range: BlockRange, blocks: seq<FullBlock>) {
    && range.numBlocks > 0 && VerifyBlockHeaders(range, Headers(blocks))
    && forall i :: 0 <= i < |blocks| ==> blocks[i].BodyMatches()
  }

  /** The emitted blocks are determined by the range alone, whoever supplied them. */
  lemma EmittedBlocksDetermined(range: BlockRange, a: seq<FullBlock>, b: seq<FullBlock>)
    requires CompleteRange(range, a) && CompleteRange(range, b)
    ensures a == b
  {
    HeadersDetermined(range, Headers(a), Headers(b));
    forall i | 0 <= i < |a|
      ensures a[i] == b[i]
    {
      assert Headers(a)[i] == Headers(b)[i];
    }
  }

  /** A command issued for the node itself: Emits go to the current requester with the complete
      range, and no peer is answered. */
  ghost predicate GoodCommand(c: Command, mode: Requester) {
    match c
    case Emit(requester, range, blocks) => requester == mode && CompleteRange(range, blocks)
    case SendResponse(_, _) => false
    case _ => true
  }

  /** An answer to a peer: headers pass the check the peer will make. */
  ghost predicate GoodAnswer(c: Command) {
    match c
    case SendResponse(_, HeadersReply(HeadersFound(range, headers))) =>
      range.numBlocks > 0 && VerifyBlockHeaders(range, headers)
    case SendResponse(_, _) => true
    case _ => false
  }

  ghost predicate GoodCommands(cmds: seq<Command>, mode: Requester) {
    forall i :: 0 <= i < |cmds| ==> GoodCommand(cmds[i], mode)
  }

  ghost predicate GoodAnswers(cmds: seq<Command>) {
    forall i :: 0 <= i < |cmds| ==> GoodAnswer(cmds[i])
  }

  // ----- The environment -----

  /** Ledger fetches not yet answered, armed timers, and how often each range was emitted. */
  datatype Env = Env(ledger: multiset<Request>, timers: set<Request>, emitted: multiset<BlockRange>)

  function After(env: Env, c: Command): Env {
    match c
    case ScheduleTimeout(r) => env.(timers := env.timers + {r})
    case ResetTimeout(r) => env.(timers := env.timers - {r})
    case FetchHeaders(range) => env.(ledger := env.ledger + multiset{HeadersRequest(range)})
    case FetchPayload(p) => env.(ledger := env.ledger + multiset{PayloadRequest(p)})
    case Emit(_, range, _) => env.(emitted := env.emitted + multiset{range})
    case _ => env
  }

  function AfterAll(env: Env, cmds: seq<Command>): Env {
    if cmds == [] then env else After(AfterAll(env, cmds[..|cmds| - 1]), cmds[|cmds| - 1])
  }

  lemma AfterPush(env: Env, cmds: seq<Command>, c: Command)
    ensures AfterAll(env, cmds + [c]) == After(AfterAll(env, cmds), c)
  {
    assert (cmds + [c])[..|cmds|] == cmds;
  }

  lemma {:induction false} AfterConcat(env: Env, a: seq<Command>, b: seq<Command>)
    ensures AfterAll(env, a + b) == AfterAll(AfterAll(env, a), b)
    decreases |b|
  {
    if b == [] {
      assert a + b == a;
    } else {
      var n := |b| - 1;
      AfterConcat(env, a, b[..n]);
      assert a + b == (a + b[..n]) + [b[n]];
      AfterPush(env, a + b[..n], b[n]);
    }
  }

  /** A handler that issued `cmds` led from one environment to the other, and every command is
      what the mode allows. */
  ghost predicate Issued(before: Env, cmds: seq<Command>, after: Env, mode: Requester) {
    after == AfterAll(before, cmds) && GoodCommands(cmds, mode)
  }

  lemma IssuedPush(before: Env, cmds: seq<Command>, after: Env, c: Command, mode: Requester)
    requires Issued(before, cmds, after, mode) && GoodCommand(c, mode)
    ensures Issued(before, cmds + [c], After(after, c), mode)
  {
    AfterPush(before, cmds, c);
  }

  lemma IssuedConcat(before: Env, a: seq<Command>, between: Env, b: seq<Command>, after: Env, mode: Requester)
    requires Issued(before, a, between, mode) && Issued(between, b, after, mode)
    ensures Issued(before, a + b, after, mode)
  {
    AfterConcat(before, a, b);
  }

  /** How often each range is emitted in a list of commands. */
  ghost function Emits(cmds: seq<Command>): multiset<BlockRange> {
    if cmds == [] then multiset{}
    else
      var last := cmds[|cmds| - 1];
      Emits(cmds[..|cmds| - 1]) + if last.Emit? then multiset{last.range} else multiset{}
  }

  lemma {:induction false} EmitsConcat(a: seq<Command>, b: seq<Command>)
    ensures Emits(a + b) == Emits(a) + Emits(b)
    decreases |b|
  {
    if b == [] {
      assert a + b == a;
    } else {
      var n := |b| - 1;
      EmitsConcat(a, b[..n]);
      assert (a + b)[..|a + b| - 1] == a + b[..n];
    }
  }

  lemma {:induction false} NoEmits(cmds: seq<Command>)
    requires forall i :: 0 <= i < |cmds| ==> !cmds[i].Emit?
    ensures Emits(cmds) == multiset{}
    decreases |cmds|
  {
    if cmds != [] {
      NoEmits(cmds[..|cmds| - 1]);
    }
  }

  // ----- Self requests -----

  /** `to` is None while the outstanding request is to the own ledger. */
  datatype SelfRequest = SelfRequest(requester: Requester, to: Option<NodeId>)

  datatype Slot = Slot(header: Header, body: Option<Body>)

  datatype CompletedHeader = CompletedHeader(requester: Requester, blocks: seq<Slot>, payloadCache: map<BodyId, Body>)

  type HeaderRequests = map<BlockRange, SelfRequest>
  type PayloadRequests = map<BodyId, Option<SelfRequest>>
  type CompletedHeaders = map<BlockRange, CompletedHeader>

  datatype Core = Core(
    headers: HeaderRequests, payloads: PayloadRequests, inFlight: nat,
    completed: CompletedHeaders, mode: Requester)

  function SlotHeaders(slots: seq<Slot>): (r: seq<Header>)
    ensures |r| == |slots| && forall i :: 0 <= i < |r| ==> r[i] == slots[i].header
  {
    seq(|slots|, i requires 0 <= i < |slots| => slots[i].header)
  }

  predicate Filled(ch: CompletedHeader) {
    forall i :: 0 <= i < |ch.blocks| ==> ch.blocks[i].body.Some?
  }

  /** Headers verified for the range, bodies and cached bodies matching their ids. */
  ghost predicate GoodCompleted(range: BlockRange, ch: CompletedHeader, mode: Requester) {
    && ch.requester == mode
    && range.numBlocks > 0 && VerifyBlockHeaders(range, SlotHeaders(ch.blocks))
    && (forall i :: 0 <= i < |ch.blocks| && ch.blocks[i].body.Some? ==>
          ch.blocks[i].body.value.GetId() == ch.blocks[i].header.bodyId)
    && (forall p :: p in ch.payloadCache ==> ch.payloadCache[p].GetId() == p)
  }

  /** Every missing body has a request entry. */
  ghost predicate Wanted(ch: CompletedHeader, payloads: PayloadRequests) {
    forall i :: 0 <= i < |ch.blocks| && ch.blocks[i].body.None? ==> ch.blocks[i].header.bodyId in payloads
  }

  function Initiated(payloads: PayloadRequests): set<BodyId> {
    set p | p in payloads && payloads[p].Some?
  }

  ghost predicate HeadersOk(headers: HeaderRequests, mode: Requester) {
    forall r :: r in headers ==> r.numBlocks > 0 && headers[r].requester == mode
  }

  ghost predicate PayloadsOk(payloads: PayloadRequests, inFlight: nat, mode: Requester) {
    && (forall p :: p in payloads && payloads[p].Some? ==> payloads[p].value.requester == mode)
    && inFlight == |Initiated(payloads)| <= BLOCKSYNC_MAX_PAYLOAD_REQUESTS
  }

  ghost predicate CompletedOk(completed: CompletedHeaders, mode: Requester) {
    forall r :: r in completed ==> GoodCompleted(r, completed[r], mode)
  }

  ghost predicate AllWanted(completed: CompletedHeaders, payloads: PayloadRequests) {
    forall r :: r in completed ==> Wanted(completed[r], payloads)
  }

  ghost predicate CoreInv(s: Core) {
    && s.headers.Keys !! s.completed.Keys
    && HeadersOk(s.headers, s.mode)
    && PayloadsOk(s.payloads, s.inFlight, s.mode)
    && CompletedOk(s.completed, s.mode)
    && AllWanted(s.completed, s.payloads)
  }

  /** Between handler calls: the scheduler is saturated or nothing waits, and no filled range
      is held back. */
  ghost predicate Settled(s: Core) {
    Saturated(s.payloads, s.inFlight) && NoneFilled(s.completed)
  }

  ghost predicate Saturated(payloads: PayloadRequests, inFlight: nat) {
    inFlight == BLOCKSYNC_MAX_PAYLOAD_REQUESTS || forall p :: p in payloads ==> payloads[p].Some?
  }

  ghost predicate NoneFilled(completed: CompletedHeaders) {
    forall r :: r in completed ==> !Filled(completed[r])
  }

  /** A request to a peer has an armed timer; one to the ledger an unanswered fetch or a timer. */
  ghost predicate Attended(env: Env, q: Request, req: SelfRequest) {
    q in env.timers || (req.to.None? && q in env.ledger)
  }

  /** No initiated request is stranded, except possibly one whose ledger answer is being handled:
      that one still has a timer if it was sent to a peer. */
  ghost predicate Live(s: Core, env: Env, answering: Option<Request>) {
    LiveHeaders(s.headers, env, answering) && LivePayloads(s.payloads, env, answering)
  }

  ghost predicate LiveHeaders(headers: HeaderRequests, env: Env, answering: Option<Request>) {
    forall r :: r in headers ==>
      || Attended(env, HeadersRequest(r), headers[r])
      || (answering == Some(HeadersRequest(r)) && headers[r].to.None?)
  }

  ghost predicate LivePayloads(payloads: PayloadRequests, env: Env, answering: Option<Request>) {
    forall p :: p in payloads && payloads[p].Some? ==>
      || Attended(env, PayloadRequest(p), payloads[p].value)
      || (answering == Some(PayloadRequest(p)) && payloads[p].value.to.None?)
  }

  function Tracked(s: Core): set<BlockRange> {
    s.headers.Keys + s.completed.Keys
  }

  /** Commands other than resets, emits and answers leave every request attended. */
  lemma LiveAfterPush(s: Core, env: Env, answering: Option<Request>, c: Command)
    requires Live(s, env, answering) && !c.ResetTimeout?
    ensures Live(s, After(env, c), answering)
  {
  }

  // ----- Filling in a body -----

  predicate Misses(slot: Slot, p: BodyId) {
    slot.header.bodyId == p && slot.body.None?
  }

  predicate MissesSome(slots: seq<Slot>, p: BodyId) {
    exists i :: 0 <= i < |slots| && Misses(slots[i], p)
  }

  function FillSlots(slots: seq<Slot>, p: BodyId, body: Body): (r: seq<Slot>)
    ensures |r| == |slots|
    ensures forall i :: 0 <= i < |r| ==>
              r[i] == if Misses(slots[i], p) then slots[i].(body := Some(body)) else slots[i]
  {
    seq(|slots|, i requires 0 <= i < |slots| =>
      if Misses(slots[i], p) then slots[i].(body := Some(body)) else slots[i])
  }

  function Fill(ch: CompletedHeader, p: BodyId, body: Body): CompletedHeader {
    CompletedHeader(ch.requester, FillSlots(ch.blocks, p, body),
                    if MissesSome(ch.blocks, p)
                    then ch.payloadCache[p := body] else ch.payloadCache)
  }

  function FillAll(completed: CompletedHeaders, p: BodyId, body: Body): CompletedHeaders {
    map r | r in completed :: Fill(completed[r], p, body)
  }

  lemma FillKeepsGood(range: BlockRange, ch: CompletedHeader, mode: Requester, p: BodyId, body: Body,
                      payloads: PayloadRequests)
    requires GoodCompleted(range, ch, mode) && Wanted(ch, payloads) && body.GetId() == p
    ensures GoodCompleted(range, Fill(ch, p, body), mode)
    ensures Wanted(Fill(ch, p, body), payloads - {p})
  {
    var ch' := Fill(ch, p, body);
    assert SlotHeaders(ch'.blocks) == SlotHeaders(ch.blocks);
  }

  lemma InitiatedRemoved(payloads: PayloadRequests, p: BodyId)
    requires p in payloads
    ensures |Initiated(payloads - {p})| == |Initiated(payloads)| - (if payloads[p].Some? then 1 else 0)
  {
    assert Initiated(payloads - {p}) == Initiated(payloads) - {p};
  }

  lemma InitiatedUpdated(payloads: PayloadRequests, p: BodyId, req: SelfRequest)
    requires p in payloads
    ensures |Initiated(payloads[p := Some(req)])| == |Initiated(payloads)| + (if payloads[p].Some? then 0 else 1)
  {
    assert Initiated(payloads[p := Some(req)]) == Initiated(payloads) + {p};
  }

  /** A body arrived for `p`: drop its request and hand the body to every range missing it. */
  function BodyArrived(s: Core, p: BodyId, body: Body): Core
    requires CoreInv(s) && p in s.payloads
  {
    InitiatedRemoved(s.payloads, p);
    s.(payloads := s.payloads - {p},
       inFlight := s.inFlight - (if s.payloads[p].Some? then 1 else 0),
       completed := FillAll(s.completed, p, body))
  }

  lemma RemovedKeepsPayloads(payloads: PayloadRequests, inFlight: nat, mode: Requester, p: BodyId)
    requires PayloadsOk(payloads, inFlight, mode) && p in payloads
    ensures payloads[p].Some? ==> inFlight > 0
    ensures PayloadsOk(payloads - {p}, inFlight - (if payloads[p].Some? then 1 else 0), mode)
  {
    InitiatedRemoved(payloads, p);
  }

  lemma FillAllKeepsGood(completed: CompletedHeaders, mode: Requester, p: BodyId, body: Body, payloads: PayloadRequests)
    requires CompletedOk(completed, mode) && AllWanted(completed, payloads) && body.GetId() == p
    ensures CompletedOk(FillAll(completed, p, body), mode) && AllWanted(FillAll(completed, p, body), payloads - {p})
    ensures FillAll(completed, p, body).Keys == completed.Keys
  {
    forall r | r in completed
      ensures GoodCompleted(r, Fill(completed[r], p, body), mode) && Wanted(Fill(completed[r], p, body), payloads - {p})
    {
      FillKeepsGood(r, completed[r], mode, p, body, payloads);
    }
  }

  lemma BodyArrivedKeepsInv(s: Core, p: BodyId, body: Body)
    requires CoreInv(s) && p in s.payloads && body.GetId() == p
    ensures CoreInv(BodyArrived(s, p, body))
    ensures Tracked(BodyArrived(s, p, body)) == Tracked(s)
  {
    RemovedKeepsPayloads(s.payloads, s.inFlight, s.mode, p);
    FillAllKeepsGood(s.completed, s.mode, p, body, s.payloads);
  }

  lemma BodyArrivedKeepsLive(s: Core, p: BodyId, body: Body, env: Env)
    requires CoreInv(s) && p in s.payloads && Live(s, env, Some(PayloadRequest(p)))
    ensures Live(BodyArrived(s, p, body), env, None)
    ensures Live(BodyArrived(s, p, body), After(env, ResetTimeout(PayloadRequest(p))), None)
  {
  }

  // ----- Initiating a waiting request -----

  function Initiate(s: Core, p: BodyId): Core
    requires p in s.payloads
  {
    s.(payloads := s.payloads[p := Some(SelfRequest(s.mode, None))], inFlight := s.inFlight + 1)
  }

  lemma InitiateKeepsInv(s: Core, p: BodyId, env: Env)
    requires CoreInv(s) && p in s.payloads && s.payloads[p].None? && Live(s, env, None)
    requires s.inFlight < BLOCKSYNC_MAX_PAYLOAD_REQUESTS
    ensures CoreInv(Initiate(s, p)) && Live(Initiate(s, p), After(env, FetchPayload(p)), None)
    ensures Tracked(Initiate(s, p)) == Tracked(s)
  {
    InitiatedUpdated(s.payloads, p, SelfRequest(s.mode, None));
    var s' := Initiate(s, p);
    forall r | r in s'.completed
      ensures Wanted(s'.completed[r], s'.payloads)
    {
      assert Wanted(s.completed[r], s.payloads);
    }
  }

  // ----- Retargeting a request -----

  function RetargetHeaders(s: Core, r: BlockRange, to: Option<NodeId>): Core
    requires r in s.headers
  {
    s.(headers := s.headers[r := s.headers[r].(to := to)])
  }

  lemma RetargetHeadersKeepsInv(s: Core, r: BlockRange, to: Option<NodeId>, env: Env)
    requires CoreInv(s) && r in s.headers && Live(s, env, Some(HeadersRequest(r))) && HeadersRequest(r) in env.timers
    ensures CoreInv(RetargetHeaders(s, r, to)) && Live(RetargetHeaders(s, r, to), env, None)
    ensures Tracked(RetargetHeaders(s, r, to)) == Tracked(s)
    ensures Settled(s) ==> Settled(RetargetHeaders(s, r, to))
  {
  }

  function RetargetPayload(s: Core, p: BodyId, to: Option<NodeId>): Core
    requires p in s.payloads && s.payloads[p].Some?
  {
    s.(payloads := s.payloads[p := Some(s.payloads[p].value.(to := to))])
  }

  lemma RetargetPayloadKeepsInv(s: Core, p: BodyId, to: Option<NodeId>, env: Env)
    requires CoreInv(s) && p in s.payloads && s.payloads[p].Some?
    requires Live(s, env, Some(PayloadRequest(p))) && PayloadRequest(p) in env.timers
    ensures CoreInv(RetargetPayload(s, p, to)) && Live(RetargetPayload(s, p, to), env, None)
    ensures Tracked(RetargetPayload(s, p, to)) == Tracked(s)
    ensures Settled(s) ==> Settled(RetargetPayload(s, p, to))
  {
    var s' := RetargetPayload(s, p, to);
    InitiatedUpdated(s.payloads, p, s.payloads[p].value.(to := to));
    forall r | r in s'.completed
      ensures Wanted(s'.completed[r], s'.payloads)
    {
      assert Wanted(s.completed[r], s.payloads);
    }
  }

  // ----- Completing a header request -----

  /** A waiting entry for every body not requested yet. */
  function WithWaiting(payloads: PayloadRequests, headers: seq<Header>): PayloadRequests {
    if headers == [] then payloads
    else
      var rest := WithWaiting(payloads, headers[..|headers| - 1]);
      var p := headers[|headers| - 1].bodyId;
      if p in rest then rest else rest[p := None]
  }

  lemma {:induction false} WithWaitingAdds(payloads: PayloadRequests, headers: seq<Header>)
    ensures var r := WithWaiting(payloads, headers);
            && payloads.Keys <= r.Keys
            && (forall p :: p in payloads ==> r[p] == payloads[p])
            && (forall p :: p in r && p !in payloads ==> r[p].None?)
            && (forall i :: 0 <= i < |headers| ==> headers[i].bodyId in r)
    decreases |headers|
  {
    if headers != [] {
      WithWaitingAdds(payloads, headers[..|headers| - 1]);
    }
  }

  function FreshSlots(headers: seq<Header>): (r: seq<Slot>)
    ensures |r| == |headers| && forall i :: 0 <= i < |r| ==> r[i] == Slot(headers[i], None)
  {
    seq(|headers|, i requires 0 <= i < |headers| => Slot(headers[i], None))
  }

  /** Verified headers arrived for `range`. */
  function HeadersArrived(s: Core, range: BlockRange, headers: seq<Header>): Core {
    s.(headers := s.headers - {range},
       payloads := WithWaiting(s.payloads, headers),
       completed := s.completed[range := CompletedHeader(s.mode, FreshSlots(headers), map[])])
  }

  lemma FreshIsGood(range: BlockRange, headers: seq<Header>, mode: Requester, payloads: PayloadRequests)
    requires range.numBlocks > 0 && VerifyBlockHeaders(range, headers)
    ensures GoodCompleted(range, CompletedHeader(mode, FreshSlots(headers), map[]), mode)
    ensures Wanted(CompletedHeader(mode, FreshSlots(headers), map[]), WithWaiting(payloads, headers))
  {
    assert SlotHeaders(FreshSlots(headers)) == headers;
    WithWaitingAdds(payloads, headers);
  }

  lemma WaitingKeepsPayloads(payloads: PayloadRequests, inFlight: nat, mode: Requester, headers: seq<Header>)
    requires PayloadsOk(payloads, inFlight, mode)
    ensures PayloadsOk(WithWaiting(payloads, headers), inFlight, mode)
  {
    WithWaitingAdds(payloads, headers);
    assert Initiated(WithWaiting(payloads, headers)) == Initiated(payloads);
  }

  lemma CompletedAdded(s: Core, range: BlockRange, ch: CompletedHeader, payloads: PayloadRequests)
    requires CoreInv(s) && range in s.headers && GoodCompleted(range, ch, s.mode) && Wanted(ch, payloads)
    requires PayloadsOk(payloads, s.inFlight, s.mode) && s.payloads.Keys <= payloads.Keys
    ensures var s' := s.(headers := s.headers - {range}, payloads := payloads, completed := s.completed[range := ch]);
            CoreInv(s') && Tracked(s') == Tracked(s)
  {
  }

  lemma HeadersArrivedKeepsInv(s: Core, range: BlockRange, headers: seq<Header>)
    requires CoreInv(s) && range in s.headers && VerifyBlockHeaders(range, headers)
    ensures CoreInv(HeadersArrived(s, range, headers))
    ensures Tracked(HeadersArrived(s, range, headers)) == Tracked(s)
  {
    FreshIsGood(range, headers, s.mode, s.payloads);
    WaitingKeepsPayloads(s.payloads, s.inFlight, s.mode, headers);
    WithWaitingAdds(s.payloads, headers);
    CompletedAdded(s, range, CompletedHeader(s.mode, FreshSlots(headers), map[]), WithWaiting(s.payloads, headers));
  }

  lemma HeadersArrivedKeepsLive(s: Core, range: BlockRange, headers: seq<Header>, env: Env)
    requires CoreInv(s) && range in s.headers && Live(s, env, Some(HeadersRequest(range)))
    ensures Live(HeadersArrived(s, range, headers), env, None)
    ensures Live(HeadersArrived(s, range, headers), After(env, ResetTimeout(HeadersRequest(range))), None)
  {
    WithWaitingAdds(s.payloads, headers);
  }

  // ----- Emitting a filled range -----

  function FullBlocks(slots: seq<Slot>): (r: seq<FullBlock>)
    requires forall i :: 0 <= i < |slots| ==> slots[i].body.Some? && slots[i].body.value.GetId() == slots[i].header.bodyId
    ensures |r| == |slots|
    ensures forall i :: 0 <= i < |r| ==> NewFullBlock(slots[i].header, slots[i].body.value) == Some(r[i])
  {
    seq(|slots|, i requires 0 <= i < |slots| => NewFullBlock(slots[i].header, slots[i].body.value).value)
  }

  /** The ranges still missing a body. */
  function Unfilled(completed: CompletedHeaders): CompletedHeaders {
    map r | r in completed && !Filled(completed[r]) :: completed[r]
  }

  // ----- Absorbing every cached body -----

  predicate IsCached(completed: CompletedHeaders, cache: BlockCache, p: BodyId)
    requires cache.Valid()
  {
    cache.GetPayload(p).Some? || exists r :: r in completed && p in completed[r].payloadCache
  }

  /** The requests whose body has turned up. */
  ghost function CachedIds(s: Core, cache: BlockCache): set<BodyId>
    requires cache.Valid()
  {
    set p | p in s.payloads && IsCached(s.completed, cache, p)
  }

  function AbsorbSlots(slots: seq<Slot>, found: set<BodyId>): (r: seq<Slot>)
    ensures |r| == |slots|
    ensures forall i :: 0 <= i < |r| ==> r[i] == AbsorbSlot(slots[i], found)
  {
    seq(|slots|, i requires 0 <= i < |slots| => AbsorbSlot(slots[i], found))
  }

  function AbsorbSlot(slot: Slot, found: set<BodyId>): Slot {
    if slot.body.None? && slot.header.bodyId in found && slot.header.bodyId.BodyHash?
    then slot.(body := Some(slot.header.bodyId.body)) else slot
  }

  /** The bodies of `found` that the range was missing. */
  function Missing(ch: CompletedHeader, found: set<BodyId>): set<BodyId> {
    set i | 0 <= i < |ch.blocks| && ch.blocks[i].body.None? && ch.blocks[i].header.bodyId in found
            && ch.blocks[i].header.bodyId.BodyHash? :: ch.blocks[i].header.bodyId
  }

  function Absorb(ch: CompletedHeader, found: set<BodyId>): CompletedHeader {
    CompletedHeader(ch.requester, AbsorbSlots(ch.blocks, found), ch.payloadCache + BodiesOf(Missing(ch, found)))
  }

  function BodiesOf(ids: set<BodyId>): map<BodyId, Body> {
    map p | p in ids && p.BodyHash? :: p.body
  }

  function AbsorbAll(completed: CompletedHeaders, found: set<BodyId>): CompletedHeaders {
    map r | r in completed :: Absorb(completed[r], found)
  }

  /** The state after every body of `found` has been handed out. */
  ghost function Absorbed(s: Core, found: set<BodyId>): Core {
    s.(payloads := s.payloads - found, inFlight := |Initiated(s.payloads - found)|,
       completed := AbsorbAll(s.completed, found))
  }

  lemma AbsorbNone(ch: CompletedHeader)
    ensures Absorb(ch, {}) == ch
  {
    assert AbsorbSlots(ch.blocks, {}) == ch.blocks;
    assert Missing(ch, {}) == {};
  }

  lemma AbsorbedNothing(s: Core)
    requires CoreInv(s)
    ensures Absorbed(s, {}) == s
  {
    assert s.payloads - {} == s.payloads;
    forall r | r in s.completed
      ensures Absorb(s.completed[r], {}) == s.completed[r]
    {
      AbsorbNone(s.completed[r]);
    }
    assert AbsorbAll(s.completed, {}) == s.completed;
  }

  lemma AbsorbSlotsThenFill(slots: seq<Slot>, found: set<BodyId>, p: BodyId, body: Body)
    requires body.GetId() == p && p !in found
    ensures FillSlots(AbsorbSlots(slots, found), p, body) == AbsorbSlots(slots, found + {p})
  {
    var r := FillSlots(AbsorbSlots(slots, found), p, body);
    forall i | 0 <= i < |slots|
      ensures r[i] == AbsorbSlot(slots[i], found + {p})
    {
    }
  }

  lemma MissesSomeAbsorbed(slots: seq<Slot>, found: set<BodyId>, p: BodyId)
    requires p !in found
    ensures MissesSome(AbsorbSlots(slots, found), p) <==> MissesSome(slots, p)
  {
    var mid := AbsorbSlots(slots, found);
    forall i | 0 <= i < |slots|
      ensures Misses(mid[i], p) <==> Misses(slots[i], p)
    {
    }
    if i :| 0 <= i < |slots| && Misses(slots[i], p) {
      assert Misses(mid[i], p);
    }
  }

  lemma MissingGrows(ch: CompletedHeader, found: set<BodyId>, p: BodyId)
    requires p.BodyHash? && p !in found
    ensures Missing(ch, found + {p}) == Missing(ch, found) + (if MissesSome(ch.blocks, p) then {p} else {})
  {
    if i :| 0 <= i < |ch.blocks| && Misses(ch.blocks[i], p) {
      assert ch.blocks[i].header.bodyId in Missing(ch, found + {p});
    }
    forall q
      ensures q in Missing(ch, found + {p}) <==> q in Missing(ch, found) || (q == p && MissesSome(ch.blocks, p))
    {
      if q in Missing(ch, found + {p}) {
        var i :| 0 <= i < |ch.blocks| && ch.blocks[i].body.None? && ch.blocks[i].header.bodyId == q;
        assert q == p ==> Misses(ch.blocks[i], p);
      }
    }
  }

  lemma BodiesOfOneMore(cache: map<BodyId, Body>, ids: set<BodyId>, body: Body)
    ensures cache + BodiesOf(ids + {body.GetId()}) == (cache + BodiesOf(ids))[body.GetId() := body]
  {
  }

  lemma AbsorbThenFill(ch: CompletedHeader, found: set<BodyId>, p: BodyId, body: Body)
    requires body.GetId() == p && p !in found
    ensures Fill(Absorb(ch, found), p, body) == Absorb(ch, found + {p})
  {
    AbsorbSlotsThenFill(ch.blocks, found, p, body);
    MissesSomeAbsorbed(ch.blocks, found, p);
    MissingGrows(ch, found, p);
    BodiesOfOneMore(ch.payloadCache, Missing(ch, found), body);
    assert Missing(ch, found) + {} == Missing(ch, found);
  }

  lemma AbsorbAllThenFill(completed: CompletedHeaders, found: set<BodyId>, p: BodyId, body: Body)
    requires body.GetId() == p && p !in found
    ensures FillAll(AbsorbAll(completed, found), p, body) == AbsorbAll(completed, found + {p})
  {
    forall r | r in completed
      ensures Fill(Absorb(completed[r], found), p, body) == Absorb(completed[r], found + {p})
    {
      AbsorbThenFill(completed[r], found, p, body);
    }
  }

  lemma AbsorbOneMore(s: Core, found: set<BodyId>, p: BodyId, body: Body)
    requires CoreInv(Absorbed(s, found)) && p in s.payloads && p !in found && body.GetId() == p
    ensures BodyArrived(Absorbed(s, found), p, body) == Absorbed(s, found + {p})
  {
    var payloads := s.payloads - found;
    InitiatedRemoved(payloads, p);
    assert payloads - {p} == s.payloads - (found + {p});
    AbsorbAllThenFill(s.completed, found, p, body);
  }

  /** Handing out one body does not change whether another is cached. */
  lemma CachedUnchanged(completed: CompletedHeaders, found: set<BodyId>, cache: BlockCache, p: BodyId)
    requires cache.Valid() && p !in found
    ensures IsCached(AbsorbAll(completed, found), cache, p) <==> IsCached(completed, cache, p)
  {
    forall r | r in completed
      ensures p in Absorb(completed[r], found).payloadCache <==> p in completed[r].payloadCache
    {
      assert p !in Missing(completed[r], found);
    }
    if r :| r in completed && p in completed[r].payloadCache {
      assert p in AbsorbAll(completed, found)[r].payloadCache;
    }
  }

  // ----- What the scheduler does -----

  /** Waiting requests may have been started, nothing else changed. */
  ghost predicate Started(before: PayloadRequests, after: PayloadRequests, mode: Requester) {
    && before.Keys == after.Keys
    && forall p :: p in before ==>
         after[p] == before[p] || (before[p].None? && after[p] == Some(SelfRequest(mode, None)))
  }

  /** try_initiate_payload_requests_for_self: hand out the cached bodies, start waiting requests,
      let go of the ranges that are filled. */
  ghost predicate Scheduled(s: Core, cache: BlockCache, s': Core)
    requires cache.Valid()
  {
    var mid := Absorbed(s, CachedIds(s, cache));
    && s'.headers == s.headers && s'.mode == s.mode
    && Started(mid.payloads, s'.payloads, s.mode)
    && s'.inFlight == |Initiated(s'.payloads)| <= BLOCKSYNC_MAX_PAYLOAD_REQUESTS
    && Saturated(s'.payloads, s'.inFlight)
    && s'.completed == Unfilled(mid.completed)
  }

  /** A header response applied to a tracked range. */
  function HeadersApplied(s: Core, sender: Option<NodeId>, response: HeadersResponse, peer: Option<NodeId>): Core
    requires response.range in s.headers && response.range.numBlocks > 0
  {
    match response
    case HeadersFound(range, headers) =>
      if VerifyBlockHeaders(range, headers) then HeadersArrived(s, range, headers) else s
    case HeadersNotAvailable(range) =>
      if sender.None? && s.headers[range].to.None? then RetargetHeaders(s, range, peer) else s
  }

  /** A body response applied to a request in flight. */
  function PayloadApplied(s: Core, sender: Option<NodeId>, response: BodyResponse, peer: Option<NodeId>): Core
    requires CoreInv(s) && response.GetPayloadId() in s.payloads && s.payloads[response.GetPayloadId()].Some?
  {
    match response
    case BodyFound(body) => BodyArrived(s, body.GetId(), body)
    case BodyNotAvailable(p) =>
      if sender.None? && s.payloads[p].value.to.None? then RetargetPayload(s, p, peer) else s
  }

  /** Ask a peer if one was found, and come back after a timeout either way. */
  function RetryCommands(to: Option<NodeId>, q: Request): seq<Command> {
    if to.Some? then [SendRequest(to.value, q), ScheduleTimeout(q)] else [ScheduleTimeout(q)]
  }

  /** The commands of a header response on a tracked range, before scheduling. */
  function HeadersCommands(s: Core, sender: Option<NodeId>, response: HeadersResponse, peer: Option<NodeId>): seq<Command>
    requires response.range in s.headers && response.range.numBlocks > 0
  {
    match response
    case HeadersFound(range, headers) =>
      if sender.Some? && VerifyBlockHeaders(range, headers) then [ResetTimeout(HeadersRequest(range))] else []
    case HeadersNotAvailable(range) =>
      if sender.None? && s.headers[range].to.None? then RetryCommands(peer, HeadersRequest(range)) else []
  }

  /** The commands of a body response on a request in flight, before scheduling. */
  function PayloadCommands(s: Core, sender: Option<NodeId>, response: BodyResponse, peer: Option<NodeId>): seq<Command>
    requires response.GetPayloadId() in s.payloads && s.payloads[response.GetPayloadId()].Some?
  {
    match response
    case BodyFound(body) => if sender.Some? then [ResetTimeout(PayloadRequest(body.GetId()))] else []
    case BodyNotAvailable(p) =>
      if sender.None? && s.payloads[p].value.to.None? then RetryCommands(peer, PayloadRequest(p)) else []
  }

  /** A peer has been asked for the body. */
  predicate PeerAsked(payloads: PayloadRequests, p: BodyId) {
    p in payloads && payloads[p].Some? && payloads[p].value.to.Some?
  }

  /** The timers taken back: those of the absorbed requests that had gone to a peer. */
  ghost predicate ResetsOf(cmds: seq<Command>, payloads: PayloadRequests, found: set<BodyId>) {
    && (forall i :: 0 <= i < |cmds| ==> cmds[i].ResetTimeout? && cmds[i].request.PayloadRequest?)
    && forall p :: ResetTimeout(PayloadRequest(p)) in cmds <==> p in found && PeerAsked(payloads, p)
  }

  /** The ledger fetches made: one for each request that was started. */
  ghost predicate FetchesOf(cmds: seq<Command>, before: PayloadRequests, after: PayloadRequests) {
    && (forall i :: 0 <= i < |cmds| ==> cmds[i].FetchPayload?)
    && (forall i, j :: 0 <= i < j < |cmds| ==> cmds[i] != cmds[j])
    && forall p :: FetchPayload(p) in cmds <==> p in before && before[p].None? && p in after && after[p].Some?
  }

  ghost predicate AllEmits(cmds: seq<Command>) {
    forall i :: 0 <= i < |cmds| ==> cmds[i].Emit?
  }

  /** The emit of a completed range: its headers with the bodies found for them. */
  ghost predicate EmitOf(c: Command, ch: CompletedHeader, mode: Requester) {
    && c.Emit? && c.requester == mode && |c.blocks| == |ch.blocks|
    && forall i :: 0 <= i < |ch.blocks| ==>
         ch.blocks[i].body.Some? && c.blocks[i] == FullBlock(ch.blocks[i].header, ch.blocks[i].body.value)
  }

  /** The emit of a range held in good order is complete. */
  lemma EmitOfIsComplete(range: BlockRange, ch: CompletedHeader, mode: Requester, c: Command)
    requires GoodCompleted(range, ch, mode) && EmitOf(c, ch, mode)
    ensures CompleteRange(range, c.blocks)
  {
    assert Headers(c.blocks) == SlotHeaders(ch.blocks);
  }

  /** Every filled range but those in `rest` is emitted, once, as it stands, and no other. */
  ghost predicate EmitsFilledBut(cmds: seq<Command>, completed: CompletedHeaders, rest: set<BlockRange>, mode: Requester) {
    && (forall c :: c in cmds && c.Emit? ==> c.range in completed && EmitOf(c, completed[c.range], mode))
    && (forall r :: Emits(cmds)[r] == if r in completed && Filled(completed[r]) && r !in rest then 1 else 0)
  }

  ghost predicate EmitsFilled(cmds: seq<Command>, completed: CompletedHeaders, mode: Requester) {
    EmitsFilledBut(cmds, completed, {}, mode)
  }

  lemma EmitOneMore(cmds: seq<Command>, completed: CompletedHeaders, rest: set<BlockRange>, mode: Requester, c: Command)
    requires EmitsFilledBut(cmds, completed, rest, mode) && c.Emit? && c.range in rest && c.range in completed
    requires Filled(completed[c.range]) && EmitOf(c, completed[c.range], mode)
    ensures EmitsFilledBut(cmds + [c], completed, rest - {c.range}, mode)
  {
    assert (cmds + [c])[..|cmds|] == cmds;
    assert forall x :: x in cmds + [c] <==> x in cmds || x == c;
  }

  /** Commands that emit nothing may stand before. */
  lemma EmitsFilledAfter(silent: seq<Command>, cmds: seq<Command>, completed: CompletedHeaders, mode: Requester)
    requires (forall i :: 0 <= i < |silent| ==> !silent[i].Emit?) && EmitsFilled(cmds, completed, mode)
    ensures EmitsFilled(silent + cmds, completed, mode)
  {
    NoEmits(silent);
    EmitsConcat(silent, cmds);
    assert forall x :: x in silent + cmds <==> x in silent || x in cmds;
  }

  /** What a pass of the scheduler says: the resets, the fetches, and the emits of the ranges that
      are filled once the cached bodies are handed out. */
  ghost predicate SchedulerSays(s: Core, cache: BlockCache, s': Core, cmds: seq<Command>)
    requires cache.Valid()
  {
    var found := CachedIds(s, cache);
    var mid := Absorbed(s, found);
    && (forall c :: c in cmds ==> c.Emit? || c.FetchPayload? || (c.ResetTimeout? && c.request.PayloadRequest?))
    && (forall p :: ResetTimeout(PayloadRequest(p)) in cmds <==> p in found && PeerAsked(s.payloads, p))
    && (forall p :: FetchPayload(p) in cmds <==>
          p in mid.payloads && mid.payloads[p].None? && p in s'.payloads && s'.payloads[p].Some?)
    && EmitsFilled(cmds, mid.completed, s.mode)
  }

  lemma SchedulerSaysAll(s: Core, cache: BlockCache, s': Core, resets: seq<Command>, fetches: seq<Command>, emits: seq<Command>)
    requires cache.Valid() && ResetsOf(resets, s.payloads, CachedIds(s, cache))
    requires FetchesOf(fetches, Absorbed(s, CachedIds(s, cache)).payloads, s'.payloads)
    requires AllEmits(emits) && EmitsFilled(emits, Absorbed(s, CachedIds(s, cache)).completed, s.mode)
    ensures SchedulerSays(s, cache, s', resets + fetches + emits)
  {
    var cmds := resets + fetches + emits;
    assert forall c :: c in cmds <==> c in resets || c in fetches || c in emits;
    EmitsFilledAfter(resets + fetches, emits, Absorbed(s, CachedIds(s, cache)).completed, s.mode);
  }

  lemma OneMoreReset(cmds: seq<Command>, payloads: PayloadRequests, found: set<BodyId>, p: BodyId)
    requires ResetsOf(cmds, payloads, found)
    ensures ResetsOf(if PeerAsked(payloads, p) then cmds + [ResetTimeout(PayloadRequest(p))] else cmds, payloads, found + {p})
  {
    var c := ResetTimeout(PayloadRequest(p));
    assert forall x :: x in cmds + [c] <==> x in cmds || x == c;
  }

  lemma OneMoreFetch(cmds: seq<Command>, before: PayloadRequests, after: PayloadRequests, p: BodyId, request: SelfRequest)
    requires FetchesOf(cmds, before, after) && before.Keys == after.Keys
    requires p in before && before[p].None? && after[p].None?
    ensures FetchesOf(cmds + [FetchPayload(p)], before, after[p := Some(request)])
  {
    assert FetchPayload(p) !in cmds;
    assert forall x :: x in cmds + [FetchPayload(p)] <==> x in cmds || x == FetchPayload(p);
  }

  /** What a response does to the self requests, whoever sent it (None is the own ledger). */
  ghost predicate Responded(s: Core, sender: Option<NodeId>, response: Response, cache: BlockCache,
                            peer: Option<NodeId>, s': Core)
    requires CoreInv(s) && cache.Valid()
  {
    if Ignored(s, response) then s' == s
    else Scheduled(Applied(s, sender, response, peer), cache, s')
  }

  /** The commands issued along with it: those of the response itself, for a body the ranges it
      filled, and those of the scheduler. */
  ghost predicate ResponseSays(s: Core, sender: Option<NodeId>, response: Response, cache: BlockCache,
                               peer: Option<NodeId>, s': Core, cmds: seq<Command>)
    requires CoreInv(s) && cache.Valid()
  {
    if Ignored(s, response) then cmds == []
    else exists i, j :: 0 <= i <= j <= |cmds|
                        && ResponseParts(s, sender, response, cache, peer, s', cmds[..i], cmds[i..j], cmds[j..])
  }

  ghost predicate ResponseParts(s: Core, sender: Option<NodeId>, response: Response, cache: BlockCache, peer: Option<NodeId>,
                                s': Core, first: seq<Command>, emits: seq<Command>, rest: seq<Command>)
    requires CoreInv(s) && cache.Valid() && !Ignored(s, response)
  {
    && first == FirstCommands(s, sender, response, peer)
    && AllEmits(emits)
    && (match response
        case HeadersReply(_) => emits == []
        case PayloadReply(payload) => EmitsFilled(emits, PayloadApplied(s, sender, payload, peer).completed, s.mode))
    && SchedulerSays(Applied(s, sender, response, peer), cache, s', rest)
  }

  predicate Ignored(s: Core, response: Response) {
    match response
    case HeadersReply(headers) => headers.range !in s.headers
    case PayloadReply(payload) => payload.GetPayloadId() !in s.payloads || s.payloads[payload.GetPayloadId()].None?
  }

  ghost function Applied(s: Core, sender: Option<NodeId>, response: Response, peer: Option<NodeId>): Core
    requires CoreInv(s) && !Ignored(s, response)
  {
    match response
    case HeadersReply(headers) => HeadersApplied(s, sender, headers, peer)
    case PayloadReply(payload) =>
      var applied := PayloadApplied(s, sender, payload, peer);
      applied.(completed := Unfilled(applied.completed))
  }

  ghost function FirstCommands(s: Core, sender: Option<NodeId>, response: Response, peer: Option<NodeId>): seq<Command>
    requires CoreInv(s) && !Ignored(s, response)
  {
    match response
    case HeadersReply(headers) => HeadersCommands(s, sender, headers, peer)
    case PayloadReply(payload) => PayloadCommands(s, sender, payload, peer)
  }

  lemma SaysInParts(s: Core, sender: Option<NodeId>, response: Response, cache: BlockCache, peer: Option<NodeId>,
                    s': Core, first: seq<Command>, emits: seq<Command>, rest: seq<Command>)
    requires CoreInv(s) && cache.Valid() && !Ignored(s, response)
    requires ResponseParts(s, sender, response, cache, peer, s', first, emits, rest)
    ensures ResponseSays(s, sender, response, cache, peer, s', first + emits + rest)
  {
    var cmds, i, j := first + emits + rest, |first|, |first| + |emits|;
    assert cmds[..i] == first && cmds[i..j] == emits && cmds[j..] == rest;
  }

  predicate InProgress(s: Core, request: Request) {
    match request
    case HeadersRequest(range) => range in s.headers
    case PayloadRequest(p) => p in s.payloads && s.payloads[p].Some?
  }

  /** A timeout sends a request still in progress to another peer. */
  function TimedOut(s: Core, request: Request, peer: Option<NodeId>): Core {
    if !InProgress(s, request) then s
    else
      match request
      case HeadersRequest(range) => RetargetHeaders(s, range, peer)
      case PayloadRequest(p) => RetargetPayload(s, p, peer)
  }

  // ----- Good answers are used -----

  lemma {:induction false} EmitIsThere(cmds: seq<Command>, r: BlockRange)
    requires Emits(cmds)[r] > 0
    ensures exists c :: c in cmds && c.Emit? && c.range == r
    decreases |cmds|
  {
    var n := |cmds| - 1;
    if cmds[n].Emit? && cmds[n].range == r {
      assert cmds[n] in cmds;
    } else {
      EmitIsThere(cmds[..n], r);
      var c :| c in cmds[..n] && c.Emit? && c.range == r;
      assert c in cmds;
    }
  }

  /** Handing out bodies keeps the headers of a range. */
  lemma AbsorbKeepsHeaders(ch: CompletedHeader, found: set<BodyId>)
    ensures SlotHeaders(Absorb(ch, found).blocks) == SlotHeaders(ch.blocks)
  {
  }

  lemma EmitHasHeaders(c: Command, ch: CompletedHeader, mode: Requester)
    requires EmitOf(c, ch, mode)
    ensures Headers(c.blocks) == SlotHeaders(ch.blocks)
  {
  }

  /** A range that is held before a pass of the scheduler is held after it or emitted, with the same
      headers either way. */
  lemma ScheduledKeepsRange(a: Core, cache: BlockCache, s': Core, rest: seq<Command>, range: BlockRange)
    requires cache.Valid() && Scheduled(a, cache, s') && SchedulerSays(a, cache, s', rest) && range in a.completed
    ensures if range in s'.completed then SlotHeaders(s'.completed[range].blocks) == SlotHeaders(a.completed[range].blocks)
            else exists c :: c in rest && c.Emit? && c.range == range && Headers(c.blocks) == SlotHeaders(a.completed[range].blocks)
  {
    var found := CachedIds(a, cache);
    var mid := Absorbed(a, found).completed;
    AbsorbKeepsHeaders(a.completed[range], found);
    if range !in s'.completed {
      assert Emits(rest)[range] == 1;
      EmitIsThere(rest, range);
      var c :| c in rest && c.Emit? && c.range == range;
      EmitHasHeaders(c, mid[range], a.mode);
    }
  }

  lemma ArrivedHeadersStay(s: Core, cache: BlockCache, s': Core, rest: seq<Command>, range: BlockRange, headers: seq<Header>)
    requires cache.Valid() && Scheduled(HeadersArrived(s, range, headers), cache, s')
    requires SchedulerSays(HeadersArrived(s, range, headers), cache, s', rest)
    ensures s'.headers.Keys == s.headers.Keys - {range}
    ensures if range in s'.completed then SlotHeaders(s'.completed[range].blocks) == headers
            else exists c :: c in rest && c.Emit? && c.range == range && Headers(c.blocks) == headers
  {
    var a := HeadersArrived(s, range, headers);
    assert SlotHeaders(a.completed[range].blocks) == headers;
    ScheduledKeepsRange(a, cache, s', rest, range);
  }

  /** Every slot for this body has it. */
  ghost predicate BodyInPlace(completed: CompletedHeaders, body: Body) {
    forall r, i :: r in completed && 0 <= i < |completed[r].blocks| && completed[r].blocks[i].header.bodyId == body.GetId() ==>
      completed[r].blocks[i].body == Some(body)
  }

  lemma FillAllPlaces(completed: CompletedHeaders, mode: Requester, body: Body)
    requires CompletedOk(completed, mode)
    ensures BodyInPlace(Unfilled(FillAll(completed, body.GetId(), body)), body)
  {
    var after := Unfilled(FillAll(completed, body.GetId(), body));
    forall r, i | r in after && 0 <= i < |after[r].blocks| && after[r].blocks[i].header.bodyId == body.GetId()
      ensures after[r].blocks[i].body == Some(body)
    {
      assert GoodCompleted(r, completed[r], mode);
    }
  }

  lemma ScheduledKeepsInPlace(a: Core, cache: BlockCache, s': Core, body: Body)
    requires cache.Valid() && Scheduled(a, cache, s') && BodyInPlace(a.completed, body)
    ensures BodyInPlace(s'.completed, body)
  {
    var found := CachedIds(a, cache);
    forall r, i | r in s'.completed && 0 <= i < |s'.completed[r].blocks| && s'.completed[r].blocks[i].header.bodyId == body.GetId()
      ensures s'.completed[r].blocks[i].body == Some(body)
    {
      assert s'.completed[r].blocks[i] == AbsorbSlot(a.completed[r].blocks[i], found);
    }
  }

  /** Verified headers for a range that was asked for end its request and no other; the range is
      held or emitted with exactly these headers. */
  ghost predicate HeadersUsed(s: Core, range: BlockRange, headers: seq<Header>, s': Core, cmds: seq<Command>) {
    && s'.headers.Keys == s.headers.Keys - {range}
    && if range in s'.completed then SlotHeaders(s'.completed[range].blocks) == headers
       else exists c :: c in cmds && c.Emit? && c.range == range && Headers(c.blocks) == headers
  }

  /** A good answer is used, whoever was asked; the timer is taken back if it came from a peer. */
  ghost predicate AnswerUsed(s: Core, sender: Option<NodeId>, response: Response, s': Core, cmds: seq<Command>) {
    match response
    case HeadersReply(HeadersFound(range, headers)) =>
      range in s.headers && range.numBlocks > 0 && VerifyBlockHeaders(range, headers) ==>
        && HeadersUsed(s, range, headers, s', cmds)
        && (sender.Some? ==> ResetTimeout(HeadersRequest(range)) in cmds)
    case PayloadReply(BodyFound(body)) =>
      body.GetId() in s.payloads && s.payloads[body.GetId()].Some? ==>
        && body.GetId() !in s'.payloads && BodyInPlace(s'.completed, body)
        && (sender.Some? ==> ResetTimeout(PayloadRequest(body.GetId())) in cmds)
    case _ => true
  }

  lemma GoodAnswersAreUsed(s: Core, sender: Option<NodeId>, response: Response, cache: BlockCache, peer: Option<NodeId>,
                           s': Core, cmds: seq<Command>)
    requires CoreInv(s) && cache.Valid()
    requires Responded(s, sender, response, cache, peer, s') && ResponseSays(s, sender, response, cache, peer, s', cmds)
    ensures AnswerUsed(s, sender, response, s', cmds)
  {
    if !Ignored(s, response) {
      var i, j :| 0 <= i <= j <= |cmds|
                  && ResponseParts(s, sender, response, cache, peer, s', cmds[..i], cmds[i..j], cmds[j..]);
      PartsAreUsed(s, sender, response, cache, peer, s', cmds[..i], cmds[i..j], cmds[j..], cmds);
    }
  }

  lemma PartsAreUsed(s: Core, sender: Option<NodeId>, response: Response, cache: BlockCache, peer: Option<NodeId>, s': Core,
                     first: seq<Command>, emits: seq<Command>, rest: seq<Command>, cmds: seq<Command>)
    requires CoreInv(s) && cache.Valid() && !Ignored(s, response) && Responded(s, sender, response, cache, peer, s')
    requires ResponseParts(s, sender, response, cache, peer, s', first, emits, rest)
    requires forall c :: c in first || c in rest ==> c in cmds
    ensures AnswerUsed(s, sender, response, s', cmds)
  {
    match response
    case HeadersReply(HeadersFound(range, headers)) =>
      if range.numBlocks > 0 && VerifyBlockHeaders(range, headers) {
        ArrivedHeadersStay(s, cache, s', rest, range, headers);
        assert sender.Some? ==> ResetTimeout(HeadersRequest(range)) in first;
      }
    case PayloadReply(BodyFound(body)) =>
      FillAllPlaces(s.completed, s.mode, body);
      ScheduledKeepsInPlace(Applied(s, sender, response, peer), cache, s', body);
      assert sender.Some? ==> ResetTimeout(PayloadRequest(body.GetId())) in first;
    case _ =>
  }
}
