/** What peers get: each request is answered at once or waits for the ledger, and nobody who waits
    is forgotten (monad-blocksync/src/blocksync.rs). */
module BlockSyncPeers {
  import opened ConsensusTypes
  import opened BlockForest
  import opened ForestQueries
  import opened BlockSyncModel
  import opened BlockSyncs
  import opened BlockSyncRelation
  import opened BlockSyncProgress

  // ----- What the cache holds of a range -----

  /** Linked headers of the tree that end at `last`. */
  ghost predicate TreeHeaders(entries: Entries, last: BlockId, headers: seq<Header>) {
    && headers != [] && headers[|headers| - 1].GetId() == last && HeadersLinked(headers)
    && forall i :: 0 <= i < |headers| ==> headers[i].GetId() in entries
  }

  /** The chain above a block is the longest there is in the tree. */
  lemma {:induction false} ParentChainIsLongest(entries: Entries, last: BlockId, headers: seq<Header>)
    requires TreeHeaders(entries, last, headers)
    ensures |headers| <= |ParentChain(entries, last)|
    decreases |headers|
  {
    var n := |headers| - 1;
    assert ParentChain(entries, last) == ParentChain(entries, ParentOf(last)) + [entries[last].block];
    if n > 0 {
      ParentChainIsLongest(entries, ParentOf(last), headers[..n]);
    }
  }

  /** No longer part of the range is in the tree than the one set aside for the peer. */
  lemma CachedPartIsLongest(range: BlockRange, cache: BlockCache, headers: seq<Header>)
    requires cache.TreeCache? && TreeHeaders(cache.entries, range.lastBlockId, headers) && |headers| <= range.numBlocks
    ensures |headers| <= |CachedPart(range, cache)|
  {
    ParentChainIsLongest(cache.entries, range.lastBlockId, headers);
  }

  /** The whole range is in the tree. */
  ghost predicate TreeHolds(cache: BlockCache, range: BlockRange) {
    cache.TreeCache? && exists headers :: TreeHeaders(cache.entries, range.lastBlockId, headers) && |headers| == range.numBlocks
  }

  lemma {:induction false} ChainIsInTree(entries: Entries, id: BlockId, i: nat)
    requires KeysMatch(entries) && i < |ParentChain(entries, id)|
    ensures ParentChain(entries, id)[i].GetId() in entries
    decreases id
  {
    if i < |ParentChain(entries, id)| - 1 {
      ChainIsInTree(entries, ParentOf(id), i);
    }
  }

  /** What is set aside is in the tree. */
  lemma CachedPartIsInTree(range: BlockRange, cache: BlockCache, i: nat)
    requires cache.Valid() && i < |CachedPart(range, cache)|
    ensures cache.TreeCache? && CachedPart(range, cache)[i].GetId() in cache.entries
  {
    var chain := ParentChain(cache.entries, range.lastBlockId);
    ChainIsInTree(cache.entries, range.lastBlockId, |chain| - |CachedPart(range, cache)| + i);
  }

  lemma CoversIffTreeHolds(range: BlockRange, cache: BlockCache)
    requires cache.Valid() && range.numBlocks > 0
    ensures |CachedPart(range, cache)| == range.numBlocks <==> TreeHolds(cache, range)
  {
    var cached := CachedPart(range, cache);
    if |cached| == range.numBlocks {
      CachedPartFits(range, cache);
      forall i | 0 <= i < |cached|
        ensures cache.TreeCache? && cached[i].GetId() in cache.entries
      {
        CachedPartIsInTree(range, cache, i);
      }
      assert cache.TreeCache?;
      assert TreeHeaders(cache.entries, range.lastBlockId, cached);
    }
    if TreeHolds(cache, range) {
      var headers :| TreeHeaders(cache.entries, range.lastBlockId, headers) && |headers| == range.numBlocks;
      CachedPartIsLongest(range, cache, headers);
    }
  }

  // ----- A request of a peer -----

  /** A request for headers is answered at once if and only if the tree has the whole range, with
      headers that verify; otherwise the peer waits for the part that is fetched. */
  lemma HeadersAreServed(s: State, from: NodeId, range: BlockRange, cache: BlockCache, out: seq<Command>, s': State)
    requires CoreInv(s.core) && cache.Valid() && range.numBlocks > 0
    requires Step(s, PeerRequestEvent(from, HeadersRequest(range), cache), out, s')
    ensures |out| == 1 && (out[0].SendResponse? <==> TreeHolds(cache, range))
    ensures if out[0].SendResponse?
            then && out[0].to == from && out[0].response.HeadersReply? && out[0].response.headers.HeadersFound?
                 && out[0].response.headers.range == range && VerifyBlockHeaders(range, out[0].response.headers.headers)
            else && out[0].FetchHeaders? && out[0].range in s'.peers.asked && from in s'.peers.asked[out[0].range]
                 && s'.peers.asked[out[0].range][from] == range
  {
    CoversIffTreeHolds(range, cache);
    CachedPartFits(range, cache);
  }

  /** A request for a body is answered at once if and only if the body is at hand; otherwise the
      peer waits for the fetch. */
  lemma BodyIsServed(s: State, from: NodeId, p: BodyId, cache: BlockCache, out: seq<Command>, s': State)
    requires CoreInv(s.core) && cache.Valid() && Step(s, PeerRequestEvent(from, PayloadRequest(p), cache), out, s')
    ensures |out| == 1 && (out[0].SendResponse? <==> AtHand(s.core, cache, p))
    ensures if out[0].SendResponse?
            then && out[0].to == from && out[0].response.PayloadReply? && out[0].response.payload.BodyFound?
                 && out[0].response.payload.body.GetId() == p
            else out == [FetchPayload(p)] && p in s'.peers.bodies && from in s'.peers.bodies[p]
  {
    CachedIsAtHand(s.core, cache, p);
  }

  // ----- The ledger's answers -----

  /** The commands answer the request to the peer. */
  ghost predicate Answered(out: seq<Command>, who: NodeId, request: Request) {
    exists c :: c in out && c.SendResponse? && c.to == who && AnsweredRequest(c.response) == request
  }

  /** Headers from the ledger go to everybody who waits for them, for the range each asked for. */
  lemma LedgerHeadersGoOut(s: State, e: Event, out: seq<Command>, s': State, lr: BlockRange, who: NodeId)
    requires CoreInv(s.core) && EventOk(e) && Step(s, e, out, s')
    requires e.LedgerEvent? && e.response.HeadersReply? && e.response.headers.range == lr
    requires lr in s.peers.asked && who in s.peers.asked[lr]
    ensures exists c :: && c in out && c.SendResponse? && c.to == who && c.response.HeadersReply?
                        && c.response.headers.range == s.peers.asked[lr][who]
                        && c.response.headers.HeadersFound? == e.response.headers.HeadersFound?
  {
    var k :| 0 <= k <= |out| && LedgerStep(s, e.response, e.cache, e.peer, out[..k], out[k..], s');
    AskerIsAnswered(s.peers, e.response, out[..k], s'.peers, lr, who);
    var c :| c in out[..k] && AnswersOne(c, s.peers.asked[lr], e.response.headers.HeadersFound?) && c.to == who;
    assert c in out;
  }

  lemma AskerIsAnswered(p: Peers, response: Response, answers: seq<Command>, p': Peers, lr: BlockRange, who: NodeId)
    requires PeersAnswered(p, response, answers, p') && response.HeadersReply? && response.headers.range == lr
    requires lr in p.asked && who in p.asked[lr]
    ensures exists c :: c in answers && AnswersOne(c, p.asked[lr], response.headers.HeadersFound?) && c.to == who
  {
    var i :| 0 <= i < |answers| && answers[i].to == who;
    assert AnswersOne(answers[i], p.asked[lr], response.headers.HeadersFound?);
    assert answers[i] in answers;
  }

  /** A body from the ledger, or the lack of it, goes to everybody who waits for it. */
  lemma LedgerBodyGoesOut(s: State, e: Event, out: seq<Command>, s': State, who: NodeId)
    requires CoreInv(s.core) && EventOk(e) && Step(s, e, out, s') && e.LedgerEvent? && e.response.PayloadReply?
    requires e.response.payload.GetPayloadId() in s.peers.bodies && who in s.peers.bodies[e.response.payload.GetPayloadId()]
    ensures SendResponse(who, e.response) in out
  {
    var k :| 0 <= k <= |out| && LedgerStep(s, e.response, e.cache, e.peer, out[..k], out[k..], s');
    assert SendResponse(who, e.response) in out[..k];
  }

  // ----- Nobody is forgotten -----

  /** The peer has asked for other headers, which may take the place of what it waits for. */
  predicate AsksAnew(e: Event, who: NodeId, request: Request) {
    && e.PeerRequestEvent? && e.from == who && request.HeadersRequest?
    && e.request.HeadersRequest? && e.request != request
  }

  lemma LedgerForgetsNobody(s: State, e: Event, out: seq<Command>, s': State, who: NodeId, request: Request)
    requires CoreInv(s.core) && EventOk(e) && Step(s, e, out, s') && e.LedgerEvent? && WaitsFor(s.peers, who, request)
    ensures WaitsFor(s'.peers, who, request) || Answered(out, who, request)
  {
    match request
    case HeadersRequest(range) =>
      var lr :| lr in s.peers.asked && who in s.peers.asked[lr] && s.peers.asked[lr][who] == range;
      if e.response.HeadersReply? && e.response.headers.range == lr {
        LedgerHeadersGoOut(s, e, out, s', lr, who);
      } else {
        assert lr in s'.peers.asked && s'.peers.asked[lr] == s.peers.asked[lr];
      }
    case PayloadRequest(p) =>
      if e.response.PayloadReply? && e.response.payload.GetPayloadId() == p {
        LedgerBodyGoesOut(s, e, out, s', who);
      }
  }

  lemma ServingForgetsNobody(s: State, e: Event, out: seq<Command>, s': State, who: NodeId, request: Request)
    requires CoreInv(s.core) && EventOk(e) && Step(s, e, out, s') && e.PeerRequestEvent? && WaitsFor(s.peers, who, request)
    ensures WaitsFor(s'.peers, who, request) || AsksAnew(e, who, request)
  {
    if request.HeadersRequest? && !AsksAnew(e, who, request) {
      var lr :| lr in s.peers.asked && who in s.peers.asked[lr] && s.peers.asked[lr][who] == request.range;
      assert lr in s'.peers.asked && who in s'.peers.asked[lr] && s'.peers.asked[lr][who] == request.range;
    }
  }

  /** Whoever waits goes on waiting until answered, or asks for other headers. */
  lemma NobodyIsForgotten(s: State, e: Event, out: seq<Command>, s': State, who: NodeId, request: Request)
    requires CoreInv(s.core) && EventOk(e) && Step(s, e, out, s') && WaitsFor(s.peers, who, request)
    ensures WaitsFor(s'.peers, who, request) || Answered(out, who, request) || AsksAnew(e, who, request)
  {
    if e.LedgerEvent? {
      LedgerForgetsNobody(s, e, out, s', who, request);
    } else if e.PeerRequestEvent? {
      ServingForgetsNobody(s, e, out, s', who, request);
    }
  }

  /** Whoever asks is answered at once or waits; an empty range is not answered. */
  lemma EveryRequestIsHeard(s: State, e: Event, out: seq<Command>, s': State)
    requires CoreInv(s.core) && EventOk(e) && Step(s, e, out, s') && e.PeerRequestEvent?
    requires e.request.HeadersRequest? ==> e.request.range.numBlocks > 0
    ensures WaitsFor(s'.peers, e.from, e.request) || Answered(out, e.from, e.request)
  {
    match e.request
    case HeadersRequest(range) =>
      HeadersAreServed(s, e.from, range, e.cache, out, s');
      assert out[0] in out;
    case PayloadRequest(p) =>
      BodyIsServed(s, e.from, p, e.cache, out, s');
      assert out[0] in out;
  }
}
