/** Blocks, headers, quorum certificates and the commit rule
    (monad-consensus-types/src/{block,quorum_certificate,payload,voting,checkpoint}.rs). */
module ConsensusTypes {
  import opened Collections

  type Round = nat
  type SeqNum = nat
  type Epoch = nat
  type NodeId = nat

  const GENESIS_ROUND: Round := 0

  /** Hashes are idealised as free constructors: hashing is injective, and an
      identifier that is not the hash of anything known is a bare digest. */
  datatype BlockId = Digest(digest: nat) | HeaderHash(header: Header)

  datatype BodyId = BodyDigest(digest: nat) | BodyHash(body: Body)

  datatype Body = Body(executionBody: seq<nat>) {
    function GetId(): BodyId { BodyHash(this) }
  }

  datatype Vote = Vote(id: BlockId, round: Round, epoch: Epoch)

  datatype QuorumCertificate = QuorumCertificate(info: Vote, signatures: nat) {
    function GetRound(): Round { info.round }
    function GetBlockId(): BlockId { info.id }

    /** The commit rule: a QC one round above the QC it extends commits the
        grandparent.  `certified` must be the header this QC points to. */
    function GetCommittableId(certified: Header): Option<BlockId>
      requires info.id == certified.GetId()
    {
      if info.round == certified.qc.info.round + 1 then Some(certified.GetParentId()) else None
    }
  }

  datatype Header = Header(
    blockRound: Round,
    epoch: Epoch,
    qc: QuorumCertificate,
    author: NodeId,
    seqNum: SeqNum,
    timestamp: nat,
    executionResults: seq<nat>,
    bodyId: BodyId)
  {
    function GetId(): BlockId { HeaderHash(this) }
    function GetParentId(): BlockId { qc.GetBlockId() }

    /** Hypothesis on every block offered to the tree: it is proposed after the
        round of its own QC, and that QC was formed no earlier than the round in
        which the certified parent was first proposed.  Both are enforced by the
        voting rules, which are not part of this model.  The second is an
        inequality because a reproposal is certified in a later round. */
    predicate WellFormed() {
      && qc.GetRound() < blockRound
      && (GetParentId().HeaderHash? ==> GetParentId().header.blockRound <= qc.GetRound())
    }
  }

  /** The block a block id names as its parent; a bare digest has no known parent. */
  function ParentOf(id: BlockId): BlockId {
    if id.HeaderHash? then id.header.GetParentId() else id
  }

  datatype FullBlock = FullBlock(header: Header, body: Body) {
    function GetId(): BlockId { header.GetId() }
    function GetParentId(): BlockId { header.GetParentId() }
    function GetBodyId(): BodyId { header.bodyId }
    function GetBlockRound(): Round { header.blockRound }
    function GetParentRound(): Round { header.qc.GetRound() }
    function GetQc(): QuorumCertificate { header.qc }
    function GetSeqNum(): SeqNum { header.seqNum }

    predicate BodyMatches() { body.GetId() == header.bodyId }
  }

  /** `ConsensusFullBlock::new`; None is HeaderPayloadMismatch. */
  function NewFullBlock(header: Header, body: Body): (r: Option<FullBlock>) {
    if body.GetId() != header.bodyId then None else Some(FullBlock(header, body))
  }

  datatype RootInfo = RootInfo(
    round: Round, seqNum: SeqNum, epoch: Epoch, blockId: BlockId, timestamp: nat)
  {
    /** The recorded round is the round of the block the root names. */
    predicate Consistent() {
      blockId.HeaderHash? ==> blockId.header.blockRound == round
    }
  }

  function RootInfoOf(b: FullBlock): RootInfo {
    RootInfo(b.GetBlockRound(), b.GetSeqNum(), b.header.epoch, b.GetId(), b.header.timestamp)
  }

  datatype BlockRange = BlockRange(lastBlockId: BlockId, numBlocks: SeqNum)

  datatype BlockPolicyError =
    | BlockNotCoherent
    | StateBackendError
    | TimestampError
    | ExecutionResultMismatch
    | BaseFeeError
    | BlockValidatorError
    | Eip7702Error
    | SystemTransactionError

  datatype Coherency = Ok | Err(error: BlockPolicyError)

  /** `BlockPolicy::check_coherency` with the state backend and chain configuration
      of one call fixed: the block, the blocks it extends from the root, the root. */
  type Policy = (FullBlock, seq<FullBlock>, RootInfo) -> Coherency

  /** The rule every policy in the repository applies first. */
  ghost predicate SeqNumRule(policy: Policy) {
    forall b, ext, root {:trigger policy(b, ext, root)} ::
      policy(b, ext, root).Ok? ==> b.GetSeqNum() == ExtendedSeqNum(ext, root) + 1
  }

  function ExtendedSeqNum(ext: seq<FullBlock>, root: RootInfo): SeqNum {
    if ext == [] then root.seqNum else ext[|ext| - 1].GetSeqNum()
  }

  /** `PassthruBlockPolicy::check_coherency`. */
  function PassthruCheck(block: FullBlock, ext: seq<FullBlock>, root: RootInfo): Coherency {
    var extendingTimestamp := if ext == [] then 0 else ext[|ext| - 1].header.timestamp;
    if block.GetSeqNum() != ExtendedSeqNum(ext, root) + 1 then Err(BlockNotCoherent)
    else if block.header.timestamp <= extendingTimestamp then Err(TimestampError)
    else if block.header.executionResults != [] then Err(ExecutionResultMismatch)
    else Ok
  }

  lemma PassthruObeysSeqNumRule()
    ensures SeqNumRule(PassthruCheck)
  {
  }
}
