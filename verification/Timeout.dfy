/** Timeout certificates: the rank order and the grouping of timeouts
    (monad-consensus-types/src/timeout.rs). */
module Timeouts {
  import opened Collections
  import opened ConsensusTypes

  datatype Ordering = Less | Equal | Greater {
    function Reverse(): Ordering {
      match this case Less => Greater case Equal => Equal case Greater => Less
    }
  }

  function CompareRounds(a: Round, b: Round): Ordering {
    if a < b then Less else if a == b then Equal else Greater
  }

  datatype HighExtendRank = TipRank(tipRound: Round, qcRound: Round) | QcRank(qcRound: Round) {
    /** Tips compare by tip round, then QC round; a QC beats a tip of its own round. */
    function Cmp(other: HighExtendRank): Ordering {
      match (this, other)
      case (QcRank(q1), QcRank(q2)) => CompareRounds(q1, q2)
      case (TipRank(t1, q1), TipRank(t2, q2)) => if t1 != t2 then CompareRounds(t1, t2) else CompareRounds(q1, q2)
      case (QcRank(q1), TipRank(t2, _)) => if q1 == t2 then Greater else CompareRounds(q1, t2)
      case (TipRank(t1, _), QcRank(q2)) => if t1 == q2 then Less else CompareRounds(t1, q2)
    }

    predicate AtMost(other: HighExtendRank) {
      Cmp(other) != Greater
    }
  }

  /** The order is total: comparison is antisymmetric, transitive, and equal only on equal ranks. */
  lemma RankOrderIsTotal(a: HighExtendRank, b: HighExtendRank, c: HighExtendRank)
    ensures a.Cmp(b) == b.Cmp(a).Reverse()
    ensures a.Cmp(b) == Equal <==> a == b
    ensures a.AtMost(b) && b.AtMost(c) ==> a.AtMost(c)
    ensures a.AtMost(b) || b.AtMost(a)
    ensures a.AtMost(b) && b.AtMost(a) ==> a == b
  {
  }

  /** The order in rounds: QCs by round, tips by tip round and then QC round, and a QC counts as
      higher than a tip of its own round. */
  lemma RankOrderInRounds(a: HighExtendRank, b: HighExtendRank)
    ensures a.AtMost(b) <==>
              match (a, b)
              case (QcRank(q1), QcRank(q2)) => q1 <= q2
              case (TipRank(t1, q1), TipRank(t2, q2)) => t1 < t2 || (t1 == t2 && q1 <= q2)
              case (TipRank(t1, _), QcRank(q2)) => t1 <= q2
              case (QcRank(q1), TipRank(t2, _)) => q1 < t2
  {
  }

  datatype ConsensusTip = ConsensusTip(header: Header, signature: nat, freshCertificate: Option<nat>)

  datatype HighExtend = Tip(tip: ConsensusTip) | Qc(qc: QuorumCertificate) {
    function Rank(): HighExtendRank {
      match this
      case Tip(tip) => TipRank(tip.header.blockRound, tip.header.qc.GetRound())
      case Qc(qc) => QcRank(qc.GetRound())
    }

    /** Different values of equal rank are incomparable. */
    function PartialCmp(other: HighExtend): Option<Ordering> {
      var ord := Rank().Cmp(other.Rank());
      if ord == Equal && this != other then None else Some(ord)
    }
  }

  datatype HighExtendVote = TipVote(tip: ConsensusTip, vote: Option<nat>) | QcVote(qc: QuorumCertificate) {
    function ToHighExtend(): HighExtend {
      match this case TipVote(tip, _) => Tip(tip) case QcVote(qc) => Qc(qc)
    }
  }

  /** The partial order is strict exactly where the ranks differ. */
  lemma PartialOrderFollowsRank(a: HighExtend, b: HighExtend)
    ensures a.PartialCmp(b) == Some(Greater) <==> b.PartialCmp(a) == Some(Less)
    ensures a.PartialCmp(b) == Some(Greater) <==> !a.Rank().AtMost(b.Rank())
    ensures a.PartialCmp(b) == None <==> a != b && a.Rank() == b.Rank()
  {
    RankOrderIsTotal(a.Rank(), b.Rank(), b.Rank());
  }

  datatype TimeoutInfo = TimeoutInfo(epoch: Epoch, round: Round, highQcRound: Round, highTipRound: Round) {
    /** A tip round of zero stands for "no tip above the QC". */
    function Rank(): HighExtendRank {
      if highTipRound == GENESIS_ROUND then QcRank(highQcRound) else TipRank(highTipRound, highQcRound)
    }
  }

  datatype Timeout = Timeout(tminfo: TimeoutInfo, signature: nat, highExtend: HighExtendVote)

  datatype SignedVote = SignedVote(node: NodeId, signature: nat)

  datatype NodeTimeout = NodeTimeout(node: NodeId, timeout: Timeout)

  datatype TipRound<SCT> = TipRound(highQcRound: Round, highTipRound: Round, sigs: SCT) {
    function Rank(): HighExtendRank {
      if highTipRound == GENESIS_ROUND then QcRank(highQcRound) else TipRank(highTipRound, highQcRound)
    }
  }

  datatype TimeoutCertificate<SCT> = TimeoutCertificate(
    epoch: Epoch, round: Round, tipRounds: seq<TipRound<SCT>>, highExtend: HighExtend)

  datatype Result<SCT, E> = Certificate(tc: TimeoutCertificate<SCT>) | Failed(error: E)

  datatype Collected<SCT, E> = Collection(sigs: SCT) | CollectionError(error: E)

  /** `SignatureCollection::new` over one group, with the validator mapping fixed. */
  type Collector<!SCT, !E> = (TimeoutInfo, seq<SignedVote>) -> Collected<SCT, E>

  function GenesisQc(): QuorumCertificate {
    QuorumCertificate(Vote(Digest(0), GENESIS_ROUND, 1), 0)
  }

  // ----- Choosing the high extend -----

  function ExtendOf(t: NodeTimeout): HighExtend {
    t.timeout.highExtend.ToHighExtend()
  }

  /** `best` comes from the inputs or is the genesis QC, and nothing outranks it. */
  ghost predicate IsHighest(timeouts: seq<NodeTimeout>, best: HighExtend) {
    && (best == Qc(GenesisQc()) || exists i :: 0 <= i < |timeouts| && ExtendOf(timeouts[i]) == best)
    && QcRank(GENESIS_ROUND).AtMost(best.Rank())
    && forall i :: 0 <= i < |timeouts| ==> ExtendOf(timeouts[i]).Rank().AtMost(best.Rank())
  }

  lemma HigherOfTwo(timeouts: seq<NodeTimeout>, best: HighExtend, t: NodeTimeout)
    requires IsHighest(timeouts, best)
    ensures IsHighest(timeouts + [t], if ExtendOf(t).PartialCmp(best) == Some(Greater) then ExtendOf(t) else best)
  {
    var next := ExtendOf(t);
    var all := timeouts + [t];
    var best' := if next.PartialCmp(best) == Some(Greater) then next else best;
    assert ExtendOf(all[|timeouts|]) == next;
    PartialOrderFollowsRank(next, best);
    RankOrderIsTotal(QcRank(GENESIS_ROUND), best.Rank(), best'.Rank());
    RankOrderIsTotal(next.Rank(), best.Rank(), best.Rank());
    forall i | 0 <= i < |all|
      ensures ExtendOf(all[i]).Rank().AtMost(best'.Rank())
    {
      if i < |timeouts| {
        assert ExtendOf(timeouts[i]).Rank().AtMost(best.Rank());
        RankOrderIsTotal(ExtendOf(all[i]).Rank(), best.Rank(), best'.Rank());
      }
    }
    if best' == best && best != Qc(GenesisQc()) {
      var i :| 0 <= i < |timeouts| && ExtendOf(timeouts[i]) == best;
      assert ExtendOf(all[i]) == best;
    }
  }

  // ----- Grouping by timeout info -----

  /** The votes for one info, in input order. */
  function VotesFor(timeouts: seq<NodeTimeout>, info: TimeoutInfo): seq<SignedVote> {
    if timeouts == [] then []
    else
      var last := timeouts[|timeouts| - 1];
      VotesFor(timeouts[..|timeouts| - 1], info)
      + if last.timeout.tminfo == info then [SignedVote(last.node, last.timeout.signature)] else []
  }

  /** Every input is in the group of its own info and in no other. */
  ghost predicate Partitions(timeouts: seq<NodeTimeout>, groups: map<TimeoutInfo, seq<SignedVote>>) {
    && (forall i :: 0 <= i < |timeouts| ==> timeouts[i].timeout.tminfo in groups)
    && (forall info :: info in groups ==> groups[info] == VotesFor(timeouts, info) != [])
  }

  lemma AddToGroup(timeouts: seq<NodeTimeout>, groups: map<TimeoutInfo, seq<SignedVote>>, t: NodeTimeout)
    requires Partitions(timeouts, groups)
    ensures var info := t.timeout.tminfo;
            var entry := if info in groups then groups[info] else [];
            Partitions(timeouts + [t], groups[info := entry + [SignedVote(t.node, t.timeout.signature)]])
  {
    var info := t.timeout.tminfo;
    assert (timeouts + [t])[..|timeouts|] == timeouts;
    if info !in groups {
      NoVotesYet(timeouts, info);
    }
  }

  lemma {:induction false} NoVotesYet(timeouts: seq<NodeTimeout>, info: TimeoutInfo)
    requires forall i :: 0 <= i < |timeouts| ==> timeouts[i].timeout.tminfo != info
    ensures VotesFor(timeouts, info) == []
    decreases |timeouts|
  {
    if timeouts != [] {
      NoVotesYet(timeouts[..|timeouts| - 1], info);
    }
  }

  lemma {:induction false} GroupHasMember(timeouts: seq<NodeTimeout>, info: TimeoutInfo) returns (i: nat)
    requires VotesFor(timeouts, info) != []
    ensures i < |timeouts| && timeouts[i].timeout.tminfo == info
    decreases |timeouts|
  {
    var n := |timeouts| - 1;
    if timeouts[n].timeout.tminfo == info {
      i := n;
    } else {
      i := GroupHasMember(timeouts[..n], info);
    }
  }

  /** The positions whose timeout has this info. */
  ghost function Holders(timeouts: seq<NodeTimeout>, info: TimeoutInfo): set<nat> {
    set i: nat | i < |timeouts| && timeouts[i].timeout.tminfo == info
  }

  /** A group has one vote for each of its timeouts, that of the node with its own signature. */
  lemma {:induction false} GroupIsComplete(timeouts: seq<NodeTimeout>, info: TimeoutInfo, v: SignedVote)
    ensures |VotesFor(timeouts, info)| == |Holders(timeouts, info)|
    ensures v in VotesFor(timeouts, info) <==>
              exists i :: i in Holders(timeouts, info) && v == SignedVote(timeouts[i].node, timeouts[i].timeout.signature)
    decreases |timeouts|
  {
    if timeouts != [] {
      var n := |timeouts| - 1;
      var before, last := timeouts[..n], timeouts[n];
      GroupIsComplete(before, info, v);
      assert Holders(timeouts, info) == Holders(before, info) + if last.timeout.tminfo == info then {n} else {};
      if i :| i in Holders(before, info) && v == SignedVote(before[i].node, before[i].timeout.signature) {
        assert i in Holders(timeouts, info) && v == SignedVote(timeouts[i].node, timeouts[i].timeout.signature);
      }
      if last.timeout.tminfo == info && v == SignedVote(last.node, last.timeout.signature) {
        assert n in Holders(timeouts, info);
      }
    }
  }

  // ----- TimeoutCertificate::new -----

  function TipRoundOf<SCT>(info: TimeoutInfo, sigs: SCT): TipRound<SCT> {
    TipRound(info.highQcRound, info.highTipRound, sigs)
  }

  /** `infos` lists the groups turned into `tipRounds`, one entry each. */
  ghost predicate Collects<SCT, E>(collect: Collector<SCT, E>, timeouts: seq<NodeTimeout>,
                                   infos: seq<TimeoutInfo>, tipRounds: seq<TipRound<SCT>>)
  {
    && |infos| == |tipRounds|
    && (forall i, j :: 0 <= i < j < |infos| ==> infos[i] != infos[j])
    && forall i :: 0 <= i < |infos| ==>
         && VotesFor(timeouts, infos[i]) != []
         && collect(infos[i], VotesFor(timeouts, infos[i])).Collection?
         && tipRounds[i] == TipRoundOf(infos[i], collect(infos[i], VotesFor(timeouts, infos[i])).sigs)
  }

  /** The certificate has one entry per distinct info among the inputs, each holding the
      collection of exactly that info's votes, and a high extend nothing outranks. */
  ghost predicate Certifies<SCT, E>(collect: Collector<SCT, E>, timeouts: seq<NodeTimeout>,
                                    infos: seq<TimeoutInfo>, tc: TimeoutCertificate<SCT>)
  {
    && Collects(collect, timeouts, infos, tc.tipRounds)
    && (forall i :: 0 <= i < |timeouts| ==> timeouts[i].timeout.tminfo in infos)
    && IsHighest(timeouts, tc.highExtend)
  }

  method NewTimeoutCertificate<SCT, E>(epoch: Epoch, round: Round, timeouts: seq<NodeTimeout>, collect: Collector<SCT, E>)
    returns (r: Result<SCT, E>, ghost infos: seq<TimeoutInfo>)
    ensures r.Certificate? ==> r.tc.epoch == epoch && r.tc.round == round && Certifies(collect, timeouts, infos, r.tc)
    ensures r.Failed? ==> exists info :: VotesFor(timeouts, info) != []
                                         && collect(info, VotesFor(timeouts, info)) == CollectionError(r.error)
  {
    var highest := Qc(GenesisQc());
    var sigs: map<TimeoutInfo, seq<SignedVote>> := map[];
    for i := 0 to |timeouts|
      invariant Partitions(timeouts[..i], sigs)
      invariant IsHighest(timeouts[..i], highest)
    {
      var t := timeouts[i];
      assert timeouts[..i + 1] == timeouts[..i] + [t];
      AddToGroup(timeouts[..i], sigs, t);
      HigherOfTwo(timeouts[..i], highest, t);
      var info := t.timeout.tminfo;
      var entry := if info in sigs then sigs[info] else [];
      sigs := sigs[info := entry + [SignedVote(t.node, t.timeout.signature)]];
      if ExtendOf(t).PartialCmp(highest) == Some(Greater) {
        highest := ExtendOf(t);
      }
    }
    assert timeouts[..|timeouts|] == timeouts;
    var tipRounds: seq<TipRound<SCT>> := [];
    infos := [];
    var rest := sigs.Keys;
    while rest != {}
      invariant rest <= sigs.Keys
      invariant forall info :: info in infos <==> info in sigs && info !in rest
      invariant Collects(collect, timeouts, infos, tipRounds)
    {
      var info :| info in rest;
      var c := collect(info, sigs[info]);
      if c.CollectionError? {
        return Failed(c.error), [];
      }
      CollectOneMore(collect, timeouts, infos, tipRounds, info);
      tipRounds := tipRounds + [TipRoundOf(info, c.sigs)];
      infos := infos + [info];
      rest := rest - {info};
    }
    r := Certificate(TimeoutCertificate(epoch, round, tipRounds, highest));
  }

  lemma CollectOneMore<SCT, E>(collect: Collector<SCT, E>, timeouts: seq<NodeTimeout>,
                               infos: seq<TimeoutInfo>, tipRounds: seq<TipRound<SCT>>, info: TimeoutInfo)
    requires Collects(collect, timeouts, infos, tipRounds) && info !in infos && VotesFor(timeouts, info) != []
    requires collect(info, VotesFor(timeouts, info)).Collection?
    ensures Collects(collect, timeouts, infos + [info],
                     tipRounds + [TipRoundOf(info, collect(info, VotesFor(timeouts, info)).sigs)])
  {
  }

  // ----- What a certificate guarantees -----

  /** The inputs are for this epoch and round, and each info states the rank of its high extend. */
  ghost predicate Validated(epoch: Epoch, round: Round, timeouts: seq<NodeTimeout>) {
    forall i :: 0 <= i < |timeouts| ==>
      && timeouts[i].timeout.tminfo.epoch == epoch && timeouts[i].timeout.tminfo.round == round
      && timeouts[i].timeout.tminfo.Rank() == ExtendOf(timeouts[i]).Rank()
  }

  /** Entries of a certificate over validated timeouts differ in their rounds. */
  lemma TipRoundsDistinct<SCT, E>(collect: Collector<SCT, E>, timeouts: seq<NodeTimeout>, infos: seq<TimeoutInfo>,
                                  tc: TimeoutCertificate<SCT>, i: nat, j: nat)
    requires Certifies(collect, timeouts, infos, tc) && Validated(tc.epoch, tc.round, timeouts)
    requires i < j < |tc.tipRounds|
    ensures tc.tipRounds[i].highQcRound != tc.tipRounds[j].highQcRound
            || tc.tipRounds[i].highTipRound != tc.tipRounds[j].highTipRound
  {
    var a := GroupHasMember(timeouts, infos[i]);
    var b := GroupHasMember(timeouts, infos[j]);
    assert infos[i] != infos[j];
  }

  /** The chosen high extend has the highest rank among the entries, and one of them has it. */
  lemma HighExtendIsMaximum<SCT, E>(collect: Collector<SCT, E>, timeouts: seq<NodeTimeout>, infos: seq<TimeoutInfo>,
                                    tc: TimeoutCertificate<SCT>)
    requires Certifies(collect, timeouts, infos, tc) && Validated(tc.epoch, tc.round, timeouts)
    ensures forall i :: 0 <= i < |tc.tipRounds| ==> tc.tipRounds[i].Rank().AtMost(tc.highExtend.Rank())
    ensures timeouts != [] ==> exists i :: 0 <= i < |tc.tipRounds| && tc.tipRounds[i].Rank() == tc.highExtend.Rank()
  {
    forall i | 0 <= i < |tc.tipRounds|
      ensures tc.tipRounds[i].Rank().AtMost(tc.highExtend.Rank())
    {
      var a := GroupHasMember(timeouts, infos[i]);
      assert ExtendOf(timeouts[a]).Rank().AtMost(tc.highExtend.Rank());
    }
    if timeouts != [] {
      var a := HighestIsAnInput(tc.epoch, tc.round, timeouts, tc.highExtend);
      var info := timeouts[a].timeout.tminfo;
      var i :| 0 <= i < |infos| && infos[i] == info;
      assert tc.tipRounds[i].Rank() == info.Rank();
    }
  }

  /** Even when the genesis QC was kept, some input has its rank: no info ranks below it. */
  lemma HighestIsAnInput(epoch: Epoch, round: Round, timeouts: seq<NodeTimeout>, best: HighExtend) returns (a: nat)
    requires Validated(epoch, round, timeouts) && IsHighest(timeouts, best) && timeouts != []
    ensures a < |timeouts| && ExtendOf(timeouts[a]).Rank() == best.Rank()
  {
    if best == Qc(GenesisQc()) {
      a := 0;
      assert timeouts[0].timeout.tminfo.Rank() == ExtendOf(timeouts[0]).Rank();
      assert QcRank(GENESIS_ROUND).AtMost(timeouts[0].timeout.tminfo.Rank());
      RankOrderIsTotal(QcRank(GENESIS_ROUND), ExtendOf(timeouts[0]).Rank(), best.Rank());
    } else {
      a :| 0 <= a < |timeouts| && ExtendOf(timeouts[a]) == best;
    }
  }

  /** In rounds: no entry names a tip above the chosen extend, nor, without a tip, a QC above it; at
      equal tip rounds no entry has a higher QC, and a chosen QC may have the round of a tip. */
  predicate NotAbove(qcRound: Round, tipRound: Round, best: HighExtend) {
    match best
    case Qc(qc) => tipRound <= qc.info.round && (tipRound == GENESIS_ROUND ==> qcRound <= qc.info.round)
    case Tip(tip) =>
      if tipRound == GENESIS_ROUND then qcRound < tip.header.blockRound
      else tipRound < tip.header.blockRound || (tipRound == tip.header.blockRound && qcRound <= tip.header.qc.info.round)
  }

  lemma EntryIsNotAbove<SCT, E>(collect: Collector<SCT, E>, timeouts: seq<NodeTimeout>, infos: seq<TimeoutInfo>,
                                tc: TimeoutCertificate<SCT>, i: nat)
    requires Certifies(collect, timeouts, infos, tc) && Validated(tc.epoch, tc.round, timeouts) && i < |tc.tipRounds|
    ensures NotAbove(tc.tipRounds[i].highQcRound, tc.tipRounds[i].highTipRound, tc.highExtend)
  {
    HighExtendIsMaximum(collect, timeouts, infos, tc);
    RankOrderInRounds(tc.tipRounds[i].Rank(), tc.highExtend.Rank());
  }

  /** Every timeout is in the certificate: an entry has its rounds and the collection of all votes
      with its info, its own among them; and its rounds are not above the chosen extend. */
  lemma EveryTimeoutIsCertified<SCT, E>(collect: Collector<SCT, E>, timeouts: seq<NodeTimeout>, infos: seq<TimeoutInfo>,
                                        tc: TimeoutCertificate<SCT>, a: nat)
    requires Certifies(collect, timeouts, infos, tc) && Validated(tc.epoch, tc.round, timeouts) && a < |timeouts|
    ensures exists i :: && 0 <= i < |tc.tipRounds|
                        && tc.tipRounds[i].highQcRound == timeouts[a].timeout.tminfo.highQcRound
                        && tc.tipRounds[i].highTipRound == timeouts[a].timeout.tminfo.highTipRound
    ensures SignedVote(timeouts[a].node, timeouts[a].timeout.signature) in VotesFor(timeouts, timeouts[a].timeout.tminfo)
    ensures NotAbove(timeouts[a].timeout.tminfo.highQcRound, timeouts[a].timeout.tminfo.highTipRound, tc.highExtend)
  {
    var info := timeouts[a].timeout.tminfo;
    var i :| 0 <= i < |infos| && infos[i] == info;
    assert tc.tipRounds[i].highQcRound == info.highQcRound && tc.tipRounds[i].highTipRound == info.highTipRound;
    EntryIsNotAbove(collect, timeouts, infos, tc, i);
    GroupIsComplete(timeouts, info, SignedVote(timeouts[a].node, timeouts[a].timeout.signature));
    assert a in Holders(timeouts, info);
  }
}
