/** What a validator keeps on record in every run: its lock, its latest votes, and why its round started. */
module ConsensusRecords {
  import opened Basics
  import opened Rounds
  import opened Committees
  import opened Certificates
  import opened ChainManagers
  import opened Consensus

  // ----- The lock and the vote slots -----

  /** The certificate of a validated block that a vote was based on, if any. */
  function CertificateOf(c: Cast): Option<Certificate> {
    match c.reason
    case ByProposal(p) => p.validatedBlockCertificate
    case ByCertificate(cert) => Some(cert)
    case _ => None
  }

  /** The lock is the certificate of the highest round that any vote so far was based on. */
  predicate LockIsTheHighest(locked: Option<Certificate>, casts: seq<Cast>) {
    && (forall c | c in casts && CertificateOf(c).Some? ::
          locked.Some? && Rank(CertificateOf(c).value.vote.round) <= Rank(locked.value.vote.round))
    && (locked.Some? ==> exists c :: c in casts && CertificateOf(c) == locked)
  }

  datatype Slot = BlockSlot | TimeoutSlot | FallbackSlot

  function SlotOf(c: Cast): Slot {
    match c.reason
    case ByLeaderTimeout(_) => TimeoutSlot
    case ByFallback(_) => FallbackSlot
    case _ => BlockSlot
  }

  /** The last vote of a sort. */
  function Latest(casts: seq<Cast>, slot: Slot): Option<Signature> {
    if casts == [] then None
    else
      var c := casts[|casts| - 1];
      if SlotOf(c) == slot then Some(c.vote) else Latest(casts[..|casts| - 1], slot)
  }

  function OfKind(vote: Option<Signature>, kind: CertificateKind): Option<Signature> {
    if vote.Some? && vote.value.statement.kind == kind then vote else None
  }

  /** The slots hold the latest block vote, under its kind, and the latest timeout and fallback votes. */
  predicate SlotsHoldTheLatest(m: Manager, casts: seq<Cast>) {
    && m.confirmedVote == OfKind(Latest(casts, BlockSlot), ConfirmedBlocks)
    && m.validatedVote == OfKind(Latest(casts, BlockSlot), ValidatedBlocks)
    && m.timeoutVote == Latest(casts, TimeoutSlot)
    && m.fallbackVote == Latest(casts, FallbackSlot)
  }

  /** Nobody falls back twice. */
  predicate FallsBackOnce(casts: seq<Cast>) {
    forall i, j | 0 <= i < |casts| && 0 <= j < |casts| && casts[i].reason.ByFallback?
        && casts[j].reason.ByFallback? :: i == j
  }

  predicate RecordInvariant(n: Node) {
    && LockIsTheHighest(n.manager.locked, n.casts)
    && SlotsHoldTheLatest(n.manager, n.casts)
    && FallsBackOnce(n.casts)
  }

  lemma LatestGrows(casts: seq<Cast>, c: Cast, slot: Slot)
    ensures Latest(casts + [c], slot) == if SlotOf(c) == slot then Some(c.vote) else Latest(casts, slot)
  {
    assert (casts + [c])[..|casts|] == casts;
  }

  lemma {:induction false} NoLatest(casts: seq<Cast>)
    requires Latest(casts, FallbackSlot).None?
    ensures forall c | c in casts :: !c.reason.ByFallback?
  {
    if casts != [] {
      var before := casts[..|casts| - 1];
      NoLatest(before);
      assert casts == before + [casts[|casts| - 1]];
    }
  }

  /** The lock moves to a certificate that is past it. */
  predicate LockMoves(locked: Option<Certificate>, cert: Option<Certificate>, locked': Option<Certificate>) {
    locked' ==
    if cert.None? || (locked.Some? && Rank(cert.value.vote.round) <= Rank(locked.value.vote.round)) then locked
               else cert
  }

  lemma LockFollows(locked: Option<Certificate>, casts: seq<Cast>, c: Cast, locked': Option<Certificate>)
    requires LockIsTheHighest(locked, casts) && LockMoves(locked, CertificateOf(c), locked')
    ensures LockIsTheHighest(locked', casts + [c])
  {
    var casts' := casts + [c];
    assert c in casts';
    if locked' == locked && locked.Some? {
      var x :| x in casts && CertificateOf(x) == locked;
      assert x in casts' && CertificateOf(x) == locked';
    }
  }

  /** A vote goes into its slot, and a block vote clears the slot of the other kind. */
  predicate SlotsMove(m: Manager, c: Cast, m': Manager) {
    var isBlock := SlotOf(c) == BlockSlot;
    && m'.confirmedVote == (if isBlock then OfKind(Some(c.vote), ConfirmedBlocks) else m.confirmedVote)
    && m'.validatedVote == (if isBlock then OfKind(Some(c.vote), ValidatedBlocks) else m.validatedVote)
    && m'.timeoutVote == (if SlotOf(c) == TimeoutSlot then Some(c.vote) else m.timeoutVote)
    && m'.fallbackVote == (if SlotOf(c) == FallbackSlot then Some(c.vote) else m.fallbackVote)
  }

  lemma SlotsFollow(m: Manager, casts: seq<Cast>, c: Cast, m': Manager)
    requires SlotsHoldTheLatest(m, casts) && SlotsMove(m, c, m')
    ensures SlotsHoldTheLatest(m', casts + [c])
  {
    LatestGrows(casts, c, BlockSlot);
    LatestGrows(casts, c, TimeoutSlot);
    LatestGrows(casts, c, FallbackSlot);
  }

  lemma CastKeepsRecord(n: Node, m': Manager, c: Cast, time: Timestamp)
    requires RecordInvariant(n)
    requires LockMoves(n.manager.locked, CertificateOf(c), m'.locked) && SlotsMove(n.manager, c, m')
    requires c.reason.ByFallback? ==> n.manager.fallbackVote.None?
    ensures RecordInvariant(Advance(n, m', Some(c.vote), c.reason, time))
  {
    LockFollows(n.manager.locked, n.casts, c, m'.locked);
    SlotsFollow(n.manager, n.casts, c, m');
    if c.reason.ByFallback? {
      NoLatest(n.casts);
    }
  }

  lemma ProposalMoves(cfg: Config, votes: set<Signature>, m: Manager, step: Step)
    requires step.Propose? && NodeEnabled(cfg, votes, m, step)
    ensures var (m', vote) := m.CreateVote(step.proposal, step.executed, Some(step.v), step.time);
            && vote.Some?
            && LockMoves(m.locked, step.proposal.validatedBlockCertificate, m'.locked)
            && SlotsMove(m, Cast(vote.value, ByProposal(step.proposal)), m')
  {}

  lemma ProposeKeepsRecord(cfg: Config, votes: set<Signature>, n: Node, step: Step)
    requires step.Propose? && RecordInvariant(n) && NodeEnabled(cfg, votes, n.manager, step)
    ensures RecordInvariant(StepNode(cfg, n, step))
  {
    var Propose(v, p, executed, time) := step;
    var (m', vote) := n.manager.CreateVote(p, executed, Some(v), time);
    ProposalMoves(cfg, votes, n.manager, step);
    CastKeepsRecord(n, m', Cast(vote.value, ByProposal(p)), time);
  }

  lemma FinalizeKeepsRecord(cfg: Config, votes: set<Signature>, n: Node, step: Step)
    requires step.Finalize? && RecordInvariant(n) && NodeEnabled(cfg, votes, n.manager, step)
    ensures RecordInvariant(StepNode(cfg, n, step))
  {
    var Finalize(v, cert, time) := step;
    var (m', vote) := n.manager.CreateFinalVote(cert, Some(v), time);
    if vote.Some? {
      AcceptedCertificateIsNew(n.manager, cert);
      CastKeepsRecord(n, m', Cast(vote.value, ByCertificate(cert)), time);
    }
  }

  lemma TimeoutsKeepRecord(cfg: Config, n: Node, step: Step)
    requires step.RequestTimeout? || step.RequestFallback? || step.ReceiveTimeout?
    requires RecordInvariant(n)
    ensures RecordInvariant(StepNode(cfg, n, step))
  {
    match step
    case ReceiveTimeout(_, _, _) =>
    case RequestTimeout(v, time) =>
      var (m', vote) := n.manager.VoteTimeout(cfg.timeoutValue, Some(v), time);
      if vote.Some? {
        CastKeepsRecord(n, m', Cast(vote.value, ByLeaderTimeout(time)), time);
      }
    case RequestFallback(v, time) =>
      var (m', vote) := n.manager.VoteFallback(cfg.timeoutValue, Some(v));
      if vote.Some? {
        CastKeepsRecord(n, m', Cast(vote.value, ByFallback(time)), time);
      }
  }

  lemma StepKeepsRecord(cfg: Config, votes: set<Signature>, n: Node, step: Step)
    requires !step.Forge? && RecordInvariant(n) && NodeEnabled(cfg, votes, n.manager, step)
    ensures RecordInvariant(StepNode(cfg, n, step))
  {
    match step
    case Propose(_, _, _, _) => ProposeKeepsRecord(cfg, votes, n, step);
    case Finalize(_, _, _) => FinalizeKeepsRecord(cfg, votes, n, step);
    case _ => TimeoutsKeepRecord(cfg, n, step);
  }

  lemma NextKeepsRecord(cfg: Config, s: System, s': System, v: ValidatorName)
    requires Next(cfg, s, s') && v in s.nodes && RecordInvariant(s.nodes[v])
    ensures v in s'.nodes && RecordInvariant(s'.nodes[v])
  {
    var step :| Enabled(cfg, s, step) && s' == Apply(cfg, s, step);
    if !step.Forge? && step.v == v {
      StepKeepsRecord(cfg, s.votes, s.nodes[v], step);
    } else {
      assert s'.nodes[v] == s.nodes[v];
    }
  }

  /**
   * In every run, an honest validator's lock is the highest certificate it ever acted on, its vote
   * slots hold its latest votes, and it signed the fallback at most once.
   */
  lemma {:induction false} RecordsAreExact(cfg: Config, run: seq<System>, k: nat, v: ValidatorName)
    requires IsRun(cfg, run) && k < |run| && v in cfg.honest
    ensures v in run[k].nodes && RecordInvariant(run[k].nodes[v])
  {
    if k > 0 {
      RecordsAreExact(cfg, run, k - 1, v);
      assert StepsAt(cfg, run, k - 1);
      NextKeepsRecord(cfg, run[k - 1], run[k], v);
    }
  }

  // ----- Why a round started -----

  /** The leader rounds, except for the first round of all and the one that can be entered at any time. */
  predicate MustBeEarned(cfg: Config, r: Round) {
    Rank(r) > Rank(SingleLeader(0)) && r != cfg.ownership.FirstRound()
  }

  /** A quorum has signed that a round timed out, or validated some block in it. */
  ghost predicate Completed(cfg: Config, votes: set<Signature>, r: Round) {
    || Certified(cfg, votes, VoteValue(cfg.timeoutValue, r, Timeouts))
    || exists value :: Certified(cfg, votes, VoteValue(value, r, ValidatedBlocks))
  }

  ghost predicate Earned(cfg: Config, votes: set<Signature>, r: Round) {
    exists p :: cfg.ownership.NextRound(p) == Some(r) && Completed(cfg, votes, p)
  }

  predicate CastInEnteredRound(entered: map<Round, Timestamp>, c: Cast) {
    if c.reason.ByFallback? then c.Round() == SingleLeader(U32_MAX) else c.Round() in entered
  }

  ghost predicate RoundsInvariant(cfg: Config, votes: set<Signature>, n: Node) {
    && (forall r | r in n.entered && MustBeEarned(cfg, r) :: Earned(cfg, votes, r))
    && (forall c | c in n.casts :: CastInEnteredRound(n.entered, c))
  }

  ghost predicate SystemRounds(cfg: Config, s: System) {
    forall v | v in s.nodes :: RoundsInvariant(cfg, s.votes, s.nodes[v])
  }

  lemma EarnedStays(cfg: Config, votes: set<Signature>, votes': set<Signature>, r: Round)
    requires votes <= votes' && Earned(cfg, votes, r)
    ensures Earned(cfg, votes', r)
  {
    var p :| cfg.ownership.NextRound(p) == Some(r) && Completed(cfg, votes, p);
    if Certified(cfg, votes, VoteValue(cfg.timeoutValue, p, Timeouts)) {
      CertifiedStays(cfg, votes, votes', VoteValue(cfg.timeoutValue, p, Timeouts));
    } else {
      var value :| Certified(cfg, votes, VoteValue(value, p, ValidatedBlocks));
      CertifiedStays(cfg, votes, votes', VoteValue(value, p, ValidatedBlocks));
    }
    assert Completed(cfg, votes', p);
  }

  lemma RoundsStay(cfg: Config, votes: set<Signature>, votes': set<Signature>, n: Node)
    requires votes <= votes' && RoundsInvariant(cfg, votes, n)
    ensures RoundsInvariant(cfg, votes', n)
  {
    forall r | r in n.entered && MustBeEarned(cfg, r) ensures Earned(cfg, votes', r) {
      EarnedStays(cfg, votes, votes', r);
    }
  }

  /** An honest vote for a certified statement, cast in a round its validator has entered. */
  lemma CertifiedRoundWasEntered(cfg: Config, s: System, statement: VoteValue)
    requires Invariant(cfg, s) && SystemRounds(cfg, s) && cfg.committee.MostlyHonest(cfg.honest)
    requires Certified(cfg, s.votes, statement) && MustBeEarned(cfg, statement.round)
    requires statement.kind != Timeouts || statement.round != SingleLeader(U32_MAX)
    ensures Earned(cfg, s.votes, statement.round)
  {
    var voters := Voters(s.votes, statement);
    var v := QuorumsShareAnHonestVote(cfg.committee, cfg.honest, voters, voters);
    var i := CastOf(cfg, s, v, statement);
    var n := s.nodes[v];
    assert RoundsInvariant(cfg, s.votes, n) && CastInEnteredRound(n.entered, n.casts[i]);
  }

  /** One more entered round, and at most one more vote, in that round. */
  lemma RoundsGrow(cfg: Config, votes: set<Signature>, n: Node, m': Manager, vote: Option<Signature>, reason: Reason,
                   time: Timestamp)
    requires RoundsInvariant(cfg, votes, n) && n.manager.currentRound in n.entered
    requires m'.currentRound != n.manager.currentRound && MustBeEarned(cfg, m'.currentRound) ==>
             Earned(cfg, votes, m'.currentRound)
    requires vote.Some? ==>
               vote.value.statement.round == if reason.ByFallback? then SingleLeader(U32_MAX) else m'.currentRound
    ensures RoundsInvariant(cfg, votes, Advance(n, m', vote, reason, time))
  {
    var n' := Advance(n, m', vote, reason, time);
    forall c | c in n'.casts ensures CastInEnteredRound(n'.entered, c) {
      if c in n.casts {
        assert CastInEnteredRound(n.entered, c);
      }
    }
  }

  lemma TimeoutMovesToTheNextRound(cfg: Config, m: Manager, cert: Certificate, time: Timestamp)
    requires ManagerInvariant(cfg, m)
    ensures var r := m.HandleTimeoutCertificate(cert, time).currentRound;
            || r == m.currentRound
            || cfg.ownership.NextRound(cert.vote.round) == Some(r)
            || (cert.vote.round == LAST_ROUND && r == LAST_ROUND)
  {
    var m1 := m.(timeout := Some(cert));
    RankEmbedsTheDerivedOrder(m1.TargetRound(), m.currentRound);
    NextRoundIsTheSuccessor(cfg.ownership, cert.vote.round, Fast);
  }

  /** Without super owners, a leader round is only proposed in once it is current or its predecessor is certified. */
  lemma ProposedRoundIsEarned(cfg: Config, votes: set<Signature>, m: Manager, step: Step)
    requires step.Propose? && NodeEnabled(cfg, votes, m, step) && m.ownership == cfg.ownership
    requires cfg.ownership.superOwners == map[]
    requires step.proposal.content.round != m.currentRound && MustBeEarned(cfg, step.proposal.content.round)
    ensures Earned(cfg, votes, step.proposal.content.round)
  {
    var cert := step.proposal.validatedBlockCertificate;
    assert cert.Some? && cfg.ownership.NextRound(cert.value.vote.round) == Some(step.proposal.content.round);
    CertificatesAreCertified(cfg, votes, cert.value);
    assert Certified(cfg, votes, VoteValue(Executed(step.executed), cert.value.vote.round, ValidatedBlocks));
    assert Completed(cfg, votes, cert.value.vote.round);
  }

  lemma ReceivedTimeoutEarns(cfg: Config, s: System, m: Manager, step: Step)
    requires Invariant(cfg, s) && SystemRounds(cfg, s) && cfg.committee.MostlyHonest(cfg.honest)
    requires step.ReceiveTimeout? && NodeEnabled(cfg, s.votes, m, step) && ManagerInvariant(cfg, m)
    ensures var r := m.HandleTimeoutCertificate(step.certificate, step.time).currentRound;
            r != m.currentRound && MustBeEarned(cfg, r) ==> Earned(cfg, s.votes, r)
  {
    var cert := step.certificate;
    var r := m.HandleTimeoutCertificate(cert, step.time).currentRound;
    TimeoutMovesToTheNextRound(cfg, m, cert, step.time);
    CertificatesAreCertified(cfg, s.votes, cert);
    assert cert.vote == VoteValue(cfg.timeoutValue, cert.vote.round, Timeouts);
    if cfg.ownership.NextRound(cert.vote.round) == Some(r) {
      assert Completed(cfg, s.votes, cert.vote.round);
    } else if r != m.currentRound && MustBeEarned(cfg, r) {
      CertifiedRoundWasEntered(cfg, s, cert.vote);
    }
  }

  lemma ProposeKeepsRounds(cfg: Config, votes: set<Signature>, n: Node, step: Step)
    requires ManagerInvariant(cfg, n.manager) && RoundsInvariant(cfg, votes, n) && n.manager.currentRound in n.entered
    requires step.Propose? && NodeEnabled(cfg, votes, n.manager, step) && cfg.ownership.superOwners == map[]
    ensures RoundsInvariant(cfg, votes, StepNode(cfg, n, step))
  {
    var Propose(v, p, executed, time) := step;
    AcceptedProposalIsSafe(n.manager, p);
    SafeProposalTakesEffect(n.manager, p, executed, Some(v), time);
    if p.content.round != n.manager.currentRound && MustBeEarned(cfg, p.content.round) {
      ProposedRoundIsEarned(cfg, votes, n.manager, step);
    }
    var (m', vote) := n.manager.CreateVote(p, executed, Some(v), time);
    RoundsGrow(cfg, votes, n, m', vote, ByProposal(p), time);
  }

  lemma FinalizeKeepsRounds(cfg: Config, s: System, n: Node, step: Step)
    requires Invariant(cfg, s) && SystemRounds(cfg, s) && cfg.committee.MostlyHonest(cfg.honest)
    requires ManagerInvariant(cfg, n.manager) && RoundsInvariant(cfg, s.votes, n) && n.manager.currentRound in n.entered
    requires step.Finalize? && NodeEnabled(cfg, s.votes, n.manager, step)
    ensures RoundsInvariant(cfg, s.votes, StepNode(cfg, n, step))
  {
    var Finalize(v, cert, time) := step;
    var (m', vote) := n.manager.CreateFinalVote(cert, Some(v), time);
    if vote.Some? {
      CertificateTakesEffect(n.manager, cert, Some(v), time);
      if MustBeEarned(cfg, cert.vote.round) {
        CertificatesAreCertified(cfg, s.votes, cert);
        CertifiedRoundWasEntered(cfg, s, cert.vote);
      }
    }
    RoundsGrow(cfg, s.votes, n, m', vote, ByCertificate(cert), time);
  }

  lemma RequestsKeepRounds(cfg: Config, votes: set<Signature>, n: Node, step: Step)
    requires RoundsInvariant(cfg, votes, n) && n.manager.currentRound in n.entered
    requires step.RequestTimeout? || step.RequestFallback?
    ensures RoundsInvariant(cfg, votes, StepNode(cfg, n, step))
  {
    match step
    case RequestTimeout(v, time) =>
      var (m', vote) := n.manager.VoteTimeout(cfg.timeoutValue, Some(v), time);
      RoundsGrow(cfg, votes, n, m', vote, ByLeaderTimeout(time), time);
    case RequestFallback(v, time) =>
      var (m', vote) := n.manager.VoteFallback(cfg.timeoutValue, Some(v));
      RoundsGrow(cfg, votes, n, m', vote, ByFallback(time), time);
  }

  lemma StepKeepsRounds(cfg: Config, s: System, step: Step)
    requires Invariant(cfg, s) && SystemRounds(cfg, s) && cfg.committee.MostlyHonest(cfg.honest)
    requires cfg.ownership.superOwners == map[] && Enabled(cfg, s, step) && !step.Forge?
    ensures RoundsInvariant(cfg, s.votes, StepNode(cfg, s.nodes[step.v], step))
  {
    var n := s.nodes[step.v];
    assert NodeInvariant(cfg, s.votes, step.v, n) && RoundsInvariant(cfg, s.votes, n);
    match step
    case Propose(_, _, _, _) => ProposeKeepsRounds(cfg, s.votes, n, step);
    case Finalize(_, _, _) => FinalizeKeepsRounds(cfg, s, n, step);
    case ReceiveTimeout(v, cert, time) =>
      ReceivedTimeoutEarns(cfg, s, n.manager, step);
      RoundsGrow(cfg, s.votes, n, n.manager.HandleTimeoutCertificate(cert, time), None, ByFallback(time), time);
    case _ => RequestsKeepRounds(cfg, s.votes, n, step);
  }

  lemma MovingKeepsRounds(cfg: Config, s: System, v: ValidatorName, n: Node, votes: set<Signature>)
    requires SystemRounds(cfg, s) && s.votes <= votes && RoundsInvariant(cfg, s.votes, n)
    ensures SystemRounds(cfg, System(s.nodes[v := n], votes))
  {
    var s' := System(s.nodes[v := n], votes);
    forall w | w in s'.nodes ensures RoundsInvariant(cfg, votes, s'.nodes[w]) {
      if w != v {
        assert RoundsInvariant(cfg, s.votes, s.nodes[w]);
      }
      RoundsStay(cfg, s.votes, votes, s'.nodes[w]);
    }
  }

  lemma ForgingKeepsRounds(cfg: Config, s: System, vote: Signature)
    requires SystemRounds(cfg, s)
    ensures SystemRounds(cfg, s.(votes := s.votes + {vote}))
  {
    forall w | w in s.nodes ensures RoundsInvariant(cfg, s.votes + {vote}, s.nodes[w]) {
      RoundsStay(cfg, s.votes, s.votes + {vote}, s.nodes[w]);
    }
  }

  lemma ApplyKeepsRounds(cfg: Config, s: System, step: Step)
    requires Invariant(cfg, s) && SystemRounds(cfg, s) && cfg.committee.MostlyHonest(cfg.honest)
    requires cfg.ownership.superOwners == map[] && Enabled(cfg, s, step)
    ensures SystemRounds(cfg, Apply(cfg, s, step))
  {
    if step.Forge? {
      ForgingKeepsRounds(cfg, s, step.vote);
    } else {
      StepKeepsRounds(cfg, s, step);
      MovingKeepsRounds(cfg, s, step.v, StepNode(cfg, s.nodes[step.v], step), Apply(cfg, s, step).votes);
    }
  }

  lemma NextKeepsRounds(cfg: Config, s: System, s': System)
    requires Invariant(cfg, s) && SystemRounds(cfg, s) && cfg.committee.MostlyHonest(cfg.honest)
    requires cfg.ownership.superOwners == map[] && Next(cfg, s, s')
    ensures SystemRounds(cfg, s')
  {
    var step :| Enabled(cfg, s, step) && s' == Apply(cfg, s, step);
    ApplyKeepsRounds(cfg, s, step);
  }

  lemma RunStepKeepsRounds(cfg: Config, run: seq<System>, k: nat)
    requires IsRun(cfg, run) && k + 1 < |run| && cfg.ownership.superOwners == map[] && SystemRounds(cfg, run[k])
    ensures SystemRounds(cfg, run[k + 1])
  {
    assert StepsAt(cfg, run, k);
    RunKeepsInvariant(cfg, run, k);
    NextKeepsRounds(cfg, run[k], run[k + 1]);
  }

  lemma {:induction false} RunKeepsRounds(cfg: Config, run: seq<System>, k: nat)
    requires IsRun(cfg, run) && k < |run| && cfg.ownership.superOwners == map[]
    ensures SystemRounds(cfg, run[k])
  {
    if k == 0 {
      StartHasRounds(cfg, run[0]);
    } else {
      RunKeepsRounds(cfg, run, k - 1);
      RunStepKeepsRounds(cfg, run, k - 1);
    }
  }

  lemma StartHasRounds(cfg: Config, s: System)
    requires Init(cfg, s)
    ensures SystemRounds(cfg, s)
  {}

  /**
   * On a chain without super owners, no honest validator is ever in a leader round after the first
   * one unless a quorum has timed out, or validated a block in, the round just before it.
   */
  lemma LeaderRoundsAreEarned(cfg: Config, run: seq<System>, k: nat, v: ValidatorName)
    requires IsRun(cfg, run) && k < |run| && v in cfg.honest && cfg.ownership.superOwners == map[]
    ensures v in run[k].nodes
    ensures var r := run[k].nodes[v].manager.currentRound;
            MustBeEarned(cfg, r) ==> Earned(cfg, run[k].votes, r)
  {
    RunKeepsInvariant(cfg, run, k);
    RunKeepsRounds(cfg, run, k);
    assert NodeInvariant(cfg, run[k].votes, v, run[k].nodes[v]);
    assert RoundsInvariant(cfg, run[k].votes, run[k].nodes[v]);
  }
}
