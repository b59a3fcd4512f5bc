/**
 * The consensus protocol for one block height: any number of validators running chain managers,
 * an adversary that casts arbitrary votes for everyone else, and all votes ever cast.
 */
module Consensus {
  import opened Basics
  import opened Rounds
  import opened Committees
  import opened Certificates
  import opened ChainManagers

  /**
   * The validators and the chain. Some honest validators have seen an unskippable bundle; `waiting`
   * says when the oldest one arrived, which no step at this height changes, because only a confirmed
   * block takes bundles from the queue.
   */
  datatype Config = Config(
    committee: Committee,
    honest: set<ValidatorName>,
    ownership: ChainOwnership,
    leaders: map<Round, Owner>,
    timeoutValue: CertifiedValue,
    waiting: map<ValidatorName, Timestamp>)

  /** Why an honest validator cast a vote. */
  datatype Reason =
    | ByProposal(proposal: BlockProposal)
    | ByCertificate(certificate: Certificate)
    | ByLeaderTimeout(time: Timestamp)
    | ByFallback(time: Timestamp)

  datatype Cast = Cast(vote: Signature, reason: Reason) {
    function Round(): Rounds.Round {
      vote.statement.round
    }
  }

  /** An honest validator, with the votes it cast so far and when its rounds became current. */
  datatype Node = Node(manager: Manager, casts: seq<Cast>, entered: map<Round, Timestamp>)

  datatype System = System(nodes: map<ValidatorName, Node>, votes: set<Signature>)

  datatype Step =
    | Propose(v: ValidatorName, proposal: BlockProposal, executed: ExecutedBlock, time: Timestamp)
    | Finalize(v: ValidatorName, certificate: Certificate, time: Timestamp)
    | ReceiveTimeout(v: ValidatorName, certificate: Certificate, time: Timestamp)
    | RequestTimeout(v: ValidatorName, time: Timestamp)
    | RequestFallback(v: ValidatorName, time: Timestamp)
    | Forge(vote: Signature)

  /** Signatures cannot be forged: those in a message were made before. */
  predicate Received(cfg: Config, votes: set<Signature>, cert: Certificate) {
    Certifies(cfg.committee, cert) && forall s | s in cert.signatures :: s.1 in votes
  }

  /** The oldest unskippable bundle that the validator has seen has waited for long enough to fall back. */
  predicate HasWaited(cfg: Config, v: ValidatorName, time: Timestamp) {
    && v in cfg.waiting
    && SaturatingSub(time, cfg.waiting[v]) >= cfg.ownership.timeoutConfig.fallbackDuration
  }

  /** The checks that the caller of the manager makes before it lets the step happen. */
  predicate NodeEnabled(cfg: Config, votes: set<Signature>, m: Manager, step: Step) {
    match step
    case Propose(v, p, executed, _) =>
      && m.VerifyOwner(p)
      && executed.block == p.content.block
      && m.CheckProposedBlock(p) == Ok(Accept)
      && p.validatedBlockCertificate.Some? == p.content.outcome.Some?
      && (p.validatedBlockCertificate.Some? ==>
            var cert := p.validatedBlockCertificate.value;
            && Received(cfg, votes, cert)
            && cert.vote == VoteValue(Executed(executed), cert.vote.round, ValidatedBlocks)
            && p.content.outcome.value == executed.outcome)
    case Finalize(v, cert, _) =>
      && Received(cfg, votes, cert)
      && cert.vote.value.Executed? && cert.vote.kind == ValidatedBlocks
      && m.CheckValidatedBlock(cert) == Ok(Accept)
    case ReceiveTimeout(v, cert, _) =>
      Received(cfg, votes, cert) && cert.vote.value == cfg.timeoutValue && cert.vote.kind == Timeouts
    case RequestTimeout(_, _) => true
    case RequestFallback(v, time) => HasWaited(cfg, v, time)
    case Forge(_) => true
  }

  predicate Enabled(cfg: Config, s: System, step: Step) {
    if step.Forge? then step.vote.signer !in cfg.honest
    else step.v in s.nodes && NodeEnabled(cfg, s.votes, s.nodes[step.v].manager, step)
  }

  /** The node after a step of its manager that produced `vote`. */
  function Advance(n: Node, m: Manager, vote: Option<Signature>, reason: Reason, time: Timestamp): Node {
    Node(m,
         if vote.Some? then n.casts + [Cast(vote.value, reason)] else n.casts,
         if m.currentRound != n.manager.currentRound then n.entered[m.currentRound := time] else n.entered)
  }

  function StepNode(cfg: Config, n: Node, step: Step): Node
    requires !step.Forge?
  {
    match step
    case Propose(v, p, executed, time) =>
      var (m, vote) := n.manager.CreateVote(p, executed, Some(v), time);
      Advance(n, m, vote, ByProposal(p), time)
    case Finalize(v, cert, time) =>
      var (m, vote) := n.manager.CreateFinalVote(cert, Some(v), time);
      Advance(n, m, vote, ByCertificate(cert), time)
    case ReceiveTimeout(v, cert, time) =>
      Advance(n, n.manager.HandleTimeoutCertificate(cert, time), None, ByFallback(time), time)
    case RequestTimeout(v, time) =>
      var (m, vote) := n.manager.VoteTimeout(cfg.timeoutValue, Some(v), time);
      Advance(n, m, vote, ByLeaderTimeout(time), time)
    case RequestFallback(v, time) =>
      var (m, vote) := n.manager.VoteFallback(cfg.timeoutValue, Some(v));
      Advance(n, m, vote, ByFallback(time), time)
  }

  function Apply(cfg: Config, s: System, step: Step): System
    requires Enabled(cfg, s, step)
  {
    if step.Forge? then s.(votes := s.votes + {step.vote})
    else
      var n := StepNode(cfg, s.nodes[step.v], step);
      System(s.nodes[step.v := n], s.votes + set c | c in n.casts :: c.vote)
  }

  predicate Init(cfg: Config, s: System) {
    && s.votes == {}
    && s.nodes.Keys == cfg.honest
    && forall v | v in s.nodes :: exists time: Timestamp ::
         s.nodes[v] == Node(NewManager(cfg.ownership, cfg.leaders, time), [], map[cfg.ownership.FirstRound() := time])
  }

  ghost predicate Next(cfg: Config, s: System, s': System) {
    exists step :: Enabled(cfg, s, step) && s' == Apply(cfg, s, step)
  }

  ghost predicate IsRun(cfg: Config, run: seq<System>) {
    && cfg.committee.MostlyHonest(cfg.honest)
    && |run| > 0
    && Init(cfg, run[0])
    && forall i | 0 <= i < |run| - 1 :: StepsAt(cfg, run, i)
  }

  ghost predicate StepsAt(cfg: Config, run: seq<System>, i: nat)
    requires i + 1 < |run|
  {
    Next(cfg, run[i], run[i + 1])
  }

  // ----- What every step of an honest validator keeps -----

  function Voters(votes: set<Signature>, statement: VoteValue): set<ValidatorName> {
    set x | x in votes && x.statement == statement :: x.signer
  }

  /** A quorum has voted for the statement, so that a certificate for it can exist. */
  predicate Certified(cfg: Config, votes: set<Signature>, statement: VoteValue) {
    cfg.committee.IsQuorum(Voters(votes, statement))
  }

  /** The current round is exactly the highest one started so far. */
  predicate ManagerInvariant(cfg: Config, m: Manager) {
    m.ownership == cfg.ownership && m.IsSettled()
  }

  /** The manager remembers enough about a vote that was cast. */
  predicate Remembered(m: Manager, c: Cast) {
    match c.reason
    case ByProposal(_) => m.proposed.Some? && Rank(c.Round()) <= Rank(m.proposed.value.content.round)
    case ByCertificate(_) => m.locked.Some? && Rank(c.Round()) <= Rank(m.locked.value.vote.round)
    case ByLeaderTimeout(_) => m.timeoutVote.Some? && Rank(c.Round()) <= Rank(m.timeoutVote.value.statement.round)
    case ByFallback(_) => true
  }

  /** What a vote says, and what was known when it was cast. */
  predicate Justified(cfg: Config, votes: set<Signature>, v: ValidatorName, c: Cast) {
    && c.vote.signer == v
    && c.vote in votes
    && (!c.reason.ByFallback? ==> Rank(cfg.ownership.FirstRound()) <= Rank(c.Round()))
    && var VoteValue(value, round, kind) := c.vote.statement;
       match c.reason
       case ByProposal(p) =>
         && value.Executed? && value.executed.block == p.content.block && round == p.content.round
         && kind == (if round.Fast? then ConfirmedBlocks else ValidatedBlocks)
         && (p.validatedBlockCertificate.Some? ==>
               var q := p.validatedBlockCertificate.value.vote.round;
               Rank(q) < Rank(round) && Certified(cfg, votes, VoteValue(value, q, ValidatedBlocks)))
       case ByCertificate(_) =>
         && value.Executed? && kind == ConfirmedBlocks
         && c.reason.certificate.vote == VoteValue(value, round, ValidatedBlocks)
         && Certified(cfg, votes, VoteValue(value, round, ValidatedBlocks))
       case ByLeaderTimeout(_) => kind == Timeouts && value == cfg.timeoutValue
       case ByFallback(_) => kind == Timeouts && value == cfg.timeoutValue && round == SingleLeader(U32_MAX)
  }

  /** How a vote relates to a later one of the same validator. */
  predicate Precedes(a: Cast, b: Cast) {
    && (!a.reason.ByFallback? && !b.reason.ByFallback? ==> Rank(a.Round()) <= Rank(b.Round()))
    && ( || (a.reason.ByProposal? && b.reason.ByProposal?)
         || (a.reason.ByCertificate? && b.reason.ByCertificate?)
         || (a.reason.ByLeaderTimeout? && b.reason.ByLeaderTimeout?)
         ==> Rank(a.Round()) < Rank(b.Round()))
    && (a.reason.ByCertificate? && b.reason.ByProposal? ==>
          var cert := b.reason.proposal.validatedBlockCertificate;
          cert.Some? && Rank(a.Round()) <= Rank(cert.value.vote.round))
  }

  predicate CastsInvariant(cfg: Config, votes: set<Signature>, v: ValidatorName, m: Manager, casts: seq<Cast>) {
    && (forall c | c in casts :: Remembered(m, c) && Justified(cfg, votes, v, c))
    && (forall i, j | 0 <= i < j < |casts| :: Precedes(casts[i], casts[j]))
  }

  /** Timeouts are only signed when the round was current, or a bundle waited, for as long as configured. */
  predicate TimerInvariant(cfg: Config, n: Node) {
    && n.manager.currentRound in n.entered
    && n.manager.roundTimeout == Deadline(cfg.ownership, n.manager.currentRound, n.entered[n.manager.currentRound])
    && (forall r | r in n.entered :: Rank(r) <= Rank(n.manager.currentRound))
    && (forall c | c in n.casts :: Timely(cfg, n.entered, c))
  }

  predicate Timely(cfg: Config, entered: map<Round, Timestamp>, c: Cast) {
    && (c.reason.ByLeaderTimeout? ==>
          && c.Round() in entered
          && var deadline := Deadline(cfg.ownership, c.Round(), entered[c.Round()]);
             deadline.Some? && deadline.value <= c.reason.time)
    && (c.reason.ByFallback? ==> HasWaited(cfg, c.vote.signer, c.reason.time))
  }

  predicate NodeInvariant(cfg: Config, votes: set<Signature>, v: ValidatorName, n: Node) {
    && ManagerInvariant(cfg, n.manager)
    && CastsInvariant(cfg, votes, v, n.manager, n.casts)
    && TimerInvariant(cfg, n)
  }

  /** Votes of honest validators exist only because they cast them. */
  predicate Unforged(s: System) {
    forall x | x in s.votes && x.signer in s.nodes :: exists c :: c in s.nodes[x.signer].casts && c.vote == x
  }

  predicate Invariant(cfg: Config, s: System) {
    && s.nodes.Keys == cfg.honest
    && (forall v | v in s.nodes :: NodeInvariant(cfg, s.votes, v, s.nodes[v]))
    && Unforged(s)
  }

  lemma CertificatesAreCertified(cfg: Config, votes: set<Signature>, cert: Certificate)
    requires Received(cfg, votes, cert)
    ensures Certified(cfg, votes, cert.vote)
  {
    forall v | v in Signers(cert.signatures) ensures v in Voters(votes, cert.vote) {
      var s :| s in cert.signatures && s.0 == v;
      assert s.1 in votes && s.1.statement == cert.vote && s.1.signer == v;
    }
    VotesAreMonotone(cfg.committee, Signers(cert.signatures), Voters(votes, cert.vote));
  }

  lemma CertifiedStays(cfg: Config, votes: set<Signature>, votes': set<Signature>, statement: VoteValue)
    requires votes <= votes'
    requires Certified(cfg, votes, statement)
    ensures Certified(cfg, votes', statement)
  {
    VotesAreMonotone(cfg.committee, Voters(votes, statement), Voters(votes', statement));
  }

  lemma JustifiedStays(cfg: Config, votes: set<Signature>, votes': set<Signature>, v: ValidatorName, c: Cast)
    requires votes <= votes'
    requires Justified(cfg, votes, v, c)
    ensures Justified(cfg, votes', v, c)
  {
    var VoteValue(value, round, kind) := c.vote.statement;
    match c.reason
    case ByProposal(p) =>
      if p.validatedBlockCertificate.Some? {
        CertifiedStays(cfg, votes, votes', VoteValue(value, p.validatedBlockCertificate.value.vote.round,
            ValidatedBlocks));
      }
    case ByCertificate(_) =>
      CertifiedStays(cfg, votes, votes', VoteValue(value, round, ValidatedBlocks));
    case _ =>
  }

  lemma ProposalStep(cfg: Config, m: Manager, p: BlockProposal, executed: ExecutedBlock, key: KeyPair, time: Timestamp)
    requires ManagerInvariant(cfg, m) && SafeProposal(m, p)
    ensures var m' := m.CreateVote(p, executed, key, time).0;
            Grows(m, m') && ManagerInvariant(cfg, m') && m'.proposed == Some(p)
  {
    SafeProposalTakesEffect(m, p, executed, key, time);
  }

  lemma FinalStep(cfg: Config, m: Manager, cert: Certificate, key: KeyPair, time: Timestamp)
    requires ManagerInvariant(cfg, m)
    requires m.locked.Some? ==> Rank(m.locked.value.vote.round) < Rank(cert.vote.round)
    requires key.Some? ==> Rank(m.currentRound) <= Rank(cert.vote.round)
    ensures var m' := m.CreateFinalVote(cert, key, time).0;
            Grows(m, m') && ManagerInvariant(cfg, m') && m'.locked == Some(cert)
  {
    NewLockTakesEffect(m, cert, key, time);
  }

  lemma TimeoutStep(cfg: Config, m: Manager, cert: Certificate, time: Timestamp)
    requires ManagerInvariant(cfg, m)
    ensures var m' := m.HandleTimeoutCertificate(cert, time);
            Grows(m, m') && ManagerInvariant(cfg, m')
  {
    TimeoutTakesEffect(m, cert, time);
  }

  /** Extends the record of a validator by at most one vote, while more votes appear elsewhere. */
  lemma CastsGrow(cfg: Config, votes: set<Signature>, votes': set<Signature>, v: ValidatorName,
                  m: Manager, m': Manager, casts: seq<Cast>, more: seq<Cast>)
    requires CastsInvariant(cfg, votes, v, m, casts)
    requires votes <= votes' && Grows(m, m') && |more| <= 1
    requires forall c | c in more :: Remembered(m', c) && Justified(cfg, votes', v, c)
    requires forall a, c | a in casts && c in more :: Precedes(a, c)
    ensures CastsInvariant(cfg, votes', v, m', casts + more)
  {
    forall c | c in casts ensures Remembered(m', c) && Justified(cfg, votes', v, c) {
      JustifiedStays(cfg, votes, votes', v, c);
    }
  }

  /** The timer is only restarted, at the local time, when a higher round becomes current. */
  predicate TimerStep(m: Manager, m': Manager, time: Timestamp) {
    m'.roundTimeout ==
    if m'.currentRound == m.currentRound then m.roundTimeout else Deadline(m.ownership, m'.currentRound, time)
  }

  lemma TimersGrow(cfg: Config, n: Node, m': Manager, vote: Option<Signature>, reason: Reason, time: Timestamp)
    requires n.manager.ownership == cfg.ownership
    requires TimerInvariant(cfg, n) && Grows(n.manager, m') && TimerStep(n.manager, m', time)
    requires vote.Some? ==> Timely(cfg, n.entered, Cast(vote.value, reason))
    ensures TimerInvariant(cfg, Advance(n, m', vote, reason, time))
  {
    var n' := Advance(n, m', vote, reason, time);
    forall c | c in n'.casts ensures Timely(cfg, n'.entered, c) {
      assert c in n.casts || (vote.Some? && c == Cast(vote.value, reason));
      assert Timely(cfg, n.entered, c);
      RankEmbedsTheDerivedOrder(m'.currentRound, n.manager.currentRound);
    }
  }

  /** A step of a manager that keeps its invariants and casts at most one, justified vote. */
  lemma AdvanceKeepsInvariant(cfg: Config, votes: set<Signature>, votes': set<Signature>, v: ValidatorName,
                              n: Node, m': Manager, vote: Option<Signature>, reason: Reason, time: Timestamp)
    requires NodeInvariant(cfg, votes, v, n) && votes <= votes'
    requires Grows(n.manager, m') && ManagerInvariant(cfg, m') && TimerStep(n.manager, m', time)
    requires vote.Some? ==>
      var c := Cast(vote.value, reason);
      && Remembered(m', c) && Justified(cfg, votes', v, c) && Timely(cfg, n.entered, c)
      && forall a | a in n.casts :: Precedes(a, c)
    ensures NodeInvariant(cfg, votes', v, Advance(n, m', vote, reason, time))
  {
    var more := if vote.Some? then [Cast(vote.value, reason)] else [];
    CastsGrow(cfg, votes, votes', v, n.manager, m', n.casts, more);
    assert n.casts + [] == n.casts;
    TimersGrow(cfg, n, m', vote, reason, time);
  }

  lemma ProposeKeepsInvariant(cfg: Config, votes: set<Signature>, votes': set<Signature>, n: Node, step: Step)
    requires step.Propose? && NodeInvariant(cfg, votes, step.v, n)
    requires NodeEnabled(cfg, votes, n.manager, step)
    requires votes <= votes' && forall c | c in StepNode(cfg, n, step).casts :: c.vote in votes'
    ensures NodeInvariant(cfg, votes', step.v, StepNode(cfg, n, step))
  {
    var Propose(v, p, executed, time) := step;
    var (m', vote) := n.manager.CreateVote(p, executed, Some(v), time);
    AcceptedProposalIsSafe(n.manager, p);
    ProposalStep(cfg, n.manager, p, executed, Some(v), time);
    var c := Cast(vote.value, ByProposal(p));
    assert c in StepNode(cfg, n, step).casts;
    if p.validatedBlockCertificate.Some? {
      var cert := p.validatedBlockCertificate.value;
      CertificatesAreCertified(cfg, votes, cert);
      CertifiedStays(cfg, votes, votes', cert.vote);
    }
    assert Justified(cfg, votes', v, c);
    forall a | a in n.casts ensures Precedes(a, c) {
      assert Remembered(n.manager, a);
    }
    AdvanceKeepsInvariant(cfg, votes, votes', v, n, m', vote, ByProposal(p), time);
  }

  lemma FinalizeKeepsInvariant(cfg: Config, votes: set<Signature>, votes': set<Signature>, n: Node, step: Step)
    requires step.Finalize? && NodeInvariant(cfg, votes, step.v, n)
    requires NodeEnabled(cfg, votes, n.manager, step)
    requires votes <= votes' && forall c | c in StepNode(cfg, n, step).casts :: c.vote in votes'
    ensures NodeInvariant(cfg, votes', step.v, StepNode(cfg, n, step))
  {
    var Finalize(v, cert, time) := step;
    var (m', vote) := n.manager.CreateFinalVote(cert, Some(v), time);
    if vote.Some? {
      AcceptedCertificateIsNew(n.manager, cert);
      FinalStep(cfg, n.manager, cert, Some(v), time);
      var c := Cast(vote.value, ByCertificate(cert));
      assert c in StepNode(cfg, n, step).casts;
      CertificatesAreCertified(cfg, votes, cert);
      CertifiedStays(cfg, votes, votes', cert.vote);
      assert Justified(cfg, votes', v, c);
      forall a | a in n.casts ensures Precedes(a, c) {
        assert Remembered(n.manager, a);
      }
    }
    AdvanceKeepsInvariant(cfg, votes, votes', v, n, m', vote, ByCertificate(cert), time);
  }

  lemma TimeoutVoteStep(cfg: Config, m: Manager, v: ValidatorName, time: Timestamp)
    requires ManagerInvariant(cfg, m)
    ensures var m' := m.VoteTimeout(cfg.timeoutValue, Some(v), time).0;
            Grows(m, m') && ManagerInvariant(cfg, m') && TimerStep(m, m', time)
  {
    TimeoutVoteSettles(m, cfg.timeoutValue, Some(v), time);
  }

  lemma RequestTimeoutKeepsInvariant(cfg: Config, votes: set<Signature>, votes': set<Signature>, n: Node, step: Step)
    requires step.RequestTimeout? && NodeInvariant(cfg, votes, step.v, n)
    requires votes <= votes' && forall c | c in StepNode(cfg, n, step).casts :: c.vote in votes'
    ensures NodeInvariant(cfg, votes', step.v, StepNode(cfg, n, step))
  {
    var RequestTimeout(v, time) := step;
    var (m', vote) := n.manager.VoteTimeout(cfg.timeoutValue, Some(v), time);
    TimeoutVoteStep(cfg, n.manager, v, time);
    if vote.Some? {
      var c := Cast(vote.value, ByLeaderTimeout(time));
      assert c in StepNode(cfg, n, step).casts;
      if n.manager.timeoutVote.Some? {
        RankEmbedsTheDerivedOrder(n.manager.timeoutVote.value.statement.round, n.manager.currentRound);
      }
      forall a | a in n.casts ensures Precedes(a, c) {
        assert Remembered(n.manager, a);
      }
    }
    AdvanceKeepsInvariant(cfg, votes, votes', v, n, m', vote, ByLeaderTimeout(time), time);
  }

  lemma RequestFallbackKeepsInvariant(cfg: Config, votes: set<Signature>, votes': set<Signature>, n: Node, step: Step)
    requires step.RequestFallback? && NodeInvariant(cfg, votes, step.v, n)
    requires NodeEnabled(cfg, votes, n.manager, step)
    requires votes <= votes' && forall c | c in StepNode(cfg, n, step).casts :: c.vote in votes'
    ensures NodeInvariant(cfg, votes', step.v, StepNode(cfg, n, step))
  {
    var (m', vote) := n.manager.VoteFallback(cfg.timeoutValue, Some(step.v));
    if vote.Some? {
      assert Cast(vote.value, ByFallback(step.time)) in StepNode(cfg, n, step).casts;
    }
    AdvanceKeepsInvariant(cfg, votes, votes', step.v, n, m', vote, ByFallback(step.time), step.time);
  }

  lemma ReceiveTimeoutKeepsInvariant(cfg: Config, votes: set<Signature>, votes': set<Signature>, n: Node, step: Step)
    requires step.ReceiveTimeout? && NodeInvariant(cfg, votes, step.v, n)
    requires votes <= votes'
    ensures NodeInvariant(cfg, votes', step.v, StepNode(cfg, n, step))
  {
    var ReceiveTimeout(v, cert, time) := step;
    TimeoutStep(cfg, n.manager, cert, time);
    var m' := n.manager.HandleTimeoutCertificate(cert, time);
    AdvanceKeepsInvariant(cfg, votes, votes', v, n, m', None, ByFallback(time), time);
  }

  lemma NodeStepKeepsInvariant(cfg: Config, votes: set<Signature>, votes': set<Signature>, n: Node, step: Step)
    requires !step.Forge? && NodeInvariant(cfg, votes, step.v, n)
    requires NodeEnabled(cfg, votes, n.manager, step)
    requires votes <= votes' && forall c | c in StepNode(cfg, n, step).casts :: c.vote in votes'
    ensures NodeInvariant(cfg, votes', step.v, StepNode(cfg, n, step))
  {
    match step {
      case Propose(_, _, _, _) => ProposeKeepsInvariant(cfg, votes, votes', n, step);
      case Finalize(_, _, _) => FinalizeKeepsInvariant(cfg, votes, votes', n, step);
      case ReceiveTimeout(_, _, _) => ReceiveTimeoutKeepsInvariant(cfg, votes, votes', n, step);
      case RequestTimeout(_, _) => RequestTimeoutKeepsInvariant(cfg, votes, votes', n, step);
      case RequestFallback(_, _) => RequestFallbackKeepsInvariant(cfg, votes, votes', n, step);
    }
  }

  lemma OthersKeepInvariant(cfg: Config, votes: set<Signature>, votes': set<Signature>, v: ValidatorName, n: Node)
    requires NodeInvariant(cfg, votes, v, n) && votes <= votes'
    ensures NodeInvariant(cfg, votes', v, n)
  {
    CastsGrow(cfg, votes, votes', v, n.manager, n.manager, n.casts, []);
    assert n.casts + [] == n.casts;
  }

  lemma InitHasInvariant(cfg: Config, s: System)
    requires Init(cfg, s)
    ensures Invariant(cfg, s)
  {}

  lemma StepKeepsInvariant(cfg: Config, s: System, step: Step)
    requires Invariant(cfg, s) && Enabled(cfg, s, step)
    ensures Invariant(cfg, Apply(cfg, s, step))
  {
    var s' := Apply(cfg, s, step);
    if step.Forge? {
      ForgingKeepsInvariant(cfg, s, step.vote);
    } else {
      var n := s.nodes[step.v];
      assert NodeInvariant(cfg, s.votes, step.v, n);
      NodeStepKeepsInvariant(cfg, s.votes, s'.votes, n, step);
      CastsAreKept(cfg, n, step);
      MovingKeepsInvariant(cfg, s, step.v, StepNode(cfg, n, step), s'.votes);
    }
  }

  lemma ForgingKeepsInvariant(cfg: Config, s: System, vote: Signature)
    requires Invariant(cfg, s) && vote.signer !in cfg.honest
    ensures Invariant(cfg, s.(votes := s.votes + {vote}))
  {
    forall v | v in s.nodes ensures NodeInvariant(cfg, s.votes + {vote}, v, s.nodes[v]) {
      OthersKeepInvariant(cfg, s.votes, s.votes + {vote}, v, s.nodes[v]);
    }
  }

  lemma MovingKeepsInvariant(cfg: Config, s: System, v: ValidatorName, n: Node, votes: set<Signature>)
    requires Invariant(cfg, s) && v in s.nodes && s.nodes[v].casts <= n.casts
    requires votes == s.votes + set c | c in n.casts :: c.vote
    requires NodeInvariant(cfg, votes, v, n)
    ensures Invariant(cfg, System(s.nodes[v := n], votes))
  {
    var s' := System(s.nodes[v := n], votes);
    AllOthersKeepInvariant(cfg, s, votes);
    MovedNodes(cfg, s.nodes, v, n, s'.nodes, votes);
    MovedVotes(cfg, s, v, n, votes);
    InvariantOfParts(cfg, s');
  }

  predicate NodesInvariant(cfg: Config, votes: set<Signature>, nodes: map<ValidatorName, Node>) {
    forall v | v in nodes :: NodeInvariant(cfg, votes, v, nodes[v])
  }

  lemma InvariantOfParts(cfg: Config, s: System)
    requires s.nodes.Keys == cfg.honest && NodesInvariant(cfg, s.votes, s.nodes) && Unforged(s)
    ensures Invariant(cfg, s)
  {}

  lemma MovedNodes(cfg: Config, nodes: map<ValidatorName, Node>, v: ValidatorName, n: Node,
                   nodes': map<ValidatorName, Node>, votes: set<Signature>)
    requires NodesInvariant(cfg, votes, nodes) && NodeInvariant(cfg, votes, v, n) && nodes' == nodes[v := n]
    ensures NodesInvariant(cfg, votes, nodes')
  {
    forall w | w in nodes' ensures NodeInvariant(cfg, votes, w, nodes'[w]) {
      assert w != v ==> nodes'[w] == nodes[w];
    }
  }

  lemma MovedVotes(cfg: Config, s: System, v: ValidatorName, n: Node, votes: set<Signature>)
    requires Unforged(s) && v in s.nodes && s.nodes[v].casts <= n.casts
    requires votes == (s.votes + set c | c in n.casts :: c.vote) && NodeInvariant(cfg, votes, v, n)
    ensures Unforged(System(s.nodes[v := n], votes))
  {
    SignersAreOwn(cfg, votes, v, n);
    OwnVotesAreUnforged(s, v, n);
  }

  lemma AllOthersKeepInvariant(cfg: Config, s: System, votes: set<Signature>)
    requires Invariant(cfg, s) && s.votes <= votes
    ensures NodesInvariant(cfg, votes, s.nodes)
  {
    forall w | w in s.nodes ensures NodeInvariant(cfg, votes, w, s.nodes[w]) {
      OthersKeepInvariant(cfg, s.votes, votes, w, s.nodes[w]);
    }
  }

  lemma OwnVotesAreUnforged(s: System, v: ValidatorName, n: Node)
    requires Unforged(s) && v in s.nodes && s.nodes[v].casts <= n.casts
    requires forall c | c in n.casts :: c.vote.signer == v
    ensures Unforged(System(s.nodes[v := n], s.votes + set c | c in n.casts :: c.vote))
  {
    var s' := System(s.nodes[v := n], s.votes + set c | c in n.casts :: c.vote);
    forall x | x in s'.votes && x.signer in s'.nodes
      ensures exists c :: c in s'.nodes[x.signer].casts && c.vote == x
    {
      if x in s.votes {
        var c :| c in s.nodes[x.signer].casts && c.vote == x;
        assert c in s'.nodes[x.signer].casts;
      }
    }
  }

  lemma SignersAreOwn(cfg: Config, votes: set<Signature>, v: ValidatorName, n: Node)
    requires NodeInvariant(cfg, votes, v, n)
    ensures forall c | c in n.casts :: c.vote.signer == v
  {
    forall c | c in n.casts ensures c.vote.signer == v {
      assert Justified(cfg, votes, v, c);
    }
  }

  lemma NodeOf(cfg: Config, s: System, v: ValidatorName)
    requires Invariant(cfg, s) && v in cfg.honest
    ensures v in s.nodes && NodeInvariant(cfg, s.votes, v, s.nodes[v])
  {}

  lemma CastsAreKept(cfg: Config, n: Node, step: Step)
    requires !step.Forge?
    ensures n.casts <= StepNode(cfg, n, step).casts
  {}

  lemma {:induction false} RunKeepsInvariant(cfg: Config, run: seq<System>, k: nat)
    requires IsRun(cfg, run) && k < |run|
    ensures Invariant(cfg, run[k])
  {
    if k == 0 {
      InitHasInvariant(cfg, run[0]);
    } else {
      RunKeepsInvariant(cfg, run, k - 1);
      assert StepsAt(cfg, run, k - 1);
      var step :| Enabled(cfg, run[k - 1], step) && run[k] == Apply(cfg, run[k - 1], step);
      StepKeepsInvariant(cfg, run[k - 1], step);
    }
  }

  /** A step of a run, without the rest of it. */
  lemma StepOfRun(cfg: Config, run: seq<System>, k: nat)
    requires IsRun(cfg, run) && k + 1 < |run|
    ensures Next(cfg, run[k], run[k + 1]) && Invariant(cfg, run[k]) && cfg.committee.MostlyHonest(cfg.honest)
  {
    assert StepsAt(cfg, run, k);
    RunKeepsInvariant(cfg, run, k);
  }

  // ----- Safety -----

  /** The vote of an honest validator for a statement, as a position in its record. */
  lemma CastOf(cfg: Config, s: System, v: ValidatorName, statement: VoteValue) returns (i: nat)
    requires Invariant(cfg, s) && v in cfg.honest && v in Voters(s.votes, statement)
    ensures i < |s.nodes[v].casts| && s.nodes[v].casts[i].vote.statement == statement
    ensures NodeInvariant(cfg, s.votes, v, s.nodes[v])
    ensures Justified(cfg, s.votes, v, s.nodes[v].casts[i])
  {
    NodeOf(cfg, s, v);
    var c := CastAmong(s, v, statement);
    i :| 0 <= i < |s.nodes[v].casts| && s.nodes[v].casts[i] == c;
    assert Justified(cfg, s.votes, v, s.nodes[v].casts[i]);
  }

  lemma CastAmong(s: System, v: ValidatorName, statement: VoteValue) returns (c: Cast)
    requires Unforged(s) && v in s.nodes && v in Voters(s.votes, statement)
    ensures c in s.nodes[v].casts && c.vote.statement == statement
  {
    var x :| x in s.votes && x.statement == statement && x.signer == v;
    c :| c in s.nodes[v].casts && c.vote == x;
  }

  /** Nobody honest votes to validate in the fast round. */
  lemma NothingIsValidatedInTheFastRound(cfg: Config, s: System, value: CertifiedValue)
    requires Invariant(cfg, s) && cfg.committee.MostlyHonest(cfg.honest)
    ensures !Certified(cfg, s.votes, VoteValue(value, Fast, ValidatedBlocks))
  {
    var statement := VoteValue(value, Fast, ValidatedBlocks);
    if Certified(cfg, s.votes, statement) {
      var voters := Voters(s.votes, statement);
      var v := QuorumsShareAnHonestVote(cfg.committee, cfg.honest, voters, voters);
      var i := CastOf(cfg, s, v, statement);
      assert false;
    }
  }

  /** Whoever confirms outside the fast round has seen the block validated in that round. */
  lemma ConfirmedMeansValidated(cfg: Config, s: System, value: CertifiedValue, round: Round)
    requires Invariant(cfg, s) && cfg.committee.MostlyHonest(cfg.honest)
    requires Certified(cfg, s.votes, VoteValue(value, round, ConfirmedBlocks)) && !round.Fast?
    ensures Certified(cfg, s.votes, VoteValue(value, round, ValidatedBlocks))
  {
    var statement := VoteValue(value, round, ConfirmedBlocks);
    var voters := Voters(s.votes, statement);
    var v := QuorumsShareAnHonestVote(cfg.committee, cfg.honest, voters, voters);
    var i := CastOf(cfg, s, v, statement);
  }

  /** A validator votes at most once per round for the same kind of reason. */
  lemma OneVotePerRound(casts: seq<Cast>, i: nat, j: nat)
    requires forall k, l | 0 <= k < l < |casts| :: Precedes(casts[k], casts[l])
    requires i < |casts| && j < |casts| && casts[i].Round() == casts[j].Round()
    ensures casts[i].reason.ByProposal? && casts[j].reason.ByProposal? ==> i == j
    ensures casts[i].reason.ByCertificate? && casts[j].reason.ByCertificate? ==> i == j
  {
    assert i < j ==> Precedes(casts[i], casts[j]);
    assert j < i ==> Precedes(casts[j], casts[i]);
  }

  /** In each round, the fast one included, at most one block is validated and one confirmed. */
  lemma OnePerRound(cfg: Config, s: System, a: CertifiedValue, b: CertifiedValue, round: Round, kind: CertificateKind)
    requires Invariant(cfg, s) && cfg.committee.MostlyHonest(cfg.honest)
    requires kind != Timeouts
    requires Certified(cfg, s.votes, VoteValue(a, round, kind)) && Certified(cfg, s.votes, VoteValue(b, round, kind))
    ensures a == b
  {
    var x, y := VoteValue(a, round, kind), VoteValue(b, round, kind);
    var v := QuorumsShareAnHonestVote(cfg.committee, cfg.honest, Voters(s.votes, x), Voters(s.votes, y));
    var i := CastOf(cfg, s, v, x);
    var j := CastOf(cfg, s, v, y);
    NothingIsValidatedInTheFastRound(cfg, s, a);
    NothingIsValidatedInTheFastRound(cfg, s, b);
    OneVotePerRound(s.nodes[v].casts, i, j);
  }

  /**
   * After a vote in the fast round, proposals that carry no certificate are for the same block.
   * The manager only enforces this for the first one.
   */
  predicate FastLockKept(s: System) {
    forall v | v in s.nodes :: KeepsFastBlock(s.nodes[v].casts)
  }

  predicate KeepsFastBlock(casts: seq<Cast>) {
    forall i, j | 0 <= i < j < |casts| && IsFastVote(casts[i]) && IsFreshVote(casts[j]) ::
      casts[j].vote.statement.value == casts[i].vote.statement.value
  }

  predicate IsFastVote(c: Cast) {
    c.reason.ByProposal? && c.Round().Fast?
  }

  predicate IsFreshVote(c: Cast) {
    c.reason.ByProposal? && c.reason.proposal.validatedBlockCertificate.None?
  }

  /**
   * What makes an honest validator vote to validate after it voted to confirm in an earlier
   * round: it is the same block, or one that was validated again in between.
   */
  lemma RevoteIsJustified(cfg: Config, s: System, v: ValidatorName, b: CertifiedValue, low: Round, a: CertifiedValue,
                          high: Round)
    returns (q: Round)
    requires Invariant(cfg, s) && (low.Fast? ==> FastLockKept(s)) && v in cfg.honest
    requires v in Voters(s.votes, VoteValue(b, low, ConfirmedBlocks))
    requires v in Voters(s.votes, VoteValue(a, high, ValidatedBlocks))
    requires Rank(low) < Rank(high)
    ensures || a == b
            || (Rank(low) <= Rank(q) < Rank(high) && Certified(cfg, s.votes, VoteValue(a, q, ValidatedBlocks)))
  {
    var i := CastOf(cfg, s, v, VoteValue(b, low, ConfirmedBlocks));
    var j := CastOf(cfg, s, v, VoteValue(a, high, ValidatedBlocks));
    q := LaterVoteIsJustified(cfg, s.votes, v, s.nodes[v].manager, s.nodes[v].casts, i, j);
  }

  lemma LaterVoteIsJustified(cfg: Config, votes: set<Signature>, v: ValidatorName, m: Manager, casts: seq<Cast>,
                             i: nat, j: nat)
    returns (q: Round)
    requires CastsInvariant(cfg, votes, v, m, casts)
    requires i < |casts| && j < |casts| && Rank(casts[i].Round()) < Rank(casts[j].Round())
    requires casts[i].vote.statement.kind == ConfirmedBlocks && casts[j].vote.statement.kind == ValidatedBlocks
    requires casts[i].Round().Fast? ==> KeepsFastBlock(casts)
    ensures var a := casts[j].vote.statement.value;
            || a == casts[i].vote.statement.value
            || (&& Rank(casts[i].Round()) <= Rank(q) < Rank(casts[j].Round())
                && Certified(cfg, votes, VoteValue(a, q, ValidatedBlocks)))
  {
    assert Justified(cfg, votes, v, casts[i]) && Justified(cfg, votes, v, casts[j]);
    assert i < j && Precedes(casts[i], casts[j]);
    var cert := casts[j].reason.proposal.validatedBlockCertificate;
    q := if cert.Some? then cert.value.vote.round else Fast;
  }

  /**
   * Once a quorum confirms a block outside the fast round, no other block is ever validated in that
   * round or later; for the fast round this takes that the fast lock is kept.
   */
  lemma {:induction false} LockHolds(cfg: Config, s: System, b: CertifiedValue, low: Round, a: CertifiedValue,
                                     high: Round)
    requires Invariant(cfg, s) && (low.Fast? ==> FastLockKept(s)) && cfg.committee.MostlyHonest(cfg.honest)
    requires Certified(cfg, s.votes, VoteValue(b, low, ConfirmedBlocks))
    requires Certified(cfg, s.votes, VoteValue(a, high, ValidatedBlocks))
    requires Rank(low) <= Rank(high)
    ensures a == b
    decreases Rank(high)
  {
    RankEmbedsTheDerivedOrder(low, high);
    if low == high {
      NothingIsValidatedInTheFastRound(cfg, s, a);
      ConfirmedMeansValidated(cfg, s, b, low);
      OnePerRound(cfg, s, a, b, low, ValidatedBlocks);
    } else {
      var x, y := VoteValue(b, low, ConfirmedBlocks), VoteValue(a, high, ValidatedBlocks);
      var v := QuorumsShareAnHonestVote(cfg.committee, cfg.honest, Voters(s.votes, x), Voters(s.votes, y));
      var q := RevoteIsJustified(cfg, s, v, b, low, a, high);
      if a != b {
        LockHolds(cfg, s, b, low, a, q);
      }
    }
  }

  /** All confirmed blocks are the same, whatever the rounds. */
  ghost predicate Agreement(cfg: Config, s: System) {
    forall a, b, r, q ::
      && Certified(cfg, s.votes, VoteValue(a, r, ConfirmedBlocks))
      && Certified(cfg, s.votes, VoteValue(b, q, ConfirmedBlocks))
      ==> a == b
  }

  lemma ConfirmedBlocksAgree(cfg: Config, s: System, a: CertifiedValue, r: Round, b: CertifiedValue, q: Round)
    requires Invariant(cfg, s) && (r.Fast? ==> FastLockKept(s)) && cfg.committee.MostlyHonest(cfg.honest)
    requires Certified(cfg, s.votes, VoteValue(a, r, ConfirmedBlocks))
    requires Certified(cfg, s.votes, VoteValue(b, q, ConfirmedBlocks))
    requires Rank(r) <= Rank(q)
    ensures a == b
  {
    if q.Fast? {
      RankEmbedsTheDerivedOrder(r, q);
      OnePerRound(cfg, s, a, b, q, ConfirmedBlocks);
    } else {
      ConfirmedMeansValidated(cfg, s, b, q);
      LockHolds(cfg, s, a, r, b, q);
    }
  }

  /** Safety of every run in which the fast lock is kept. */
  lemma RunsAgree(cfg: Config, run: seq<System>, k: nat)
    requires IsRun(cfg, run) && k < |run| && FastLockKept(run[k])
    ensures Agreement(cfg, run[k])
  {
    RunKeepsInvariant(cfg, run, k);
    var s := run[k];
    forall a, b, r, q | && Certified(cfg, s.votes, VoteValue(a, r, ConfirmedBlocks))
                        && Certified(cfg, s.votes, VoteValue(b, q, ConfirmedBlocks))
      ensures a == b
    {
      if Rank(r) <= Rank(q) {
        ConfirmedBlocksAgree(cfg, s, a, r, b, q);
      } else {
        ConfirmedBlocksAgree(cfg, s, b, q, a, r);
      }
    }
  }

  /** Without super owners there is no fast round, hence nothing to keep. */
  lemma NoFastLockWithoutSuperOwners(cfg: Config, s: System)
    requires Invariant(cfg, s) && cfg.ownership.superOwners == map[]
    ensures FastLockKept(s)
  {
    forall v | v in s.nodes ensures KeepsFastBlock(s.nodes[v].casts) {
      assert NodeInvariant(cfg, s.votes, v, s.nodes[v]);
      NobodyVotesInTheFastRound(cfg, s.votes, v, s.nodes[v].manager, s.nodes[v].casts);
      NoFastVoteToKeep(s.nodes[v].casts);
    }
  }

  lemma NoFastVoteToKeep(casts: seq<Cast>)
    requires forall c | c in casts :: !IsFastVote(c)
    ensures KeepsFastBlock(casts)
  {}

  lemma NobodyVotesInTheFastRound(cfg: Config, votes: set<Signature>, v: ValidatorName, m: Manager, casts: seq<Cast>)
    requires CastsInvariant(cfg, votes, v, m, casts) && cfg.ownership.superOwners == map[]
    ensures forall c | c in casts :: !IsFastVote(c)
  {
    forall c | c in casts ensures !IsFastVote(c) {
      assert Justified(cfg, votes, v, c);
    }
  }

  /** On a chain without super owners, any two confirmed certificates carry the same block. */
  lemma ConfirmedCertificatesAgree(cfg: Config, run: seq<System>, k: nat, c1: Certificate, c2: Certificate)
    requires IsRun(cfg, run) && k < |run| && cfg.ownership.superOwners == map[]
    requires Received(cfg, run[k].votes, c1) && c1.vote.kind == ConfirmedBlocks
    requires Received(cfg, run[k].votes, c2) && c2.vote.kind == ConfirmedBlocks
    ensures c1.vote.value == c2.vote.value
  {
    RunKeepsInvariant(cfg, run, k);
    NoFastLockWithoutSuperOwners(cfg, run[k]);
    RunsAgree(cfg, run, k);
    CertificatesAreCertified(cfg, run[k].votes, c1);
    CertificatesAreCertified(cfg, run[k].votes, c2);
    assert c1.vote == VoteValue(c1.vote.value, c1.vote.round, ConfirmedBlocks);
    assert c2.vote == VoteValue(c2.vote.value, c2.vote.round, ConfirmedBlocks);
  }

  /** With or without super owners, confirmed certificates outside the fast round carry the same block. */
  lemma LaterCertificatesAgree(cfg: Config, run: seq<System>, k: nat, c1: Certificate, c2: Certificate)
    requires IsRun(cfg, run) && k < |run|
    requires Received(cfg, run[k].votes, c1) && c1.vote.kind == ConfirmedBlocks && !c1.vote.round.Fast?
    requires Received(cfg, run[k].votes, c2) && c2.vote.kind == ConfirmedBlocks && !c2.vote.round.Fast?
    ensures c1.vote.value == c2.vote.value
  {
    RunKeepsInvariant(cfg, run, k);
    CertificatesAreCertified(cfg, run[k].votes, c1);
    CertificatesAreCertified(cfg, run[k].votes, c2);
    if Rank(c1.vote.round) <= Rank(c2.vote.round) {
      ConfirmedBlocksAgree(cfg, run[k], c1.vote.value, c1.vote.round, c2.vote.value, c2.vote.round);
    } else {
      ConfirmedBlocksAgree(cfg, run[k], c2.vote.value, c2.vote.round, c1.vote.value, c1.vote.round);
    }
  }

  /** With or without super owners, certificates of one kind and round carry the same block. */
  lemma CertificatesOfARoundAgree(cfg: Config, run: seq<System>, k: nat, c1: Certificate, c2: Certificate)
    requires IsRun(cfg, run) && k < |run|
    requires Received(cfg, run[k].votes, c1) && Received(cfg, run[k].votes, c2)
    requires c1.vote.kind == c2.vote.kind != Timeouts && c1.vote.round == c2.vote.round
    ensures c1.vote.value == c2.vote.value
  {
    RunKeepsInvariant(cfg, run, k);
    CertificatesAreCertified(cfg, run[k].votes, c1);
    CertificatesAreCertified(cfg, run[k].votes, c2);
    OnePerRound(cfg, run[k], c1.vote.value, c2.vote.value, c1.vote.round, c1.vote.kind);
  }

  // ----- Rounds and timeouts -----

  /** The rounds that were started, for whichever reason. */
  function StartedRounds(m: Manager): set<Round> {
    {m.ownership.FirstRound()}
    + (if m.timeout.Some? then {m.RoundAfterTimeout()} else {})
    + (if m.locked.Some? then {m.locked.value.vote.round} else {})
    + (if m.proposed.Some? then {m.proposed.value.content.round} else {})
  }

  /** The current round of every validator is always the highest round that was started. */
  lemma CurrentRoundIsTheHighestStarted(cfg: Config, run: seq<System>, k: nat, v: ValidatorName)
    requires IsRun(cfg, run) && k < |run| && v in cfg.honest
    ensures v in run[k].nodes
    ensures var m := run[k].nodes[v].manager;
            && m.currentRound in StartedRounds(m)
            && forall r | r in StartedRounds(m) :: Rank(r) <= Rank(m.currentRound)
  {
    RunKeepsInvariant(cfg, run, k);
    assert NodeInvariant(cfg, run[k].votes, v, run[k].nodes[v]);
    TargetIsTheHighest(run[k].nodes[v].manager);
  }

  lemma TargetIsTheHighest(m: Manager)
    ensures m.TargetRound() in StartedRounds(m)
    ensures forall r | r in StartedRounds(m) :: Rank(r) <= Rank(m.TargetRound())
  {
    RankEmbedsTheDerivedOrder(m.TargetRound(), Fast);
    RankEmbedsTheDerivedOrder(m.TargetRound(), m.ownership.FirstRound());
  }

  lemma RoundsNeverDecrease(cfg: Config, run: seq<System>, i: nat, j: nat, v: ValidatorName)
    requires IsRun(cfg, run) && i <= j < |run| && v in cfg.honest
    ensures v in run[i].nodes && v in run[j].nodes
    ensures Rank(run[i].nodes[v].manager.currentRound) <= Rank(run[j].nodes[v].manager.currentRound)
  {
    EnteredRoundsStay(cfg, run, i, j, v);
    var r := run[i].nodes[v].manager.currentRound;
    EnteredRoundsBoundTheCurrent(cfg, run, i, v, r);
    EnteredRoundsBoundTheCurrent(cfg, run, j, v, r);
  }

  lemma EnteredRoundsBoundTheCurrent(cfg: Config, run: seq<System>, k: nat, v: ValidatorName, r: Round)
    requires IsRun(cfg, run) && k < |run| && v in run[k].nodes
    ensures var n := run[k].nodes[v];
            n.manager.currentRound in n.entered && (r in n.entered ==> Rank(r) <= Rank(n.manager.currentRound))
  {
    RunKeepsInvariant(cfg, run, k);
    assert NodeInvariant(cfg, run[k].votes, v, run[k].nodes[v]);
  }

  lemma {:induction false} EnteredRoundsStay(cfg: Config, run: seq<System>, i: nat, j: nat, v: ValidatorName)
    requires IsRun(cfg, run) && i <= j < |run| && v in cfg.honest
    ensures v in run[i].nodes && v in run[j].nodes && run[i].nodes[v].entered.Keys <= run[j].nodes[v].entered.Keys
  {
    if i == j {
      CurrentRoundIsTheHighestStarted(cfg, run, i, v);
    } else {
      EnteredRoundsStay(cfg, run, i, j - 1, v);
      assert StepsAt(cfg, run, j - 1);
      StepKeepsEntered(cfg, run[j - 1], run[j], v);
    }
  }

  lemma StepKeepsEntered(cfg: Config, s: System, s': System, v: ValidatorName)
    requires Next(cfg, s, s') && v in s.nodes
    ensures v in s'.nodes && s.nodes[v].entered.Keys <= s'.nodes[v].entered.Keys
  {
    var step :| Enabled(cfg, s, step) && s' == Apply(cfg, s, step);
  }

  /** Votes are cast in the order of their rounds, except for the vote to fall back. */
  lemma VotesFollowTheRounds(cfg: Config, run: seq<System>, k: nat, v: ValidatorName, i: nat, j: nat)
    requires IsRun(cfg, run) && k < |run| && v in cfg.honest
    requires v in run[k].nodes && i < j < |run[k].nodes[v].casts|
    requires !run[k].nodes[v].casts[i].reason.ByFallback? && !run[k].nodes[v].casts[j].reason.ByFallback?
    ensures Rank(run[k].nodes[v].casts[i].Round()) <= Rank(run[k].nodes[v].casts[j].Round())
  {
    RunKeepsInvariant(cfg, run, k);
    assert NodeInvariant(cfg, run[k].votes, v, run[k].nodes[v]);
    assert Precedes(run[k].nodes[v].casts[i], run[k].nodes[v].casts[j]);
  }

  /**
   * A validator signs the timeout of a round at most once, and not before the round was current
   * for its configured duration.
   */
  lemma TimeoutsAreTimely(cfg: Config, run: seq<System>, k: nat, v: ValidatorName, i: nat)
    requires IsRun(cfg, run) && k < |run| && v in cfg.honest
    requires v in run[k].nodes && i < |run[k].nodes[v].casts|
    requires run[k].nodes[v].casts[i].reason.ByLeaderTimeout?
    ensures var n := run[k].nodes[v];
            var r := n.casts[i].Round();
            && r in n.entered
            && cfg.ownership.RoundTimeout(r).Some?
            && Min(U64_MAX, n.entered[r] + cfg.ownership.RoundTimeout(r).value) <= n.casts[i].reason.time
            && forall j | 0 <= j < |n.casts| && n.casts[j].reason.ByLeaderTimeout? && n.casts[j].Round() == r :: j == i
  {
    RunKeepsInvariant(cfg, run, k);
    NodeOf(cfg, run[k], v);
    TimeoutIsTimely(cfg, run[k].votes, v, run[k].nodes[v], i);
  }

  lemma TimeoutIsTimely(cfg: Config, votes: set<Signature>, v: ValidatorName, n: Node, i: nat)
    requires NodeInvariant(cfg, votes, v, n) && i < |n.casts| && n.casts[i].reason.ByLeaderTimeout?
    ensures var r := n.casts[i].Round();
            && r in n.entered
            && cfg.ownership.RoundTimeout(r).Some?
            && Min(U64_MAX, n.entered[r] + cfg.ownership.RoundTimeout(r).value) <= n.casts[i].reason.time
    ensures forall j | 0 <= j < |n.casts| && n.casts[j].reason.ByLeaderTimeout?
                       && n.casts[j].Round() == n.casts[i].Round() :: j == i
  {
    assert Timely(cfg, n.entered, n.casts[i]);
    forall j | 0 <= j < |n.casts| && n.casts[j].reason.ByLeaderTimeout? && n.casts[j].Round() == n.casts[i].Round()
      ensures j == i
    {
      assert i < j ==> Precedes(n.casts[i], n.casts[j]);
      assert j < i ==> Precedes(n.casts[j], n.casts[i]);
    }
  }

  /**
   * A validator signs the fallback only for the last leader round, and not before an unskippable
   * bundle has waited for the configured duration.
   */
  lemma FallbacksAreTimely(cfg: Config, run: seq<System>, k: nat, v: ValidatorName, i: nat)
    requires IsRun(cfg, run) && k < |run| && v in cfg.honest
    requires v in run[k].nodes && i < |run[k].nodes[v].casts|
    requires run[k].nodes[v].casts[i].reason.ByFallback?
    ensures var c := run[k].nodes[v].casts[i];
            && c.vote == Signature(v, VoteValue(cfg.timeoutValue, SingleLeader(U32_MAX), Timeouts))
            && v in cfg.waiting
            && var duration := cfg.ownership.timeoutConfig.fallbackDuration;
               duration == 0 || cfg.waiting[v] + duration <= c.reason.time
  {
    RunKeepsInvariant(cfg, run, k);
    NodeOf(cfg, run[k], v);
    var n := run[k].nodes[v];
    assert Timely(cfg, n.entered, n.casts[i]) && Justified(cfg, run[k].votes, v, n.casts[i]);
  }

  /**
   * A quorum signs the timeout that starts the fallback mode only if some honest validator was in
   * the last leader round, or has seen an unskippable bundle wait for the configured duration.
   */
  lemma FallbackHasAReason(cfg: Config, run: seq<System>, k: nat) returns (v: ValidatorName)
    requires IsRun(cfg, run) && k < |run|
    requires Certified(cfg, run[k].votes, VoteValue(cfg.timeoutValue, SingleLeader(U32_MAX), Timeouts))
    ensures v in cfg.honest && v in run[k].nodes
    ensures || SingleLeader(U32_MAX) in run[k].nodes[v].entered
            || (v in cfg.waiting && cfg.waiting[v] + cfg.ownership.timeoutConfig.fallbackDuration <= U64_MAX)
  {
    RunKeepsInvariant(cfg, run, k);
    var statement := VoteValue(cfg.timeoutValue, SingleLeader(U32_MAX), Timeouts);
    var voters := Voters(run[k].votes, statement);
    v := QuorumsShareAnHonestVote(cfg.committee, cfg.honest, voters, voters);
    var i := CastOf(cfg, run[k], v, statement);
    assert Timely(cfg, run[k].nodes[v].entered, run[k].nodes[v].casts[i]);
  }
}
