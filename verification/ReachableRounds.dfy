/** Which rounds can ever be the current one of an honest validator, for every configuration. */
module ReachableRounds {
  import opened Basics
  import opened Rounds
  import opened Committees
  import opened Certificates
  import opened ChainManagers
  import opened Consensus
  import opened ConsensusRecords
  import opened Continuations
  import opened Progress
  import opened PublicChains
  import opened FastRound

  /** The validator rounds up to a number all have a leader. */
  predicate LedUpTo(cfg: Config, n: u32) {
    forall k: nat | k <= n :: Validator(k) in cfg.leaders
  }

  /**
   * A super owner can propose in any round. Owners can propose in any multi-leader round, whatever
   * the configured number, and the others follow by timeouts. Without owners, a round is only left
   * by a proposal of the next leader.
   */
  predicate CanBeCurrent(cfg: Config, r: Round) {
    if cfg.ownership.superOwners != map[] then true
    else if cfg.ownership.owners != map[] then Rank(cfg.ownership.FirstRound()) <= Rank(r)
    else r.Validator? && (r.n == 0 || LedUpTo(cfg, r.n))
  }

  /** Some run brings some honest validator to the round. */
  ghost predicate BecomesCurrent(cfg: Config, r: Round) {
    exists run, v :: IsCurrentAfter(cfg, run, v, r)
  }

  ghost predicate IsCurrentAfter(cfg: Config, run: seq<System>, v: ValidatorName, r: Round) {
    IsRun(cfg, run) && v in Last(run).nodes && Last(run).nodes[v].manager.currentRound == r
  }

  // ----- Reaching the rounds -----

  lemma StartRun(cfg: Config) returns (v: ValidatorName)
    requires cfg.committee.MostlyHonest(cfg.honest)
    ensures IsRun(cfg, [Start(cfg)]) && Last([Start(cfg)]) == Start(cfg) && v in cfg.honest && v in Start(cfg).nodes
    ensures AllIn(cfg, Start(cfg), cfg.ownership.FirstRound())
  {
    StartIsInitial(cfg);
    HonestIsQuorum(cfg.committee, cfg.honest);
    v :| v in cfg.honest;
  }

  /** A proposal that the validator accepts makes its round the current one. */
  lemma ReachByProposal(cfg: Config, run: seq<System>, v: ValidatorName, p: BlockProposal, e: ExecutedBlock)
    returns (run': seq<System>)
    requires IsRun(cfg, run) && v in cfg.honest && v in Last(run).nodes
    requires Before(cfg, Proposing(p, e), Last(run).votes, v, Last(run).nodes[v].manager)
    ensures IsCurrentAfter(cfg, run', v, p.content.round)
  {
    var s' := Advancing(cfg, run, Proposing(p, e), v);
    RunGrows(cfg, run, s');
    run' := run + [s'];
  }

  lemma ReachWithSuperOwner(cfg: Config, r: Round, owner: Owner)
    requires cfg.committee.MostlyHonest(cfg.honest) && owner in cfg.ownership.superOwners
    ensures BecomesCurrent(cfg, r)
  {
    var v := StartRun(cfg);
    var run := ReachByProposal(cfg, [Start(cfg)], v, Fresh(FIRST, r, owner), FIRST);
  }

  /** The first proposal of an owner may be in any multi-leader round. */
  lemma ReachMultiLeader(cfg: Config, n: u32, owner: Owner) returns (run: seq<System>, v: ValidatorName)
    requires cfg.committee.MostlyHonest(cfg.honest) && cfg.ownership.superOwners == map[]
    requires owner in cfg.ownership.owners && cfg.ownership.multiLeaderRounds > 0
    ensures IsCurrentAfter(cfg, run, v, MultiLeader(n))
  {
    v := StartRun(cfg);
    run := ReachByProposal(cfg, [Start(cfg)], v, Fresh(FIRST, MultiLeader(n), owner), FIRST);
  }

  /** All honest validators in the last configured multi-leader round. */
  lemma AllInLastMultiLeader(cfg: Config, owner: Owner) returns (run: seq<System>)
    requires cfg.committee.MostlyHonest(cfg.honest) && cfg.ownership.superOwners == map[]
    requires owner in cfg.ownership.owners && cfg.ownership.multiLeaderRounds > 0
    ensures IsRun(cfg, run) && AllIn(cfg, Last(run), MultiLeader(cfg.ownership.multiLeaderRounds - 1))
  {
    var v := StartRun(cfg);
    var r := MultiLeader(cfg.ownership.multiLeaderRounds - 1);
    var ph := Proposing(Fresh(FIRST, r, owner), FIRST);
    assert AllBefore(cfg, ph, Start(cfg));
    run := SweepAll(cfg, [Start(cfg)], ph);
    forall w | w in Last(run).nodes ensures Last(run).nodes[w].manager.currentRound == r {
      assert After(cfg, ph, Last(run).votes, w, Last(run).nodes[w].manager);
    }
  }

  function Predecessor(r: Round): Round
    requires Rank(r) > Rank(SingleLeader(0))
  {
    if r.SingleLeader? then SingleLeader(r.n - 1)
    else if r.n == 0 then SingleLeader(U32_MAX)
    else Validator(r.n - 1)
  }

  /** With owners, timeouts lead through all leader rounds. */
  lemma {:induction false} AllInLeaderRound(cfg: Config, r: Round, owner: Owner) returns (run: seq<System>)
    requires cfg.committee.MostlyHonest(cfg.honest) && cfg.ownership.superOwners == map[]
    requires owner in cfg.ownership.owners && Rank(r) >= Rank(SingleLeader(0))
    ensures IsRun(cfg, run) && AllIn(cfg, Last(run), r)
    decreases Rank(r)
  {
    if Rank(r) > Rank(SingleLeader(0)) {
      var before := AllInLeaderRound(cfg, Predecessor(r), owner);
      run := TimeOutAll(cfg, before, Predecessor(r));
    } else {
      RankEmbedsTheDerivedOrder(r, SingleLeader(0));
      if cfg.ownership.multiLeaderRounds == 0 {
        var v := StartRun(cfg);
        run := [Start(cfg)];
      } else {
        var before := AllInLastMultiLeader(cfg, owner);
        run := TimeOutAll(cfg, before, MultiLeader(cfg.ownership.multiLeaderRounds - 1));
      }
    }
  }

  lemma ReachWithOwners(cfg: Config, r: Round, owner: Owner)
    requires cfg.committee.MostlyHonest(cfg.honest) && cfg.ownership.superOwners == map[]
             && owner in cfg.ownership.owners
    requires Rank(cfg.ownership.FirstRound()) <= Rank(r)
    ensures BecomesCurrent(cfg, r)
  {
    if r.MultiLeader? {
      var run, v := ReachMultiLeader(cfg, r.n, owner);
    } else {
      var run := AllInLeaderRound(cfg, r, owner);
      LastIsHonest(cfg, run);
      var v :| v in cfg.honest;
      assert IsCurrentAfter(cfg, run, v, r);
    }
  }

  /** A block validated in a round is proposed again by the leader of the next one. */
  lemma NextLeaderIsAccepted(cfg: Config, votes: set<Signature>, v: ValidatorName, node: Node, p: BlockProposal, n: u32,
                             cert: Certificate)
    requires ManagerInvariant(cfg, node.manager) && LockInvariant(cfg, votes, node)
             && cfg.ownership.superOwners == map[]
    requires n < U32_MAX && p.content.round == Validator(n) && Validator(n + 1) in cfg.leaders
    requires HasProposed(votes, v, node.manager, p, FIRST)
    requires Received(cfg, votes, cert) && cert.vote == VoteFor(FIRST, Validator(n))
    ensures var r := Validator(n + 1);
            var p' := Retry(FIRST, r, cfg.leaders[r], Some(cert));
            NodeEnabled(cfg, votes, node.manager, Propose(v, p', FIRST, U64_MAX))
  {
    var r := Validator(n + 1);
    RetryIsAccepted(cfg, votes, v, node, FIRST, r, cfg.leaders[r], Some(cert), U64_MAX);
  }

  lemma AllAcceptNextLeader(cfg: Config, s: System, p: BlockProposal, n: u32, cert: Certificate)
    requires Invariant(cfg, s) && SystemLocks(cfg, s) && cfg.ownership.superOwners == map[]
    requires n < U32_MAX && p.content.round == Validator(n) && Validator(n + 1) in cfg.leaders
    requires AllAfter(cfg, Proposing(p, FIRST), s)
    requires Received(cfg, s.votes, cert) && cert.vote == VoteFor(FIRST, Validator(n))
    ensures AllBefore(cfg, Proposing(Retry(FIRST, Validator(n + 1), cfg.leaders[Validator(n + 1)], Some(cert)), FIRST),
            s)
  {
    var r := Validator(n + 1);
    var ph := Proposing(Retry(FIRST, r, cfg.leaders[r], Some(cert)), FIRST);
    forall v | v in s.nodes ensures Before(cfg, ph, s.votes, v, s.nodes[v].manager) {
      NodeOf(cfg, s, v);
      assert LockInvariant(cfg, s.votes, s.nodes[v]) && After(cfg, Proposing(p, FIRST), s.votes, v, s.nodes[v].manager);
      NextLeaderIsAccepted(cfg, s.votes, v, s.nodes[v], p, n, cert);
    }
  }

  lemma VoteInNextRound(cfg: Config, run: seq<System>, p: BlockProposal, n: u32)
    returns (run': seq<System>, p': BlockProposal)
    requires IsRun(cfg, run) && cfg.ownership.superOwners == map[] && n < U32_MAX && Validator(n + 1) in cfg.leaders
    requires p.content.round == Validator(n) && AllAfter(cfg, Proposing(p, FIRST), Last(run))
    ensures IsRun(cfg, run') && p'.content.round == Validator(n + 1) && AllAfter(cfg, Proposing(p', FIRST), Last(run'))
  {
    LastHasInvariant(cfg, run);
    LastHasLocks(cfg, run);
    AllHaveVoted(cfg, Last(run), p, FIRST);
    var cert := SignedByAllIsCertified(cfg, Last(run).votes, VoteFor(FIRST, Validator(n)));
    AllAcceptNextLeader(cfg, Last(run), p, n, cert);
    p' := Retry(FIRST, Validator(n + 1), cfg.leaders[Validator(n + 1)], Some(cert));
    run' := SweepAll(cfg, run, Proposing(p', FIRST));
  }

  /** Without owners, the leaders of all rounds up to some number propose one after the other. */
  lemma {:induction false} AllVotedInRound(cfg: Config, n: u32) returns (run: seq<System>, p: BlockProposal)
    requires cfg.committee.MostlyHonest(cfg.honest) && LedUpTo(cfg, n)
    requires cfg.ownership.superOwners == map[] && cfg.ownership.owners == map[]
    ensures IsRun(cfg, run) && p.content.round == Validator(n) && AllAfter(cfg, Proposing(p, FIRST), Last(run))
    decreases n
  {
    if n == 0 {
      var v := StartRun(cfg);
      p := Fresh(FIRST, Validator(0), cfg.leaders[Validator(0)]);
      assert AllBefore(cfg, Proposing(p, FIRST), Start(cfg));
      run := SweepAll(cfg, [Start(cfg)], Proposing(p, FIRST));
    } else {
      var before, q := AllVotedInRound(cfg, n - 1);
      run, p := VoteInNextRound(cfg, before, q, n - 1);
    }
  }

  lemma ReachWithoutOwners(cfg: Config, n: u32)
    requires cfg.committee.MostlyHonest(cfg.honest) && (n == 0 || LedUpTo(cfg, n))
    requires cfg.ownership.superOwners == map[] && cfg.ownership.owners == map[]
    ensures BecomesCurrent(cfg, Validator(n))
  {
    var v := StartRun(cfg);
    if n == 0 {
      assert IsCurrentAfter(cfg, [Start(cfg)], v, Validator(0));
    } else {
      var run, p := AllVotedInRound(cfg, n);
      LastIsHonest(cfg, run);
      assert After(cfg, Proposing(p, FIRST), Last(run).votes, v, Last(run).nodes[v].manager);
      assert IsCurrentAfter(cfg, run, v, Validator(n));
    }
  }

  // ----- No other round is reached -----

  /**
   * Without owners: nobody signs a timeout, and every vote on a block is in a validator round with
   * leaders up to it, as is the current round unless it is the first one.
   */
  predicate LeaderInvariant(cfg: Config, n: Node) {
    && n.manager.leaders == cfg.leaders
    && (n.manager.currentRound == Validator(0) || IsLed(cfg, n.manager.currentRound))
    && (forall c | c in n.casts :: (c.reason.ByProposal? || c.reason.ByCertificate?) && IsLed(cfg, c.Round()))
  }

  predicate IsLed(cfg: Config, r: Round) {
    r.Validator? && LedUpTo(cfg, r.n)
  }

  ghost predicate SystemLeaders(cfg: Config, s: System) {
    forall v | v in s.nodes :: LeaderInvariant(cfg, s.nodes[v])
  }

  /** Whatever a quorum signed, an honest validator voted for, in a round with leaders. */
  lemma CertifiedIsLed(cfg: Config, s: System, statement: VoteValue)
    requires Invariant(cfg, s) && SystemLeaders(cfg, s) && cfg.committee.MostlyHonest(cfg.honest)
    requires Certified(cfg, s.votes, statement)
    ensures IsLed(cfg, statement.round) && statement.kind != Timeouts
  {
    var voters := Voters(s.votes, statement);
    var v := QuorumsShareAnHonestVote(cfg.committee, cfg.honest, voters, voters);
    var i := CastOf(cfg, s, v, statement);
    assert LeaderInvariant(cfg, s.nodes[v]) && s.nodes[v].casts[i] in s.nodes[v].casts;
  }

  /** An accepted proposal is in a round with leaders up to it. */
  lemma ProposedRoundIsLed(cfg: Config, s: System, m: Manager, step: Step)
    requires Invariant(cfg, s) && SystemLeaders(cfg, s) && cfg.committee.MostlyHonest(cfg.honest)
    requires cfg.ownership.superOwners == map[] && cfg.ownership.owners == map[]
    requires ManagerInvariant(cfg, m) && m.leaders == cfg.leaders
             && (m.currentRound == Validator(0) || IsLed(cfg, m.currentRound))
    requires step.Propose? && NodeEnabled(cfg, s.votes, m, step)
    ensures IsLed(cfg, step.proposal.content.round)
  {
    var r, cert := step.proposal.content.round, step.proposal.validatedBlockCertificate;
    AcceptedProposalIsSafe(m, step.proposal);
    assert r.Validator? && r in cfg.leaders;
    if r != m.currentRound {
      assert cert.Some? && cfg.ownership.NextRound(cert.value.vote.round) == Some(r);
      CertificatesAreCertified(cfg, s.votes, cert.value);
      CertifiedIsLed(cfg, s, cert.value.vote);
    }
  }

  lemma ProposeKeepsLeaders(cfg: Config, votes: set<Signature>, n: Node, step: Step)
    requires ManagerInvariant(cfg, n.manager) && LeaderInvariant(cfg, n)
    requires step.Propose? && NodeEnabled(cfg, votes, n.manager, step) && IsLed(cfg, step.proposal.content.round)
    ensures LeaderInvariant(cfg, StepNode(cfg, n, step))
  {
    ProposalTakesEffect(n.manager, step.proposal, step.executed, Some(step.v), step.time);
  }

  lemma FinalizeKeepsLeaders(cfg: Config, votes: set<Signature>, n: Node, step: Step)
    requires ManagerInvariant(cfg, n.manager) && LeaderInvariant(cfg, n)
    requires step.Finalize? && NodeEnabled(cfg, votes, n.manager, step) && IsLed(cfg, step.certificate.vote.round)
    ensures LeaderInvariant(cfg, StepNode(cfg, n, step))
  {
    CertificateTakesEffect(n.manager, step.certificate, Some(step.v), step.time);
  }

  lemma RequestsKeepLeaders(cfg: Config, n: Node, step: Step)
    requires ManagerInvariant(cfg, n.manager) && LeaderInvariant(cfg, n) && cfg.ownership.owners == map[]
    requires step.RequestTimeout? || step.RequestFallback?
    ensures LeaderInvariant(cfg, StepNode(cfg, n, step))
  {}

  lemma StepKeepsLeaders(cfg: Config, s: System, step: Step)
    requires Invariant(cfg, s) && SystemLeaders(cfg, s) && cfg.committee.MostlyHonest(cfg.honest)
    requires cfg.ownership.superOwners == map[] && cfg.ownership.owners == map[]
    requires Enabled(cfg, s, step) && !step.Forge?
    ensures LeaderInvariant(cfg, StepNode(cfg, s.nodes[step.v], step))
  {
    var n := s.nodes[step.v];
    NodeOf(cfg, s, step.v);
    assert LeaderInvariant(cfg, n);
    match step
    case Propose(_, _, _, _) =>
      ProposedRoundIsLed(cfg, s, n.manager, step);
      ProposeKeepsLeaders(cfg, s.votes, n, step);
    case Finalize(_, cert, _) =>
      CertificatesAreCertified(cfg, s.votes, cert);
      CertifiedIsLed(cfg, s, cert.vote);
      FinalizeKeepsLeaders(cfg, s.votes, n, step);
    case ReceiveTimeout(_, cert, _) =>
      CertificatesAreCertified(cfg, s.votes, cert);
      CertifiedIsLed(cfg, s, cert.vote);
    case _ => RequestsKeepLeaders(cfg, n, step);
  }

  lemma NextKeepsLeaders(cfg: Config, s: System, s': System)
    requires Invariant(cfg, s) && SystemLeaders(cfg, s) && cfg.committee.MostlyHonest(cfg.honest)
    requires cfg.ownership.superOwners == map[] && cfg.ownership.owners == map[] && Next(cfg, s, s')
    ensures SystemLeaders(cfg, s')
  {
    var step :| Enabled(cfg, s, step) && s' == Apply(cfg, s, step);
    if !step.Forge? {
      StepKeepsLeaders(cfg, s, step);
    }
  }

  lemma RunStepKeepsLeaders(cfg: Config, run: seq<System>, k: nat)
    requires IsRun(cfg, run) && 0 < k < |run| && SystemLeaders(cfg, run[k - 1])
    requires cfg.ownership.superOwners == map[] && cfg.ownership.owners == map[]
    ensures SystemLeaders(cfg, run[k])
  {
    StepOfRun(cfg, run, k - 1);
    NextKeepsLeaders(cfg, run[k - 1], run[k]);
  }

  lemma StartHasLeaders(cfg: Config, s: System)
    requires Init(cfg, s) && cfg.ownership.superOwners == map[] && cfg.ownership.owners == map[]
    ensures SystemLeaders(cfg, s)
  {}

  lemma {:induction false} RunKeepsLeaders(cfg: Config, run: seq<System>, k: nat)
    requires IsRun(cfg, run) && k < |run| && cfg.ownership.superOwners == map[] && cfg.ownership.owners == map[]
    ensures SystemLeaders(cfg, run[k])
  {
    if k == 0 {
      StartHasLeaders(cfg, run[0]);
    } else {
      RunKeepsLeaders(cfg, run, k - 1);
      RunStepKeepsLeaders(cfg, run, k);
    }
  }

  lemma CurrentIsNotBelowFirst(cfg: Config, m: Manager)
    requires ManagerInvariant(cfg, m)
    ensures Rank(cfg.ownership.FirstRound()) <= Rank(m.currentRound)
  {}

  lemma OnlyTheseAreCurrent(cfg: Config, run: seq<System>, v: ValidatorName, r: Round)
    requires IsCurrentAfter(cfg, run, v, r)
    ensures CanBeCurrent(cfg, r)
  {
    LastIsHonest(cfg, run);
    LastHasNode(cfg, run, v);
    CurrentIsNotBelowFirst(cfg, Last(run).nodes[v].manager);
    if cfg.ownership.superOwners == map[] && cfg.ownership.owners == map[] {
      RunKeepsLeaders(cfg, run, |run| - 1);
      assert LeaderInvariant(cfg, Last(run).nodes[v]);
    }
  }

  /** Exactly these rounds can become the current round of an honest validator. */
  lemma RoundsThatCanBeCurrent(cfg: Config, r: Round)
    requires cfg.committee.MostlyHonest(cfg.honest)
    ensures BecomesCurrent(cfg, r) <==> CanBeCurrent(cfg, r)
  {
    if CanBeCurrent(cfg, r) {
      if owner :| owner in cfg.ownership.superOwners {
        ReachWithSuperOwner(cfg, r, owner);
      } else if owner :| owner in cfg.ownership.owners {
        ReachWithOwners(cfg, r, owner);
      } else {
        ReachWithoutOwners(cfg, r.n);
      }
    }
    if BecomesCurrent(cfg, r) {
      var run, v :| IsCurrentAfter(cfg, run, v, r);
      OnlyTheseAreCurrent(cfg, run, v, r);
    }
  }

  /**
   * On a chain with owners and a multi-leader round but without super owners, every multi-leader
   * round past the configured ones can become current, and then it has no timeout.
   */
  lemma UnconfiguredRoundWithoutTimeout(cfg: Config, n: u32, owner: Owner) returns (run: seq<System>, v: ValidatorName)
    requires cfg.committee.MostlyHonest(cfg.honest) && cfg.ownership.superOwners == map[]
    requires owner in cfg.ownership.owners && 0 < cfg.ownership.multiLeaderRounds <= n
    requires n < U32_MAX || cfg.ownership.multiLeaderRounds < U32_MAX
    ensures IsCurrentAfter(cfg, run, v, MultiLeader(n)) && !cfg.ownership.Configured(MultiLeader(n))
    ensures Last(run).nodes[v].manager.roundTimeout.None?
  {
    run, v := ReachMultiLeader(cfg, n, owner);
    LastIsHonest(cfg, run);
    LastHasNode(cfg, run, v);
    CooperativeTimeouts(cfg.ownership, n);
  }
}
