/**
 * Whether a block can still be confirmed. This is possible from every state below the very last
 * round if the chain has super owners, who may propose in any later round, or if it has owners.
 * Then the first leader round can be entered from the multi-leader rounds, whether they time out or
 * not, and every leader round can be timed out. On a chain without owners it is possible from every
 * state only if some honest validator makes a quorum together with the faulty ones.
 */
module Progress {
  import opened Basics
  import opened Rounds
  import opened Committees
  import opened Certificates
  import opened ChainManagers
  import opened Consensus
  import opened ConsensusRecords
  import opened Continuations

  // ----- Locks are certificates for blocks that can be proposed again -----

  predicate IsLock(cfg: Config, votes: set<Signature>, cert: Certificate) {
    && Received(cfg, votes, cert)
    && cert.vote.value.Executed? && cert.vote.kind == ValidatedBlocks
    && cert.vote.value.executed.block.height < U64_MAX
  }

  predicate LockInvariant(cfg: Config, votes: set<Signature>, n: Node) {
    && n.manager.leaders == cfg.leaders
    && (n.manager.locked.Some? ==> IsLock(cfg, votes, n.manager.locked.value))
    && (n.manager.proposed.Some? ==>
          && (cfg.ownership.superOwners == map[] ==> !n.manager.proposed.value.content.round.Fast?)
          && exists c :: c in n.casts && c.reason == ByProposal(n.manager.proposed.value))
    && (forall c | c in n.casts && c.reason.ByProposal? :: c.reason.proposal.content.block.height < U64_MAX)
  }

  predicate SystemLocks(cfg: Config, s: System) {
    forall v | v in s.nodes :: LockInvariant(cfg, s.votes, s.nodes[v])
  }

  lemma LocksStay(cfg: Config, votes: set<Signature>, votes': set<Signature>, n: Node)
    requires votes <= votes' && LockInvariant(cfg, votes, n)
    ensures LockInvariant(cfg, votes', n)
  {}

  /** A validated block was accepted by an honest validator, so its height is not the last one. */
  lemma ValidatedHeight(cfg: Config, s: System, statement: VoteValue)
    requires Invariant(cfg, s) && SystemLocks(cfg, s) && cfg.committee.MostlyHonest(cfg.honest)
    requires Certified(cfg, s.votes, statement) && statement.kind == ValidatedBlocks
    ensures statement.value.Executed? && statement.value.executed.block.height < U64_MAX
  {
    var voters := Voters(s.votes, statement);
    var v := QuorumsShareAnHonestVote(cfg.committee, cfg.honest, voters, voters);
    var i := CastOf(cfg, s, v, statement);
    assert LockInvariant(cfg, s.votes, s.nodes[v]) && s.nodes[v].casts[i] in s.nodes[v].casts;
  }

  lemma ProposeKeepsLock(cfg: Config, votes: set<Signature>, n: Node, step: Step)
    requires LockInvariant(cfg, votes, n) && n.manager.ownership == cfg.ownership
    requires step.Propose? && NodeEnabled(cfg, votes, n.manager, step)
    ensures LockInvariant(cfg, votes, StepNode(cfg, n, step))
  {
    ProposalMoves(cfg, votes, n.manager, step);
    var n' := StepNode(cfg, n, step);
    assert n'.casts[|n.casts|] in n'.casts && n'.casts[|n.casts|].reason == ByProposal(step.proposal);
  }

  /** More votes of a validator, without a new proposal. */
  lemma CastsKeepProposal(n: Node, n': Node)
    requires n.casts <= n'.casts && n'.manager.proposed == n.manager.proposed
    requires n.manager.proposed.Some? ==> exists c :: c in n.casts && c.reason == ByProposal(n.manager.proposed.value)
    ensures n'.manager.proposed.Some? ==> exists c :: c in n'.casts && c.reason == ByProposal(n'.manager.proposed.value)
  {
    if n.manager.proposed.Some? {
      var c :| c in n.casts && c.reason == ByProposal(n.manager.proposed.value);
      assert c in n'.casts;
    }
  }

  lemma FinalizeKeepsLock(cfg: Config, s: System, n: Node, step: Step)
    requires Invariant(cfg, s) && SystemLocks(cfg, s) && cfg.committee.MostlyHonest(cfg.honest)
    requires LockInvariant(cfg, s.votes, n) && step.Finalize? && NodeEnabled(cfg, s.votes, n.manager, step)
    ensures LockInvariant(cfg, s.votes, StepNode(cfg, n, step))
  {
    CertificatesAreCertified(cfg, s.votes, step.certificate);
    ValidatedHeight(cfg, s, step.certificate.vote);
    CastsKeepProposal(n, StepNode(cfg, n, step));
  }

  lemma TimeoutsKeepLock(cfg: Config, votes: set<Signature>, n: Node, step: Step)
    requires LockInvariant(cfg, votes, n) && (step.ReceiveTimeout? || step.RequestTimeout? || step.RequestFallback?)
    ensures LockInvariant(cfg, votes, StepNode(cfg, n, step))
  {
    CastsKeepProposal(n, StepNode(cfg, n, step));
  }

  lemma StepKeepsLock(cfg: Config, s: System, step: Step)
    requires Invariant(cfg, s) && SystemLocks(cfg, s) && cfg.committee.MostlyHonest(cfg.honest)
    requires Enabled(cfg, s, step) && !step.Forge?
    ensures LockInvariant(cfg, s.votes, StepNode(cfg, s.nodes[step.v], step))
  {
    var n := s.nodes[step.v];
    assert NodeInvariant(cfg, s.votes, step.v, n) && LockInvariant(cfg, s.votes, n);
    match step
    case Propose(_, _, _, _) => ProposeKeepsLock(cfg, s.votes, n, step);
    case Finalize(_, _, _) => FinalizeKeepsLock(cfg, s, n, step);
    case _ => TimeoutsKeepLock(cfg, s.votes, n, step);
  }

  lemma MovingKeepsLocks(cfg: Config, s: System, v: ValidatorName, n: Node, votes: set<Signature>)
    requires SystemLocks(cfg, s) && s.votes <= votes && LockInvariant(cfg, s.votes, n)
    ensures SystemLocks(cfg, System(s.nodes[v := n], votes))
  {
    var s' := System(s.nodes[v := n], votes);
    forall w | w in s'.nodes ensures LockInvariant(cfg, votes, s'.nodes[w]) {
      if w != v {
        assert LockInvariant(cfg, s.votes, s.nodes[w]);
      }
      LocksStay(cfg, s.votes, votes, s'.nodes[w]);
    }
  }

  lemma ForgingKeepsLocks(cfg: Config, s: System, vote: Signature)
    requires SystemLocks(cfg, s)
    ensures SystemLocks(cfg, s.(votes := s.votes + {vote}))
  {
    forall w | w in s.nodes ensures LockInvariant(cfg, s.votes + {vote}, s.nodes[w]) {
      LocksStay(cfg, s.votes, s.votes + {vote}, s.nodes[w]);
    }
  }

  lemma ApplyKeepsLocks(cfg: Config, s: System, step: Step)
    requires Invariant(cfg, s) && SystemLocks(cfg, s) && cfg.committee.MostlyHonest(cfg.honest)
    requires Enabled(cfg, s, step)
    ensures SystemLocks(cfg, Apply(cfg, s, step))
  {
    if step.Forge? {
      ForgingKeepsLocks(cfg, s, step.vote);
    } else {
      StepKeepsLock(cfg, s, step);
      MovingKeepsLocks(cfg, s, step.v, StepNode(cfg, s.nodes[step.v], step), Apply(cfg, s, step).votes);
    }
  }

  lemma NextKeepsLocks(cfg: Config, s: System, s': System)
    requires Invariant(cfg, s) && SystemLocks(cfg, s) && cfg.committee.MostlyHonest(cfg.honest)
    requires Next(cfg, s, s')
    ensures SystemLocks(cfg, s')
  {
    var step :| Enabled(cfg, s, step) && s' == Apply(cfg, s, step);
    ApplyKeepsLocks(cfg, s, step);
  }

  lemma StartHasLocks(cfg: Config, s: System)
    requires Init(cfg, s)
    ensures SystemLocks(cfg, s)
  {}

  lemma RunStepKeepsLocks(cfg: Config, run: seq<System>, k: nat)
    requires IsRun(cfg, run) && k + 1 < |run| && SystemLocks(cfg, run[k])
    ensures SystemLocks(cfg, run[k + 1])
  {
    assert StepsAt(cfg, run, k);
    RunKeepsInvariant(cfg, run, k);
    NextKeepsLocks(cfg, run[k], run[k + 1]);
  }

  lemma {:induction false} RunKeepsLocks(cfg: Config, run: seq<System>, k: nat)
    requires IsRun(cfg, run) && k < |run|
    ensures SystemLocks(cfg, run[k])
  {
    if k == 0 {
      StartHasLocks(cfg, run[0]);
    } else {
      RunKeepsLocks(cfg, run, k - 1);
      RunStepKeepsLocks(cfg, run, k - 1);
    }
  }

  // ----- The proposal -----

  lemma LastHasLocks(cfg: Config, run: seq<System>)
    requires IsRun(cfg, run)
    ensures SystemLocks(cfg, Last(run))
  {
    RunKeepsLocks(cfg, run, |run| - 1);
  }

  lemma LastHasLock(cfg: Config, run: seq<System>, v: ValidatorName)
    requires IsRun(cfg, run) && v in cfg.honest
    ensures v in Last(run).nodes && LockInvariant(cfg, Last(run).votes, Last(run).nodes[v])
  {
    LastIsHonest(cfg, run);
    LastHasLocks(cfg, run);
  }

  // ----- A proposal that everyone accepts -----

  predicate NoLaterLock(m: Manager, cert: Option<Certificate>) {
    m.locked.Some? ==> cert.Some? && Rank(m.locked.value.vote.round) <= Rank(cert.value.vote.round)
  }

  /** The most recent lock among some validators. */
  lemma {:induction false} HighestLock(s: System, names: set<ValidatorName>) returns (cert: Option<Certificate>)
    requires names <= s.nodes.Keys
    ensures forall v | v in names :: NoLaterLock(s.nodes[v].manager, cert)
    ensures cert.Some? ==> exists v :: v in names && s.nodes[v].manager.locked == cert
    decreases names
  {
    if names == {} {
      cert := None;
    } else {
      var v :| v in names;
      cert := HighestLock(s, names - {v});
      var locked := s.nodes[v].manager.locked;
      if locked.Some? && (cert.None? || Rank(cert.value.vote.round) < Rank(locked.value.vote.round)) {
        forall w | w in names ensures NoLaterLock(s.nodes[w].manager, locked) {
          assert w != v ==> NoLaterLock(s.nodes[w].manager, cert);
        }
        cert := locked;
      }
    }
  }

  /** A proposal for the locked block, or for a new one if there is no lock. */
  function Retry(e: ExecutedBlock, r: Round, owner: Owner, cert: Option<Certificate>): BlockProposal {
    BlockProposal(ProposalContent(e.block, r, if cert.Some? then Some(e.outcome) else None), owner, cert)
  }

  /** The owner may propose in the round: any owner in cooperative mode, else the leader. */
  predicate MayPropose(cfg: Config, r: Round, owner: Owner) {
    !r.Fast? && if r.MultiLeader? then owner in cfg.ownership.owners else r in cfg.leaders && cfg.leaders[r] == owner
  }

  /** The certificate is a lock on the block whose next round is not above the round of the proposal. */
  predicate Carries(cfg: Config, votes: set<Signature>, cert: Option<Certificate>, e: ExecutedBlock, r: Round) {
    && e.block.height < U64_MAX
    && (cert.Some? ==>
          && IsLock(cfg, votes, cert.value) && cert.value.vote.value == Executed(e)
          && var next := cfg.ownership.NextRound(cert.value.vote.round);
             next.Some? && Rank(next.value) <= Rank(r))
  }

  /** The round is expected: it is current, it may be entered at any time, or it follows the certificate. */
  predicate Expects(cfg: Config, m: Manager, r: Round, cert: Option<Certificate>) {
    || m.currentRound == r
    || (Rank(m.currentRound) < Rank(r) <= Rank(SingleLeader(0)))
    || (Rank(m.currentRound) < Rank(r) && cert.Some? && cfg.ownership.NextRound(cert.value.vote.round) == Some(r))
  }

  lemma ExpectedIsReached(cfg: Config, m: Manager, p: BlockProposal)
    requires ManagerInvariant(cfg, m) && cfg.ownership.superOwners == map[]
    requires Expects(cfg, m, p.content.round, p.validatedBlockCertificate)
    requires p.validatedBlockCertificate.Some? ==>
               var next := cfg.ownership.NextRound(p.validatedBlockCertificate.value.vote.round);
               next.Some? && Rank(next.value) <= Rank(p.content.round)
    ensures m.ExpectedRound(p).Some? && !m.ExpectedRound(p).value.Fast?
    ensures Rank(m.ExpectedRound(p).value) <= Rank(p.content.round)
    ensures Rank(p.content.round) > Rank(SingleLeader(0)) ==> m.ExpectedRound(p).value == p.content.round
  {
    RankEmbedsTheDerivedOrder(m.ExpectedRound(p).value, p.content.round);
  }

  /** An honest validator accepts the proposal if the round is expected, not used yet, and no lock is in the way. */
  lemma RetryIsAccepted(cfg: Config, votes: set<Signature>, v: ValidatorName, n: Node, e: ExecutedBlock, r: Round,
                        owner: Owner, cert: Option<Certificate>, time: Timestamp)
    requires ManagerInvariant(cfg, n.manager) && LockInvariant(cfg, votes, n)
    requires cfg.ownership.superOwners == map[] && MayPropose(cfg, r, owner) && Carries(cfg, votes, cert, e, r)
    requires Expects(cfg, n.manager, r, cert) && NoLaterLock(n.manager, cert)
    requires n.manager.proposed.Some? ==> Rank(n.manager.proposed.value.content.round) < Rank(r)
    ensures NodeEnabled(cfg, votes, n.manager, Propose(v, Retry(e, r, owner, cert), e, time))
  {
    ExpectedIsReached(cfg, n.manager, Retry(e, r, owner, cert));
  }

  /** A cooperative round above the current one is open. */
  lemma HigherRoundIsOpen(cfg: Config, m: Manager, r: Round)
    requires ManagerInvariant(cfg, m) && Rank(m.currentRound) < Rank(r) <= Rank(SingleLeader(0))
    ensures IsOpen(m, r)
  {}

  /** The most recent lock, and the block to propose with it. */
  lemma BlockToPropose(cfg: Config, s: System, proposed: ExecutedBlock, r: Round)
    returns (cert: Option<Certificate>, e: ExecutedBlock)
    requires SystemLocks(cfg, s) && proposed.block.height < U64_MAX && AllOpen(cfg, s, r)
    requires cfg.ownership.Configured(r) || forall v | v in s.nodes :: s.nodes[v].manager.locked.None?
    ensures Carries(cfg, s.votes, cert, e, r) && forall v | v in s.nodes :: NoLaterLock(s.nodes[v].manager, cert)
    ensures (forall v | v in s.nodes :: s.nodes[v].manager.locked.None?) ==> e == proposed
  {
    cert := HighestLock(s, s.nodes.Keys);
    e := proposed;
    if cert.Some? {
      var v :| v in s.nodes.Keys && s.nodes[v].manager.locked == cert;
      assert LockInvariant(cfg, s.votes, s.nodes[v]) && IsOpen(s.nodes[v].manager, r);
      var q := cert.value.vote.round;
      RankEmbedsTheDerivedOrder(q, r);
      NextRoundIsTheSuccessor(cfg.ownership, q, r);
      RankEmbedsTheDerivedOrder(r, cfg.ownership.NextRound(q).value);
      e := cert.value.vote.value.executed;
    }
  }

  lemma EveryoneAccepts(cfg: Config, s: System, e: ExecutedBlock, r: Round, owner: Owner, cert: Option<Certificate>)
    requires Invariant(cfg, s) && SystemLocks(cfg, s) && cfg.ownership.superOwners == map[]
    requires MayPropose(cfg, r, owner) && Carries(cfg, s.votes, cert, e, r) && AllOpen(cfg, s, r)
    requires forall v | v in s.nodes :: NoLaterLock(s.nodes[v].manager, cert)
    ensures AllBefore(cfg, Proposing(Retry(e, r, owner, cert), e), s)
  {
    var p := Retry(e, r, owner, cert);
    forall v | v in s.nodes ensures Before(cfg, Proposing(p, e), s.votes, v, s.nodes[v].manager) {
      assert NodeInvariant(cfg, s.votes, v, s.nodes[v]) && LockInvariant(cfg, s.votes, s.nodes[v]);
      assert NoLaterLock(s.nodes[v].manager, cert) && IsOpen(s.nodes[v].manager, r);
      RetryIsAccepted(cfg, s.votes, v, s.nodes[v], e, r, owner, cert, U64_MAX);
    }
  }

  /**
   * If a round is open to all honest validators, a block can be confirmed in it: the given block,
   * unless some honest validator is locked on another one. With a lock, the round must be a
   * configured one, because the proposal has to reach the round after the lock.
   */
  lemma OpenRoundCanConfirm(cfg: Config, run: seq<System>, proposed: ExecutedBlock, r: Round, owner: Owner)
    returns (run': seq<System>, e: ExecutedBlock)
    requires IsRun(cfg, run) && cfg.ownership.superOwners == map[]
    requires MayPropose(cfg, r, owner) && proposed.block.height < U64_MAX && AllOpen(cfg, Last(run), r)
    requires cfg.ownership.Configured(r) || forall v | v in Last(run).nodes :: Last(run).nodes[v].manager.locked.None?
    ensures IsRun(cfg, run') && run <= run'
    ensures Certified(cfg, Last(run').votes, VoteValue(Executed(e), r, ConfirmedBlocks))
    ensures (forall v | v in Last(run).nodes :: Last(run).nodes[v].manager.locked.None?) ==> e == proposed
  {
    var s := Last(run);
    LastHasInvariant(cfg, run);
    LastHasLocks(cfg, run);
    var cert;
    cert, e := BlockToPropose(cfg, s, proposed, r);
    EveryoneAccepts(cfg, s, e, r, owner, cert);
    run' := AcceptedIsConfirmed(cfg, run, Retry(e, r, owner, cert), e);
  }

  // ----- Bringing everyone to the same round -----

  /** The rounds for which the protocol samples a leader: owners lead the single-leader rounds. */
  predicate IsSampled(o: ChainOwnership, r: Round) {
    r.Validator? || (r.SingleLeader? && o.owners != map[])
  }

  ghost predicate HasLeaders(cfg: Config) {
    forall r | IsSampled(cfg.ownership, r) :: r in cfg.leaders
  }

  /** A chain on which the owners lead: it has owners, none of them super, and all leaders are sampled. */
  ghost predicate IsLedByOwners(cfg: Config) {
    cfg.ownership.superOwners == map[] && cfg.ownership.owners != map[] && HasLeaders(cfg)
  }

  /** The leader of a round from the first leader round on may propose in it. */
  lemma LeaderMayPropose(cfg: Config, r: Round) returns (owner: Owner)
    requires IsLedByOwners(cfg) && Rank(r) >= Rank(SingleLeader(0))
    ensures MayPropose(cfg, r, owner) && cfg.ownership.Configured(r)
  {
    assert IsSampled(cfg.ownership, r);
    owner := cfg.leaders[r];
  }

  lemma RoundBefore(o: ChainOwnership, p: Round, r: Round)
    requires o.NextRound(p) == Some(r) && Rank(r) > Rank(SingleLeader(0))
    ensures Rank(p) + 1 == Rank(r)
  {}

  /** The validators below a round, with everyone else in it. */
  ghost predicate Behind(cfg: Config, s: System, names: set<ValidatorName>, r: Round) {
    && s.nodes.Keys == cfg.honest && names <= s.nodes.Keys
    && forall v | v in s.nodes ::
         var m := s.nodes[v].manager;
         if v in names then Rank(m.currentRound) < Rank(r) else m.currentRound == r
  }

  lemma FollowTimeout(cfg: Config, run: seq<System>, names: set<ValidatorName>, p: Round, r: Round)
    returns (run': seq<System>)
    requires IsRun(cfg, run) && Behind(cfg, Last(run), names, r) && cfg.ownership.NextRound(p) == Some(r)
    requires Certified(cfg, Last(run).votes, TimeoutOf(cfg, p))
    ensures IsRun(cfg, run') && run <= run' && AllIn(cfg, Last(run'), r)
  {
    var cert := CertifiedHasCertificate(cfg, Last(run).votes, TimeoutOf(cfg, p));
    run' := Sweep(cfg, run, Receiving(cert), names);
    var s := Last(run');
    forall v | v in s.nodes ensures s.nodes[v].manager.currentRound == r {
      if v in names {
        assert After(cfg, Receiving(cert), s.votes, v, s.nodes[v].manager);
      }
    }
  }

  /** A proposal in the round, based on a block validated in the round before it. */
  lemma LaggardAccepts(cfg: Config, s: System, v: ValidatorName, cert: Certificate, e: ExecutedBlock, r: Round,
                       owner: Owner)
    requires Invariant(cfg, s) && SystemLocks(cfg, s) && cfg.ownership.superOwners == map[] && v in s.nodes
    requires IsLock(cfg, s.votes, cert) && cert.vote.value == Executed(e) && MayPropose(cfg, r, owner)
    requires cfg.ownership.NextRound(cert.vote.round) == Some(r) && Rank(r) > Rank(SingleLeader(0))
    requires Rank(s.nodes[v].manager.currentRound) < Rank(r)
    ensures Before(cfg, Proposing(Retry(e, r, owner, Some(cert)), e), s.votes, v, s.nodes[v].manager)
  {
    assert NodeInvariant(cfg, s.votes, v, s.nodes[v]) && LockInvariant(cfg, s.votes, s.nodes[v]);
    RoundBefore(cfg.ownership, cert.vote.round, r);
    NothingIsAhead(cfg, s.nodes[v].manager);
    RetryIsAccepted(cfg, s.votes, v, s.nodes[v], e, r, owner, Some(cert), U64_MAX);
  }

  lemma NothingIsAhead(cfg: Config, m: Manager)
    requires ManagerInvariant(cfg, m)
    ensures m.locked.Some? ==> Rank(m.locked.value.vote.round) <= Rank(m.currentRound)
    ensures m.proposed.Some? ==> Rank(m.proposed.value.content.round) <= Rank(m.currentRound)
  {}

  lemma FollowProposal(cfg: Config, run: seq<System>, names: set<ValidatorName>, p: Round, r: Round,
                       value: CertifiedValue, owner: Owner)
    returns (run': seq<System>)
    requires IsRun(cfg, run) && cfg.ownership.superOwners == map[] && Behind(cfg, Last(run), names, r)
    requires cfg.ownership.NextRound(p) == Some(r) && Rank(r) > Rank(SingleLeader(0)) && MayPropose(cfg, r, owner)
    requires Certified(cfg, Last(run).votes, VoteValue(value, p, ValidatedBlocks))
    ensures IsRun(cfg, run') && run <= run' && AllIn(cfg, Last(run'), r)
  {
    LastHasInvariant(cfg, run);
    LastHasLocks(cfg, run);
    ValidatedHeight(cfg, Last(run), VoteValue(value, p, ValidatedBlocks));
    var cert := CertifiedHasCertificate(cfg, Last(run).votes, VoteValue(value, p, ValidatedBlocks));
    var e := value.executed;
    var ph := Proposing(Retry(e, r, owner, Some(cert)), e);
    forall v | v in names ensures Before(cfg, ph, Last(run).votes, v, Last(run).nodes[v].manager) {
      LaggardAccepts(cfg, Last(run), v, cert, e, r, owner);
    }
    run' := Sweep(cfg, run, ph, names);
    var s := Last(run');
    forall v | v in s.nodes ensures s.nodes[v].manager.currentRound == r {
      if v in names {
        assert After(cfg, ph, s.votes, v, s.nodes[v].manager);
      }
    }
  }

  /** Everyone can follow to a leader round after the first one that some honest validator is in. */
  lemma FollowEarned(cfg: Config, run: seq<System>, names: set<ValidatorName>, top: ValidatorName, r: Round)
    returns (run': seq<System>)
    requires IsRun(cfg, run) && IsLedByOwners(cfg) && Rank(r) > Rank(SingleLeader(0))
    requires Behind(cfg, Last(run), names, r) && top in cfg.honest && top !in names
    ensures IsRun(cfg, run') && run <= run' && AllIn(cfg, Last(run'), r)
  {
    LeaderRoundsAreEarned(cfg, run, |run| - 1, top);
    var votes := Last(run).votes;
    assert MustBeEarned(cfg, r) && Earned(cfg, votes, r);
    var p :| cfg.ownership.NextRound(p) == Some(r) && Completed(cfg, votes, p);
    if Certified(cfg, votes, TimeoutOf(cfg, p)) {
      run' := FollowTimeout(cfg, run, names, p, r);
    } else {
      var value :| Certified(cfg, votes, VoteValue(value, p, ValidatedBlocks));
      var owner := LeaderMayPropose(cfg, r);
      run' := FollowProposal(cfg, run, names, p, r, value, owner);
    }
  }

  /** The lock of a validator can be proposed to it again in a configured round that is open to it. */
  lemma OwnLockCarries(cfg: Config, votes: set<Signature>, n: Node, r: Round) returns (e: ExecutedBlock)
    requires LockInvariant(cfg, votes, n) && IsOpen(n.manager, r) && cfg.ownership.Configured(r)
    ensures Carries(cfg, votes, n.manager.locked, e, r)
  {
    e := ExecutedBlock(Block(0, 0), 0);
    if n.manager.locked.Some? {
      var q := n.manager.locked.value.vote.round;
      e := n.manager.locked.value.vote.value.executed;
      RankEmbedsTheDerivedOrder(q, r);
      NextRoundIsTheSuccessor(cfg.ownership, q, r);
      RankEmbedsTheDerivedOrder(r, cfg.ownership.NextRound(q).value);
    }
  }

  /** The proposal that retries the lock of one validator in a round that is open to it. */
  lemma OwnRetry(cfg: Config, s: System, v: ValidatorName, r: Round, owner: Owner)
    returns (p: BlockProposal, e: ExecutedBlock)
    requires Invariant(cfg, s) && SystemLocks(cfg, s) && cfg.ownership.superOwners == map[] && v in s.nodes
    requires IsOpen(s.nodes[v].manager, r) && cfg.ownership.Configured(r) && MayPropose(cfg, r, owner)
    ensures Before(cfg, Proposing(p, e), s.votes, v, s.nodes[v].manager) && p.content.round == r
  {
    var n := s.nodes[v];
    assert NodeInvariant(cfg, s.votes, v, n) && LockInvariant(cfg, s.votes, n);
    e := OwnLockCarries(cfg, s.votes, n, r);
    p := Retry(e, r, owner, n.manager.locked);
    RetryIsAccepted(cfg, s.votes, v, n, e, r, owner, n.manager.locked, U64_MAX);
  }

  /** A validator can be brought to vote in a configured round that is open to it. */
  lemma Join(cfg: Config, run: seq<System>, v: ValidatorName, r: Round, owner: Owner)
    returns (run': seq<System>, p: BlockProposal, e: ExecutedBlock)
    requires IsRun(cfg, run) && cfg.ownership.superOwners == map[] && v in cfg.honest && v in Last(run).nodes
    requires IsOpen(Last(run).nodes[v].manager, r) && cfg.ownership.Configured(r) && MayPropose(cfg, r, owner)
    ensures IsRun(cfg, run') && run <= run' && OnlyMoved(Last(run), Last(run'), {v}) && p.content.round == r
    ensures HasProposed(Last(run').votes, v, Last(run').nodes[v].manager, p, e)
  {
    LastHasInvariant(cfg, run);
    LastHasLocks(cfg, run);
    p, e := OwnRetry(cfg, Last(run), v, r, owner);
    var s' := Advancing(cfg, run, Proposing(p, e), v);
    RunGrows(cfg, run, s');
    run' := run + [s'];
  }

  /** Validators to which a round is open can join it one after the other, each with its own lock. */
  lemma {:induction false} JoinAll(cfg: Config, run: seq<System>, names: set<ValidatorName>, r: Round, owner: Owner)
    returns (run': seq<System>)
    requires IsRun(cfg, run) && cfg.ownership.superOwners == map[]
    requires names <= cfg.honest && names <= Last(run).nodes.Keys
    requires cfg.ownership.Configured(r) && MayPropose(cfg, r, owner)
    requires forall v | v in names :: IsOpen(Last(run).nodes[v].manager, r)
    ensures IsRun(cfg, run') && run <= run' && OnlyMoved(Last(run), Last(run'), names)
    ensures forall v | v in names :: Last(run').nodes[v].manager.currentRound == r
    decreases names
  {
    if names == {} {
      run' := run;
    } else {
      var v :| v in names;
      var longer, p, e := Join(cfg, run, v, r, owner);
      run' := JoinAll(cfg, longer, names - {v}, r, owner);
    }
  }

  /** Everyone can enter the first leader round. */
  lemma JoinFirstLeaderRound(cfg: Config, run: seq<System>, names: set<ValidatorName>) returns (run': seq<System>)
    requires IsRun(cfg, run) && IsLedByOwners(cfg) && Behind(cfg, Last(run), names, SingleLeader(0))
    ensures IsRun(cfg, run') && run <= run' && AllIn(cfg, Last(run'), SingleLeader(0))
  {
    forall v | v in names ensures IsOpen(Last(run).nodes[v].manager, SingleLeader(0)) {
      LastHasNode(cfg, run, v);
      HigherRoundIsOpen(cfg, Last(run).nodes[v].manager, SingleLeader(0));
    }
    var owner := LeaderMayPropose(cfg, SingleLeader(0));
    run' := JoinAll(cfg, run, names, SingleLeader(0), owner);
  }

  /** Everyone can follow to a leader round that some honest validator is in. */
  lemma CatchUp(cfg: Config, run: seq<System>, names: set<ValidatorName>, top: ValidatorName, r: Round)
    returns (run': seq<System>)
    requires IsRun(cfg, run) && IsLedByOwners(cfg) && Rank(r) >= Rank(SingleLeader(0))
    requires Behind(cfg, Last(run), names, r) && top in cfg.honest && top !in names
    ensures IsRun(cfg, run') && run <= run' && AllIn(cfg, Last(run'), r)
  {
    if Rank(r) == Rank(SingleLeader(0)) {
      RankEmbedsTheDerivedOrder(r, SingleLeader(0));
      run' := JoinFirstLeaderRound(cfg, run, names);
    } else {
      run' := FollowEarned(cfg, run, names, top, r);
    }
  }

  // ----- Chains with owners -----

  ghost predicate BelowTheLastRound(s: System) {
    forall v | v in s.nodes :: s.nodes[v].manager.currentRound != LAST_ROUND
  }

  /** Some continuation of the run confirms a block. */
  ghost predicate CanConfirm(cfg: Config, run: seq<System>) {
    exists run', e, r :: IsRun(cfg, run') && run <= run'
        && Certified(cfg, Last(run').votes, VoteValue(Executed(e), r, ConfirmedBlocks))
  }

  lemma LongerRun(cfg: Config, run: seq<System>, run': seq<System>)
    requires run <= run' && CanConfirm(cfg, run')
    ensures CanConfirm(cfg, run)
  {}

  /** The highest current round of some validators. */
  lemma {:induction false} HighestRound(s: System, names: set<ValidatorName>) returns (v: ValidatorName)
    requires names <= s.nodes.Keys && names != {}
    ensures v in names
    ensures forall w | w in names :: Rank(s.nodes[w].manager.currentRound) <= Rank(s.nodes[v].manager.currentRound)
    decreases names
  {
    v :| v in names;
    if names != {v} {
      var w := HighestRound(s, names - {v});
      if Rank(s.nodes[v].manager.currentRound) < Rank(s.nodes[w].manager.currentRound) {
        v := w;
      }
    }
  }

  /** Those that are not in the highest round are behind it. */
  lemma OthersAreBehind(cfg: Config, s: System, top: ValidatorName) returns (names: set<ValidatorName>)
    requires s.nodes.Keys == cfg.honest && top in cfg.honest
    requires forall v | v in cfg.honest ::
             Rank(s.nodes[v].manager.currentRound) <= Rank(s.nodes[top].manager.currentRound)
    ensures Behind(cfg, s, names, s.nodes[top].manager.currentRound) && top !in names
  {
    var r := s.nodes[top].manager.currentRound;
    names := set v | v in cfg.honest && s.nodes[v].manager.currentRound != r;
    forall v | v in names ensures Rank(s.nodes[v].manager.currentRound) < Rank(r) {
      RankEmbedsTheDerivedOrder(s.nodes[v].manager.currentRound, r);
    }
  }

  /** A leader round that all honest validators are in can be left for the next one, unless it is the last. */
  lemma LeaveTogether(cfg: Config, run: seq<System>, r: Round) returns (run': seq<System>, next: Round)
    requires IsRun(cfg, run) && IsLedByOwners(cfg) && AllIn(cfg, Last(run), r)
    requires Rank(r) >= Rank(SingleLeader(0)) && r != LAST_ROUND
    ensures IsRun(cfg, run') && run <= run' && Rank(next) >= Rank(SingleLeader(0)) && AllOpen(cfg, Last(run'), next)
  {
    next := cfg.ownership.NextRound(r).value;
    run' := TimeOutAll(cfg, run, r);
  }

  lemma MeetAfterTimeout(cfg: Config, run: seq<System>, names: set<ValidatorName>, top: ValidatorName, highest: Round)
    returns (run': seq<System>, r: Round)
    requires IsRun(cfg, run) && IsLedByOwners(cfg) && top in cfg.honest && top !in names
    requires Behind(cfg, Last(run), names, highest) && Rank(highest) >= Rank(SingleLeader(0)) && highest != LAST_ROUND
    ensures IsRun(cfg, run') && run <= run' && Rank(r) >= Rank(SingleLeader(0)) && AllOpen(cfg, Last(run'), r)
  {
    var together := CatchUp(cfg, run, names, top, highest);
    run', r := LeaveTogether(cfg, together, highest);
  }

  /** All honest validators can come together in a leader round that is open to all of them. */
  lemma CanMeet(cfg: Config, run: seq<System>) returns (run': seq<System>, r: Round)
    requires IsRun(cfg, run) && IsLedByOwners(cfg) && BelowTheLastRound(Last(run))
    ensures IsRun(cfg, run') && run <= run' && Rank(r) >= Rank(SingleLeader(0)) && AllOpen(cfg, Last(run'), r)
  {
    LastIsHonest(cfg, run);
    var s := Last(run);
    var top := HighestRound(s, cfg.honest);
    if Rank(s.nodes[top].manager.currentRound) < Rank(SingleLeader(0)) {
      run', r := run, SingleLeader(0);
      forall v | v in s.nodes ensures IsOpen(s.nodes[v].manager, r) {
        LastHasNode(cfg, run, v);
        HigherRoundIsOpen(cfg, s.nodes[v].manager, r);
      }
    } else {
      var names := OthersAreBehind(cfg, s, top);
      run', r := MeetAfterTimeout(cfg, run, names, top, s.nodes[top].manager.currentRound);
    }
  }

  /**
   * On a chain with owners and without super owners, every run below the very last round can go
   * on to confirm a block, by timeouts and proposals alone.
   */
  lemma OwnersCanConfirm(cfg: Config, run: seq<System>)
    requires IsRun(cfg, run) && IsLedByOwners(cfg) && BelowTheLastRound(Last(run))
    ensures CanConfirm(cfg, run)
  {
    var together, r := CanMeet(cfg, run);
    var owner := LeaderMayPropose(cfg, r);
    var run', e := OpenRoundCanConfirm(cfg, together, ExecutedBlock(Block(0, 0), 0), r, owner);
    assert IsRun(cfg, run') && run <= run';
    assert Certified(cfg, Last(run').votes, VoteValue(Executed(e), r, ConfirmedBlocks));
  }
}
