/**
 * How a run can go on: phases in which every honest validator makes the same kind of step, one
 * after the other, and what they lead to.
 */
module Continuations {
  import opened Basics
  import opened Rounds
  import opened Committees
  import opened Certificates
  import opened ChainManagers
  import opened Consensus
  import opened ConsensusRecords

  function Last(run: seq<System>): System
    requires run != []
  {
    run[|run| - 1]
  }

  lemma LastHasInvariant(cfg: Config, run: seq<System>)
    requires IsRun(cfg, run)
    ensures Invariant(cfg, Last(run)) && Last(run).nodes.Keys == cfg.honest
  {
    RunKeepsInvariant(cfg, run, |run| - 1);
  }

  lemma LastHasRecord(cfg: Config, run: seq<System>, v: ValidatorName)
    requires IsRun(cfg, run) && v in cfg.honest
    ensures v in Last(run).nodes && RecordInvariant(Last(run).nodes[v])
  {
    RecordsAreExact(cfg, run, |run| - 1, v);
  }

  lemma LastHasNode(cfg: Config, run: seq<System>, v: ValidatorName)
    requires IsRun(cfg, run) && v in cfg.honest
    ensures v in Last(run).nodes && NodeInvariant(cfg, Last(run).votes, v, Last(run).nodes[v])
  {
    LastHasInvariant(cfg, run);
    NodeOf(cfg, Last(run), v);
  }

  lemma LastIsHonest(cfg: Config, run: seq<System>)
    requires IsRun(cfg, run)
    ensures Last(run).nodes.Keys == cfg.honest && cfg.honest != {}
  {
    LastHasInvariant(cfg, run);
    HonestIsQuorum(cfg.committee, cfg.honest);
  }

  lemma RunGrows(cfg: Config, run: seq<System>, s: System)
    requires IsRun(cfg, run) && Next(cfg, Last(run), s)
    ensures IsRun(cfg, run + [s])
  {
    var run' := run + [s];
    forall i | 0 <= i < |run'| - 1 ensures StepsAt(cfg, run', i) {
      if i < |run| - 1 {
        assert StepsAt(cfg, run, i) && run'[i] == run[i] && run'[i + 1] == run[i + 1];
      }
    }
  }

  /** All honest validators start at time zero. */
  function Start(cfg: Config): System {
    System(map v | v in cfg.honest :: Node(NewManager(cfg.ownership, cfg.leaders, 0), [],
        map[cfg.ownership.FirstRound() := 0]), {})
  }

  lemma StartIsInitial(cfg: Config)
    requires cfg.committee.MostlyHonest(cfg.honest)
    ensures Init(cfg, Start(cfg)) && IsRun(cfg, [Start(cfg)])
  {
    var s := Start(cfg);
    forall v | v in s.nodes ensures exists time: Timestamp ::
        s.nodes[v] == Node(NewManager(cfg.ownership, cfg.leaders, time), [], map[cfg.ownership.FirstRound() := time])
    {
      assert s.nodes[v] == Node(NewManager(cfg.ownership, cfg.leaders, 0), [], map[cfg.ownership.FirstRound() := 0]);
    }
  }

  // ----- Phases -----

  datatype Phase =
    | Proposing(proposal: BlockProposal, executed: ExecutedBlock)
    | Confirming(certificate: Certificate, executed: ExecutedBlock)
    | TimingOut(round: Round)
    | FallingBack
    | Receiving(certificate: Certificate)

  /** The steps happen at the latest time there is, so that the clock never runs backwards. */
  function StepOf(ph: Phase, v: ValidatorName): Step {
    match ph
    case Proposing(p, e) => Propose(v, p, e, U64_MAX)
    case Confirming(cert, _) => Finalize(v, cert, U64_MAX)
    case TimingOut(_) => RequestTimeout(v, U64_MAX)
    case FallingBack => RequestFallback(v, U64_MAX)
    case Receiving(cert) => ReceiveTimeout(v, cert, U64_MAX)
  }

  function TimeoutOf(cfg: Config, r: Round): VoteValue {
    VoteValue(cfg.timeoutValue, r, Timeouts)
  }

  /** The vote that an accepted proposal leads to. */
  function VoteFor(e: ExecutedBlock, r: Round): VoteValue {
    VoteValue(Executed(e), r, if r.Fast? then ConfirmedBlocks else ValidatedBlocks)
  }

  /** The round is current or can be entered from a lower one, and nothing has happened in it yet. */
  predicate IsOpen(m: Manager, r: Round) {
    && (m.currentRound == r || (Rank(m.currentRound) < Rank(r) <= Rank(SingleLeader(0))))
    && (m.proposed.Some? ==> Rank(m.proposed.value.content.round) < Rank(r))
    && (m.locked.Some? ==> Rank(m.locked.value.vote.round) < Rank(r))
  }

  /** The validator has voted for the proposal, and is not locked in its round yet. */
  predicate HasProposed(votes: set<Signature>, v: ValidatorName, m: Manager, p: BlockProposal, e: ExecutedBlock) {
    var r := p.content.round;
    && Signature(v, VoteFor(e, r)) in votes
    && m.proposed == Some(p) && m.currentRound == r
    && (m.locked.Some? ==> p.validatedBlockCertificate.Some? && Rank(m.locked.value.vote.round) < Rank(r))
    && (!r.Fast? ==> m.confirmedVote.None? && m.validatedVote == Some(Signature(v, VoteFor(e, r))))
  }

  /** Nothing keeps the validator from confirming a block validated in its current round. */
  predicate MayConfirm(m: Manager, r: Round) {
    && m.currentRound == r
    && (m.locked.Some? ==> Rank(m.locked.value.vote.round) < Rank(r))
    && (m.validatedVote.Some? ==> Rank(m.validatedVote.value.statement.round) <= Rank(r))
    && (m.confirmedVote.Some? ==> Rank(m.confirmedVote.value.statement.round) < Rank(r))
  }

  predicate Before(cfg: Config, ph: Phase, votes: set<Signature>, v: ValidatorName, m: Manager) {
    match ph
    case Proposing(p, e) => NodeEnabled(cfg, votes, m, Propose(v, p, e, U64_MAX))
    case Confirming(cert, e) =>
      && Received(cfg, votes, cert) && MayConfirm(m, cert.vote.round)
      && cert.vote == VoteValue(Executed(e), cert.vote.round, ValidatedBlocks)
    case TimingOut(r) => m.currentRound == r && cfg.ownership.owners != map[] && cfg.ownership.RoundTimeout(r).Some?
    case FallingBack => HasWaited(cfg, v, U64_MAX) && Rank(m.currentRound) < Rank(Validator(0))
    case Receiving(cert) =>
      && Received(cfg, votes, cert) && cert.vote == TimeoutOf(cfg, cert.vote.round)
      && cfg.ownership.NextRound(cert.vote.round).Some?
      && Rank(m.currentRound) < Rank(cfg.ownership.NextRound(cert.vote.round).value)
  }

  predicate After(cfg: Config, ph: Phase, votes: set<Signature>, v: ValidatorName, m: Manager) {
    match ph
    case Proposing(p, e) => HasProposed(votes, v, m, p, e)
    case Confirming(cert, e) => Signature(v, VoteValue(Executed(e), cert.vote.round, ConfirmedBlocks)) in votes
    case TimingOut(r) => m.currentRound == r && Signature(v, TimeoutOf(cfg, r)) in votes
    case FallingBack =>
      Rank(m.currentRound) < Rank(Validator(0)) && Signature(v, TimeoutOf(cfg, SingleLeader(U32_MAX))) in votes
    case Receiving(cert) =>
      var next := cfg.ownership.NextRound(cert.vote.round);
      next.Some? && m.currentRound == next.value && IsOpen(m, next.value)
  }

  lemma MoreVotes(cfg: Config, ph: Phase, votes: set<Signature>, votes': set<Signature>, v: ValidatorName, m: Manager)
    requires votes <= votes'
    ensures Before(cfg, ph, votes, v, m) ==> Before(cfg, ph, votes', v, m)
    ensures After(cfg, ph, votes, v, m) ==> After(cfg, ph, votes', v, m)
  {}

  // ----- One validator -----

  lemma {:induction false} LatestIsCast(casts: seq<Cast>, slot: Slot) returns (c: Cast)
    requires Latest(casts, slot).Some?
    ensures c in casts && SlotOf(c) == slot && Latest(casts, slot) == Some(c.vote)
  {
    c := casts[|casts| - 1];
    if SlotOf(c) != slot {
      c := LatestIsCast(casts[..|casts| - 1], slot);
    }
  }

  lemma SlotIsJustified(cfg: Config, votes: set<Signature>, v: ValidatorName, n: Node, slot: Slot) returns (c: Cast)
    requires NodeInvariant(cfg, votes, v, n) && Latest(n.casts, slot).Some?
    ensures c in n.casts && SlotOf(c) == slot && Latest(n.casts, slot) == Some(c.vote)
    ensures Justified(cfg, votes, v, c)
  {
    c := LatestIsCast(n.casts, slot);
  }

  /** A step of one validator, and what its manager and the votes are afterwards. */
  predicate Performed(cfg: Config, ph: Phase, s: System, v: ValidatorName)
    requires v in s.nodes
  {
    var n, step := s.nodes[v], StepOf(ph, v);
    && NodeEnabled(cfg, s.votes, n.manager, step)
    && var n' := StepNode(cfg, n, step);
       After(cfg, ph, s.votes + (set c | c in n'.casts :: c.vote), v, n'.manager)
  }

  lemma NewVoteIsThere(n: Node, c: Cast, votes: set<Signature>)
    ensures c.vote in votes + set x | x in n.casts + [c] :: x.vote
  {
    assert c in n.casts + [c];
  }

  lemma LockIsBelow(m: Manager, p: BlockProposal)
    requires SafeProposal(m, p)
    ensures m.locked.Some? ==>
              && p.validatedBlockCertificate.Some?
              && Rank(m.locked.value.vote.round) < Rank(p.content.round)
  {}

  lemma PerformProposal(cfg: Config, ph: Phase, s: System, v: ValidatorName)
    requires ph.Proposing? && v in s.nodes && ManagerInvariant(cfg, s.nodes[v].manager)
    requires Before(cfg, ph, s.votes, v, s.nodes[v].manager)
    ensures Performed(cfg, ph, s, v)
  {
    var n, step, p := s.nodes[v], StepOf(ph, v), ph.proposal;
    AcceptedProposalIsSafe(n.manager, p);
    SafeProposalTakesEffect(n.manager, p, ph.executed, Some(v), U64_MAX);
    ProposalMoves(cfg, s.votes, n.manager, step);
    LockIsBelow(n.manager, p);
    NewVoteIsThere(n, Cast(Signature(v, VoteFor(ph.executed, p.content.round)), ByProposal(p)), s.votes);
  }

  lemma PerformConfirmation(cfg: Config, ph: Phase, s: System, v: ValidatorName)
    requires ph.Confirming? && v in s.nodes && Before(cfg, ph, s.votes, v, s.nodes[v].manager)
    ensures Performed(cfg, ph, s, v)
  {
    var n, cert := s.nodes[v], ph.certificate;
    assert n.manager.CheckValidatedBlock(cert) == Ok(Accept);
    var vote := Signature(v, VoteValue(Executed(ph.executed), cert.vote.round, ConfirmedBlocks));
    NewVoteIsThere(n, Cast(vote, ByCertificate(cert)), s.votes);
  }

  lemma PerformTimeout(cfg: Config, ph: Phase, s: System, v: ValidatorName)
    requires ph.TimingOut? && v in s.nodes && Before(cfg, ph, s.votes, v, s.nodes[v].manager)
    requires NodeInvariant(cfg, s.votes, v, s.nodes[v]) && RecordInvariant(s.nodes[v])
    ensures Performed(cfg, ph, s, v)
  {
    var n, r := s.nodes[v], ph.round;
    if n.manager.timeoutVote.Some? && n.manager.timeoutVote.value.statement.round == r {
      var c := SlotIsJustified(cfg, s.votes, v, n, TimeoutSlot);
    } else {
      NewVoteIsThere(n, Cast(Signature(v, TimeoutOf(cfg, r)), ByLeaderTimeout(U64_MAX)), s.votes);
    }
  }

  lemma PerformFallback(cfg: Config, ph: Phase, s: System, v: ValidatorName)
    requires ph.FallingBack? && v in s.nodes && Before(cfg, ph, s.votes, v, s.nodes[v].manager)
    requires NodeInvariant(cfg, s.votes, v, s.nodes[v]) && RecordInvariant(s.nodes[v])
    ensures Performed(cfg, ph, s, v)
  {
    var n := s.nodes[v];
    if n.manager.fallbackVote.Some? {
      var c := SlotIsJustified(cfg, s.votes, v, n, FallbackSlot);
      assert c.reason.ByFallback?;
      assert c.vote.statement == TimeoutOf(cfg, SingleLeader(U32_MAX));
      assert c.vote == Signature(v, TimeoutOf(cfg, SingleLeader(U32_MAX)));
    } else {
      NewVoteIsThere(n, Cast(Signature(v, TimeoutOf(cfg, SingleLeader(U32_MAX))), ByFallback(U64_MAX)), s.votes);
    }
  }

  lemma PerformReceipt(cfg: Config, ph: Phase, s: System, v: ValidatorName)
    requires ph.Receiving? && v in s.nodes && Before(cfg, ph, s.votes, v, s.nodes[v].manager)
    requires ManagerInvariant(cfg, s.nodes[v].manager)
    ensures Performed(cfg, ph, s, v)
  {
    var m, cert := s.nodes[v].manager, ph.certificate;
    var next := cfg.ownership.NextRound(cert.vote.round).value;
    if m.timeout.Some? && Rank(m.timeout.value.vote.round) >= Rank(cert.vote.round) {
      NextRoundIsTheSuccessor(cfg.ownership, m.timeout.value.vote.round, Fast);
      if cfg.ownership.NextRound(m.timeout.value.vote.round).Some? {
        NextRoundIsMonotone(cfg.ownership, cert.vote.round, m.timeout.value.vote.round);
      }
    } else {
      RankEmbedsTheDerivedOrder(m.(timeout := Some(cert)).TargetRound(), next);
    }
  }

  lemma Perform(cfg: Config, ph: Phase, s: System, v: ValidatorName)
    requires v in s.nodes && Before(cfg, ph, s.votes, v, s.nodes[v].manager)
    requires NodeInvariant(cfg, s.votes, v, s.nodes[v]) && RecordInvariant(s.nodes[v])
    ensures Performed(cfg, ph, s, v)
  {
    match ph
    case Proposing(_, _) => PerformProposal(cfg, ph, s, v);
    case Confirming(_, _) => PerformConfirmation(cfg, ph, s, v);
    case TimingOut(_) => PerformTimeout(cfg, ph, s, v);
    case FallingBack => PerformFallback(cfg, ph, s, v);
    case Receiving(_) => PerformReceipt(cfg, ph, s, v);
  }

  // ----- All of them -----

  /** Only some validators have changed, and votes were only added. */
  predicate OnlyMoved(s: System, s': System, names: set<ValidatorName>) {
    && s'.nodes.Keys == s.nodes.Keys && s.votes <= s'.votes
    && forall w | w in s.nodes && w !in names :: s'.nodes[w] == s.nodes[w]
  }

  lemma Advancing(cfg: Config, run: seq<System>, ph: Phase, v: ValidatorName) returns (s': System)
    requires IsRun(cfg, run) && v in cfg.honest && v in Last(run).nodes
    requires Before(cfg, ph, Last(run).votes, v, Last(run).nodes[v].manager)
    ensures Next(cfg, Last(run), s') && OnlyMoved(Last(run), s', {v})
    ensures v in s'.nodes && After(cfg, ph, s'.votes, v, s'.nodes[v].manager)
  {
    LastHasNode(cfg, run, v);
    LastHasRecord(cfg, run, v);
    Perform(cfg, ph, Last(run), v);
    s' := ApplyPerformed(cfg, Last(run), ph, v);
  }

  lemma ApplyPerformed(cfg: Config, s: System, ph: Phase, v: ValidatorName) returns (s': System)
    requires v in s.nodes && Performed(cfg, ph, s, v)
    ensures Next(cfg, s, s') && OnlyMoved(s, s', {v})
    ensures v in s'.nodes && After(cfg, ph, s'.votes, v, s'.nodes[v].manager)
  {
    var step := StepOf(ph, v);
    assert Enabled(cfg, s, step);
    s' := Apply(cfg, s, step);
  }

  lemma SweepOne(cfg: Config, run: seq<System>, ph: Phase, todo: set<ValidatorName>, v: ValidatorName)
    returns (run': seq<System>)
    requires IsRun(cfg, run) && todo <= cfg.honest && todo <= Last(run).nodes.Keys && v in todo
    requires forall w | w in todo :: Before(cfg, ph, Last(run).votes, w, Last(run).nodes[w].manager)
    ensures IsRun(cfg, run') && run <= run' && OnlyMoved(Last(run), Last(run'), {v})
    ensures After(cfg, ph, Last(run').votes, v, Last(run').nodes[v].manager)
    ensures forall w | w in todo - {v} :: Before(cfg, ph, Last(run').votes, w, Last(run').nodes[w].manager)
  {
    var s := Last(run);
    var s' := Advancing(cfg, run, ph, v);
    RunGrows(cfg, run, s');
    run' := run + [s'];
    forall w | w in todo - {v} ensures Before(cfg, ph, s'.votes, w, s'.nodes[w].manager) {
      MoreVotes(cfg, ph, s.votes, s'.votes, w, s.nodes[w].manager);
    }
  }

  /** A phase: the validators make their step one after the other. */
  lemma {:induction false} Sweep(cfg: Config, run: seq<System>, ph: Phase, todo: set<ValidatorName>)
    returns (run': seq<System>)
    requires IsRun(cfg, run) && todo <= cfg.honest && todo <= Last(run).nodes.Keys
    requires forall v | v in todo :: Before(cfg, ph, Last(run).votes, v, Last(run).nodes[v].manager)
    ensures IsRun(cfg, run') && run <= run' && OnlyMoved(Last(run), Last(run'), todo)
    ensures forall v | v in todo :: After(cfg, ph, Last(run').votes, v, Last(run').nodes[v].manager)
    decreases todo
  {
    if todo == {} {
      run' := run;
    } else {
      var v :| v in todo;
      var longer := SweepOne(cfg, run, ph, todo, v);
      run' := Sweep(cfg, longer, ph, todo - {v});
      MoreVotes(cfg, ph, Last(longer).votes, Last(run').votes, v, Last(longer).nodes[v].manager);
    }
  }

  // ----- What their votes make -----

  /** One signature of every validator that can sign. */
  lemma {:induction false} Collect(c: Committee, votes: set<Signature>, statement: VoteValue, names: set<ValidatorName>)
    returns (signatures: seq<Signed>)
    requires forall v | v in names :: c.Weight(v) > 0 && Signature(v, statement) in votes
    ensures Signers(signatures) == names && DistinctSigners(signatures)
    ensures forall x | x in signatures :: c.Weight(x.0) > 0 && SignatureChecks(x.1, statement, x.0) && x.1 in votes
    decreases names
  {
    if names == {} {
      signatures := [];
    } else {
      var v :| v in names;
      var others := Collect(c, votes, statement, names - {v});
      signatures := others + [(v, Signature(v, statement))];
      SignersGrow(signatures, |others|);
      assert signatures[..|others|] == others && signatures[..|others| + 1] == signatures;
    }
  }

  lemma OnlyMembersCount(c: Committee, names: set<ValidatorName>)
    ensures c.VotesOf(set v | v in names && c.Weight(v) > 0) == c.VotesOf(names)
  {
    var members := set v | v in names && c.Weight(v) > 0;
    VotesSplit(c, members, names - members);
    assert members + (names - members) == names;
    NoWeightNoVotes(c, names - members);
  }

  lemma {:induction false} NoWeightNoVotes(c: Committee, names: set<ValidatorName>)
    requires forall v | v in names :: c.Weight(v) == 0
    ensures c.VotesOf(names) == 0
    decreases names
  {
    if names != {} {
      var v :| v in names;
      VotesWithout(c, names, v);
      NoWeightNoVotes(c, names - {v});
    }
  }

  /** The votes of a quorum make a certificate. */
  lemma CertificateOfQuorum(cfg: Config, votes: set<Signature>, statement: VoteValue, names: set<ValidatorName>)
    returns (cert: Certificate)
    requires cfg.committee.IsQuorum(names) && forall v | v in names :: Signature(v, statement) in votes
    ensures Received(cfg, votes, cert) && cert.vote == statement
  {
    OnlyMembersCount(cfg.committee, names);
    var members := set v | v in names && cfg.committee.Weight(v) > 0;
    var signatures := Collect(cfg.committee, votes, statement, members);
    cert := Certificate(statement, signatures);
  }

  /** All honest validators have signed a statement. */
  predicate SignedByAll(cfg: Config, votes: set<Signature>, statement: VoteValue) {
    forall v | v in cfg.honest :: Signature(v, statement) in votes
  }

  lemma SignedByAllIsCertified(cfg: Config, votes: set<Signature>, statement: VoteValue) returns (cert: Certificate)
    requires cfg.committee.MostlyHonest(cfg.honest) && SignedByAll(cfg, votes, statement)
    ensures Certified(cfg, votes, statement) && Received(cfg, votes, cert) && cert.vote == statement
  {
    HonestIsQuorum(cfg.committee, cfg.honest);
    cert := CertificateOfQuorum(cfg, votes, statement, cfg.honest);
    CertificatesAreCertified(cfg, votes, cert);
  }

  lemma CertifiedHasCertificate(cfg: Config, votes: set<Signature>, statement: VoteValue) returns (cert: Certificate)
    requires Certified(cfg, votes, statement)
    ensures Received(cfg, votes, cert) && cert.vote == statement
  {
    forall v | v in Voters(votes, statement) ensures Signature(v, statement) in votes {
      var x :| x in votes && x.statement == statement && x.signer == v;
      assert x == Signature(v, statement);
    }
    cert := CertificateOfQuorum(cfg, votes, statement, Voters(votes, statement));
  }

  /** Every honest validator is ready for a phase. */
  ghost predicate AllBefore(cfg: Config, ph: Phase, s: System) {
    s.nodes.Keys == cfg.honest && forall v | v in s.nodes :: Before(cfg, ph, s.votes, v, s.nodes[v].manager)
  }

  ghost predicate AllAfter(cfg: Config, ph: Phase, s: System) {
    s.nodes.Keys == cfg.honest && forall v | v in s.nodes :: After(cfg, ph, s.votes, v, s.nodes[v].manager)
  }

  lemma SweepAll(cfg: Config, run: seq<System>, ph: Phase) returns (run': seq<System>)
    requires IsRun(cfg, run) && AllBefore(cfg, ph, Last(run))
    ensures IsRun(cfg, run') && run <= run' && Last(run).votes <= Last(run').votes && AllAfter(cfg, ph, Last(run'))
  {
    run' := Sweep(cfg, run, ph, cfg.honest);
  }

  /** A proposal outside the fast round that every honest validator accepts can be confirmed. */
  lemma AcceptedIsConfirmed(cfg: Config, run: seq<System>, p: BlockProposal, e: ExecutedBlock)
    returns (run': seq<System>)
    requires IsRun(cfg, run) && AllBefore(cfg, Proposing(p, e), Last(run)) && !p.content.round.Fast?
    ensures IsRun(cfg, run') && run <= run' && Last(run).votes <= Last(run').votes
    ensures Certified(cfg, Last(run').votes, VoteValue(Executed(e), p.content.round, ConfirmedBlocks))
  {
    var r := p.content.round;
    var validated := SweepAll(cfg, run, Proposing(p, e));
    var s := Last(validated);
    AllHaveVoted(cfg, s, p, e);
    var cert := SignedByAllIsCertified(cfg, s.votes, VoteFor(e, r));
    AllMayConfirm(cfg, s, p, e, cert);
    run' := SweepAll(cfg, validated, Confirming(cert, e));
    AllHaveConfirmed(cfg, Last(run'), cert, e);
    var _ := SignedByAllIsCertified(cfg, Last(run').votes, VoteValue(Executed(e), r, ConfirmedBlocks));
  }

  lemma AllHaveVoted(cfg: Config, s: System, p: BlockProposal, e: ExecutedBlock)
    requires AllAfter(cfg, Proposing(p, e), s)
    ensures SignedByAll(cfg, s.votes, VoteFor(e, p.content.round))
  {
    forall v | v in cfg.honest ensures Signature(v, VoteFor(e, p.content.round)) in s.votes {
      assert After(cfg, Proposing(p, e), s.votes, v, s.nodes[v].manager);
    }
  }

  lemma AllMayConfirm(cfg: Config, s: System, p: BlockProposal, e: ExecutedBlock, cert: Certificate)
    requires AllAfter(cfg, Proposing(p, e), s) && !p.content.round.Fast?
    requires Received(cfg, s.votes, cert) && cert.vote == VoteFor(e, p.content.round)
    ensures AllBefore(cfg, Confirming(cert, e), s)
  {
    forall v | v in s.nodes ensures Before(cfg, Confirming(cert, e), s.votes, v, s.nodes[v].manager) {
      assert After(cfg, Proposing(p, e), s.votes, v, s.nodes[v].manager);
    }
  }

  lemma AllHaveConfirmed(cfg: Config, s: System, cert: Certificate, e: ExecutedBlock)
    requires AllAfter(cfg, Confirming(cert, e), s)
    ensures SignedByAll(cfg, s.votes, VoteValue(Executed(e), cert.vote.round, ConfirmedBlocks))
  {
    forall v | v in cfg.honest
      ensures Signature(v, VoteValue(Executed(e), cert.vote.round, ConfirmedBlocks)) in s.votes
    {
      assert After(cfg, Confirming(cert, e), s.votes, v, s.nodes[v].manager);
    }
  }

  // ----- Moving to another round -----

  /** All honest validators are in a round. */
  ghost predicate AllIn(cfg: Config, s: System, r: Round) {
    s.nodes.Keys == cfg.honest && forall v | v in s.nodes :: s.nodes[v].manager.currentRound == r
  }

  /** The round is open to all honest validators. */
  ghost predicate AllOpen(cfg: Config, s: System, r: Round) {
    s.nodes.Keys == cfg.honest && forall v | v in s.nodes :: IsOpen(s.nodes[v].manager, r)
  }

  /** With a certificate for the timeout of a round, all validators below the next one move there. */
  lemma ReceiveAll(cfg: Config, run: seq<System>, cert: Certificate) returns (run': seq<System>)
    requires IsRun(cfg, run) && AllBefore(cfg, Receiving(cert), Last(run))
    ensures IsRun(cfg, run') && run <= run' && cfg.ownership.NextRound(cert.vote.round).Some?
    ensures var next := cfg.ownership.NextRound(cert.vote.round).value;
            AllIn(cfg, Last(run'), next) && AllOpen(cfg, Last(run'), next)
  {
    LastIsHonest(cfg, run);
    var v :| v in cfg.honest;
    assert Before(cfg, Receiving(cert), Last(run).votes, v, Last(run).nodes[v].manager);
    run' := SweepAll(cfg, run, Receiving(cert));
    var s, next := Last(run'), cfg.ownership.NextRound(cert.vote.round).value;
    forall w | w in s.nodes ensures s.nodes[w].manager.currentRound == next && IsOpen(s.nodes[w].manager, next) {
      assert After(cfg, Receiving(cert), s.votes, w, s.nodes[w].manager);
    }
  }

  /** All honest validators have signed the timeout of a round, and are still below the next one. */
  ghost predicate AllTimedOut(cfg: Config, s: System, r: Round) {
    && s.nodes.Keys == cfg.honest && SignedByAll(cfg, s.votes, TimeoutOf(cfg, r))
    && cfg.ownership.NextRound(r).Some?
    && forall v | v in s.nodes :: Rank(s.nodes[v].manager.currentRound) < Rank(cfg.ownership.NextRound(r).value)
  }

  lemma LeaveAll(cfg: Config, run: seq<System>, r: Round) returns (run': seq<System>)
    requires IsRun(cfg, run) && AllTimedOut(cfg, Last(run), r)
    ensures IsRun(cfg, run') && run <= run'
    ensures AllIn(cfg, Last(run'), cfg.ownership.NextRound(r).value)
            && AllOpen(cfg, Last(run'), cfg.ownership.NextRound(r).value)
  {
    var cert := SignedByAllIsCertified(cfg, Last(run).votes, TimeoutOf(cfg, r));
    assert AllBefore(cfg, Receiving(cert), Last(run));
    run' := ReceiveAll(cfg, run, cert);
  }

  lemma TimedOutAll(cfg: Config, s: System, r: Round)
    requires AllAfter(cfg, TimingOut(r), s) && cfg.ownership.NextRound(r).Some?
    ensures AllTimedOut(cfg, s, r)
  {
    NextRoundIsTheSuccessor(cfg.ownership, r, Fast);
    RankEmbedsTheDerivedOrder(r, cfg.ownership.NextRound(r).value);
    forall v | v in s.nodes ensures Signature(v, TimeoutOf(cfg, r)) in s.votes && s.nodes[v].manager.currentRound == r {
      assert After(cfg, TimingOut(r), s.votes, v, s.nodes[v].manager);
    }
  }

  /** If all are in a round that can time out, they can all move to the next one. */
  lemma TimeOutAll(cfg: Config, run: seq<System>, r: Round) returns (run': seq<System>)
    requires IsRun(cfg, run) && AllIn(cfg, Last(run), r)
    requires cfg.ownership.owners != map[] && cfg.ownership.RoundTimeout(r).Some? && cfg.ownership.NextRound(r).Some?
    ensures IsRun(cfg, run') && run <= run'
    ensures AllIn(cfg, Last(run'), cfg.ownership.NextRound(r).value)
            && AllOpen(cfg, Last(run'), cfg.ownership.NextRound(r).value)
  {
    assert AllBefore(cfg, TimingOut(r), Last(run));
    var timedOut := SweepAll(cfg, run, TimingOut(r));
    TimedOutAll(cfg, Last(timedOut), r);
    run' := LeaveAll(cfg, timedOut, r);
  }

  lemma FallenBackAll(cfg: Config, s: System)
    requires AllAfter(cfg, FallingBack, s)
    ensures AllTimedOut(cfg, s, SingleLeader(U32_MAX))
  {
    var last := SingleLeader(U32_MAX);
    forall v | v in s.nodes ensures Signature(v, TimeoutOf(cfg, last)) in s.votes
                                    && Rank(s.nodes[v].manager.currentRound) < Rank(Validator(0)) {
      assert After(cfg, FallingBack, s.votes, v, s.nodes[v].manager);
    }
  }

  /**
   * If none is in a validator round yet, and each has seen an unskippable bundle that can wait for
   * the configured duration, all can fall back to the first validator round.
   */
  lemma FallBackAll(cfg: Config, run: seq<System>) returns (run': seq<System>)
    requires IsRun(cfg, run) && Last(run).nodes.Keys == cfg.honest
    requires forall v | v in cfg.honest :: HasWaited(cfg, v, U64_MAX)
    requires forall v | v in cfg.honest :: Rank(Last(run).nodes[v].manager.currentRound) < Rank(Validator(0))
    ensures IsRun(cfg, run') && run <= run' && AllIn(cfg, Last(run'), Validator(0))
            && AllOpen(cfg, Last(run'), Validator(0))
  {
    assert AllBefore(cfg, FallingBack, Last(run));
    var fallenBack := SweepAll(cfg, run, FallingBack);
    FallenBackAll(cfg, Last(fallenBack));
    run' := LeaveAll(cfg, fallenBack, SingleLeader(U32_MAX));
  }
}
