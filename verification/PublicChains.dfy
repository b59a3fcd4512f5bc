/**
 * Chains without any owner, where only the validators lead. There is no timeout to leave a round,
 * so a leader that sends every validator another block ends the chain, unless a single honest
 * validator can complete a quorum with the faulty ones.
 */
module PublicChains {
  import opened Basics
  import opened Rounds
  import opened Committees
  import opened Certificates
  import opened ChainManagers
  import opened Consensus
  import opened ConsensusRecords
  import opened Continuations
  import opened Progress
  import opened SuperOwners

  function Faulty(cfg: Config): set<ValidatorName> {
    cfg.committee.validators.Keys - cfg.honest
  }

  /** Whether one honest validator makes a quorum with the faulty ones. */
  predicate Pivotal(cfg: Config, v: ValidatorName) {
    v in cfg.honest && cfg.committee.IsQuorum({v} + Faulty(cfg))
  }

  // ----- A pivotal validator -----

  lemma {:induction false} ForgeAll(cfg: Config, run: seq<System>, statement: VoteValue, names: set<ValidatorName>)
    returns (run': seq<System>)
    requires IsRun(cfg, run) && names !! cfg.honest
    ensures IsRun(cfg, run') && run <= run' && Last(run').nodes == Last(run).nodes
            && Last(run).votes <= Last(run').votes
    ensures forall w | w in names :: Signature(w, statement) in Last(run').votes
    decreases names
  {
    if names == {} {
      run' := run;
    } else {
      var w :| w in names;
      var s' := Forged(cfg, Last(run), Signature(w, statement));
      RunGrows(cfg, run, s');
      run' := ForgeAll(cfg, run + [s'], statement, names - {w});
    }
  }

  lemma Forged(cfg: Config, s: System, vote: Signature) returns (s': System)
    requires vote.signer !in cfg.honest
    ensures Next(cfg, s, s') && s' == s.(votes := s.votes + {vote})
  {
    assert Enabled(cfg, s, Forge(vote));
    s' := Apply(cfg, s, Forge(vote));
  }

  /** What a pivotal validator has signed can be certified. */
  lemma SupportPivotal(cfg: Config, run: seq<System>, v: ValidatorName, statement: VoteValue)
    returns (run': seq<System>)
    requires IsRun(cfg, run) && Pivotal(cfg, v) && Signature(v, statement) in Last(run).votes
    ensures IsRun(cfg, run') && run <= run' && Last(run').nodes == Last(run).nodes
    ensures Certified(cfg, Last(run').votes, statement)
  {
    run' := ForgeAll(cfg, run, statement, Faulty(cfg));
    var votes := Last(run').votes;
    forall w | w in {v} + Faulty(cfg) ensures w in Voters(votes, statement) {
      assert Signature(w, statement) in votes;
    }
    VotesAreMonotone(cfg.committee, {v} + Faulty(cfg), Voters(votes, statement));
  }

  /** A pivotal validator that has voted to validate a block, and may confirm it. */
  lemma ConfirmPivotal(cfg: Config, run: seq<System>, v: ValidatorName, e: ExecutedBlock, r: Round)
    requires IsRun(cfg, run) && Pivotal(cfg, v) && v in Last(run).nodes && MayConfirm(Last(run).nodes[v].manager, r)
    requires Signature(v, VoteValue(Executed(e), r, ValidatedBlocks)) in Last(run).votes
    ensures CanConfirm(cfg, run)
  {
    var validated := SupportPivotal(cfg, run, v, VoteValue(Executed(e), r, ValidatedBlocks));
    var s := Last(validated);
    var cert := CertifiedHasCertificate(cfg, s.votes, VoteValue(Executed(e), r, ValidatedBlocks));
    var s' := Advancing(cfg, validated, Confirming(cert, e), v);
    RunGrows(cfg, validated, s');
    assert Last(validated + [s']) == s';
    var run' := SupportPivotal(cfg, validated + [s'], v, VoteValue(Executed(e), r, ConfirmedBlocks));
    assert IsRun(cfg, run') && run <= run';
    assert Certified(cfg, Last(run').votes, VoteValue(Executed(e), r, ConfirmedBlocks));
  }

  /** The certificate that a validator is locked on in its current round made it vote to confirm. */
  lemma LockedHasConfirmed(cfg: Config, votes: set<Signature>, v: ValidatorName, n: Node) returns (e: ExecutedBlock)
    requires NodeInvariant(cfg, votes, v, n) && RecordInvariant(n)
    requires n.manager.locked.Some? && n.manager.locked.value.vote.round == n.manager.currentRound
    ensures Signature(v, VoteValue(Executed(e), n.manager.currentRound, ConfirmedBlocks)) in votes
  {
    var c :| c in n.casts && CertificateOf(c) == n.manager.locked;
    assert Justified(cfg, votes, v, c) && Remembered(n.manager, c);
    NothingIsAhead(cfg, n.manager);
    assert c.reason.ByCertificate?;
    e := c.vote.statement.value.executed;
    assert c.vote == Signature(v, VoteValue(Executed(e), n.manager.currentRound, ConfirmedBlocks));
  }

  /** A validator that has voted in its current round, without being locked there, may confirm. */
  lemma VotedMayConfirm(cfg: Config, votes: set<Signature>, v: ValidatorName, n: Node) returns (e: ExecutedBlock)
    requires NodeInvariant(cfg, votes, v, n) && RecordInvariant(n) && LockInvariant(cfg, votes, n)
    requires n.manager.proposed.Some? && n.manager.proposed.value.content.round == n.manager.currentRound
    requires !n.manager.currentRound.Fast?
    requires n.manager.locked.Some? ==> Rank(n.manager.locked.value.vote.round) < Rank(n.manager.currentRound)
    ensures Signature(v, VoteValue(Executed(e), n.manager.currentRound, ValidatedBlocks)) in votes
    ensures MayConfirm(n.manager, n.manager.currentRound)
  {
    var c :| c in n.casts && c.reason == ByProposal(n.manager.proposed.value);
    assert Justified(cfg, votes, v, c);
    e := c.vote.statement.value.executed;
    assert c.vote == Signature(v, VoteValue(Executed(e), n.manager.currentRound, ValidatedBlocks));
    SlotsAreNotAhead(cfg, votes, v, n);
  }

  lemma SlotsAreNotAhead(cfg: Config, votes: set<Signature>, v: ValidatorName, n: Node)
    requires NodeInvariant(cfg, votes, v, n) && RecordInvariant(n) && !n.manager.currentRound.Fast?
    requires n.manager.locked.Some? ==> Rank(n.manager.locked.value.vote.round) < Rank(n.manager.currentRound)
    ensures MayConfirm(n.manager, n.manager.currentRound)
  {
    NothingIsAhead(cfg, n.manager);
    if Latest(n.casts, BlockSlot).Some? {
      var c := SlotIsJustified(cfg, votes, v, n, BlockSlot);
      assert Remembered(n.manager, c);
    }
  }

  /** A validator to which its current round is open can be brought to vote in it. */
  lemma VoteInOpenRound(cfg: Config, run: seq<System>, v: ValidatorName) returns (run': seq<System>, e: ExecutedBlock)
    requires IsRun(cfg, run) && cfg.ownership.superOwners == map[] && v in cfg.honest && v in Last(run).nodes
    requires var m := Last(run).nodes[v].manager;
             m.currentRound.Validator? && m.currentRound in cfg.leaders && IsOpen(m, m.currentRound)
    ensures IsRun(cfg, run') && run <= run' && v in Last(run').nodes
    ensures var r := Last(run).nodes[v].manager.currentRound;
            && Signature(v, VoteValue(Executed(e), r, ValidatedBlocks)) in Last(run').votes
            && MayConfirm(Last(run').nodes[v].manager, r)
  {
    var r := Last(run).nodes[v].manager.currentRound;
    var p;
    run', p, e := Join(cfg, run, v, r, cfg.leaders[r]);
    MayConfirmProposed(Last(run').votes, v, Last(run').nodes[v].manager, p, e);
  }

  lemma MayConfirmProposed(votes: set<Signature>, v: ValidatorName, m: Manager, p: BlockProposal, e: ExecutedBlock)
    requires HasProposed(votes, v, m, p, e) && !p.content.round.Fast?
    ensures MayConfirm(m, p.content.round)
    ensures Signature(v, VoteValue(Executed(e), p.content.round, ValidatedBlocks)) in votes
  {}

  /** With a pivotal validator, every run of a chain without owners can go on to confirm a block. */
  lemma PivotalCanConfirm(cfg: Config, run: seq<System>, v: ValidatorName)
    requires IsRun(cfg, run) && Pivotal(cfg, v) && HasLeaders(cfg)
    requires cfg.ownership.superOwners == map[] && cfg.ownership.owners == map[]
    ensures CanConfirm(cfg, run)
  {
    LastHasNode(cfg, run, v);
    LastHasRecord(cfg, run, v);
    LastHasLock(cfg, run, v);
    ConfirmFrom(cfg, run, v);
  }

  lemma ConfirmFrom(cfg: Config, run: seq<System>, v: ValidatorName)
    requires IsRun(cfg, run) && Pivotal(cfg, v) && HasLeaders(cfg) && v in Last(run).nodes
    requires cfg.ownership.superOwners == map[] && cfg.ownership.owners == map[]
    requires var s := Last(run);
             NodeInvariant(cfg, s.votes, v, s.nodes[v]) && RecordInvariant(s.nodes[v])
                 && LockInvariant(cfg, s.votes, s.nodes[v])
    ensures CanConfirm(cfg, run)
  {
    var s := Last(run);
    var m := s.nodes[v].manager;
    var r := m.currentRound;
    OnlyValidatorRounds(cfg, m);
    if m.locked.Some? && m.locked.value.vote.round == r {
      var e := LockedHasConfirmed(cfg, s.votes, v, s.nodes[v]);
      var run' := SupportPivotal(cfg, run, v, VoteValue(Executed(e), r, ConfirmedBlocks));
      assert IsRun(cfg, run') && run <= run';
      assert Certified(cfg, Last(run').votes, VoteValue(Executed(e), r, ConfirmedBlocks));
    } else if m.proposed.Some? && m.proposed.value.content.round == r {
      var e := VotedMayConfirm(cfg, s.votes, v, s.nodes[v]);
      ConfirmPivotal(cfg, run, v, e, r);
    } else {
      var voted, e := VoteInOpenRound(cfg, run, v);
      ConfirmPivotal(cfg, voted, v, e, r);
      LongerRun(cfg, run, voted);
    }
  }

  /** Without owners, the rounds are validator rounds; what was proposed or locked is not above them. */
  lemma OnlyValidatorRounds(cfg: Config, m: Manager)
    requires ManagerInvariant(cfg, m) && cfg.ownership.superOwners == map[] && cfg.ownership.owners == map[]
    ensures m.currentRound.Validator?
    ensures m.locked.Some? ==>
            m.locked.value.vote.round == m.currentRound || Rank(m.locked.value.vote.round) < Rank(m.currentRound)
    ensures m.proposed.Some? ==>
              || m.proposed.value.content.round == m.currentRound
              || Rank(m.proposed.value.content.round) < Rank(m.currentRound)
  {
    NothingIsAhead(cfg, m);
    if m.locked.Some? {
      RankEmbedsTheDerivedOrder(m.locked.value.vote.round, m.currentRound);
    }
    if m.proposed.Some? {
      RankEmbedsTheDerivedOrder(m.proposed.value.content.round, m.currentRound);
    }
  }

  // ----- A different block for every validator -----

  function OwnBlock(v: ValidatorName): ExecutedBlock {
    ExecutedBlock(Block(v, 0), 0)
  }

  function OwnVote(v: ValidatorName): Signature {
    Signature(v, VoteValue(Executed(OwnBlock(v)), Validator(0), ValidatedBlocks))
  }

  function OwnProposal(cfg: Config, v: ValidatorName): BlockProposal
    requires Validator(0) in cfg.leaders
  {
    Retry(OwnBlock(v), Validator(0), cfg.leaders[Validator(0)], None)
  }

  /** A validator that has voted for its own block and done nothing else. */
  predicate VotedAlone(cfg: Config, v: ValidatorName, n: Node)
    requires Validator(0) in cfg.leaders
  {
    && n.manager.ownership == cfg.ownership && n.manager.currentRound == Validator(0)
    && n.manager.proposed == Some(OwnProposal(cfg, v)) && n.manager.locked.None?
    && n.casts == [Cast(OwnVote(v), ByProposal(OwnProposal(cfg, v)))]
  }

  /** Some validators have voted, each for its own block, and the others have done nothing. */
  ghost predicate Split(cfg: Config, s: System, done: set<ValidatorName>)
    requires Validator(0) in cfg.leaders
  {
    && s.nodes.Keys == cfg.honest && done <= cfg.honest
    && (forall v | v in s.nodes :: if v in done then VotedAlone(cfg, v,
        s.nodes[v]) else s.nodes[v] == Start(cfg).nodes[v])
    && (forall v | v in done :: OwnVote(v) in s.votes)
    && (forall x | x in s.votes && x.signer in cfg.honest :: x == OwnVote(x.signer))
  }

  lemma ProposeAlone(cfg: Config, s: System, done: set<ValidatorName>, v: ValidatorName) returns (s': System)
    requires Validator(0) in cfg.leaders && cfg.ownership.superOwners == map[] && cfg.ownership.owners == map[]
    requires Split(cfg, s, done) && v in cfg.honest && v !in done
    ensures Next(cfg, s, s') && Split(cfg, s', done + {v})
  {
    var step := Propose(v, OwnProposal(cfg, v), OwnBlock(v), 0);
    assert s.nodes[v] == Start(cfg).nodes[v];
    assert NodeEnabled(cfg, s.votes, s.nodes[v].manager, step);
    assert Enabled(cfg, s, step);
    s' := Apply(cfg, s, step);
    var n := s'.nodes[v];
    assert VotedAlone(cfg, v, n);
    assert (set c | c in n.casts :: c.vote) == {OwnVote(v)} by {
      assert n.casts[0] in n.casts;
    }
  }

  lemma SplitOneMore(cfg: Config, run: seq<System>, done: set<ValidatorName>, v: ValidatorName)
    returns (run': seq<System>)
    requires Validator(0) in cfg.leaders && cfg.ownership.superOwners == map[] && cfg.ownership.owners == map[]
    requires IsRun(cfg, run) && Split(cfg, Last(run), done) && v in cfg.honest && v !in done
    ensures IsRun(cfg, run') && run <= run' && Split(cfg, Last(run'), done + {v})
  {
    var s' := ProposeAlone(cfg, Last(run), done, v);
    RunGrows(cfg, run, s');
    run' := run + [s'];
    assert Last(run') == s';
  }

  lemma {:induction false} SplitAll(cfg: Config, run: seq<System>, done: set<ValidatorName>) returns (run': seq<System>)
    requires Validator(0) in cfg.leaders && cfg.ownership.superOwners == map[] && cfg.ownership.owners == map[]
    requires IsRun(cfg, run) && Split(cfg, Last(run), done)
    ensures IsRun(cfg, run') && run <= run' && Split(cfg, Last(run'), cfg.honest)
    decreases cfg.honest - done
  {
    var todo := cfg.honest - done;
    if todo == {} {
      assert done == cfg.honest;
      run' := run;
    } else {
      var v :| v in todo;
      var longer := SplitOneMore(cfg, run, done, v);
      assert cfg.honest - (done + {v}) < todo;
      run' := SplitAll(cfg, longer, done + {v});
    }
  }

  /** In a split state nothing is certified. */
  lemma NothingIsCertified(cfg: Config, s: System, statement: VoteValue)
    requires Validator(0) in cfg.leaders && Split(cfg, s, cfg.honest) && cfg.honest != {}
    requires forall v :: !Pivotal(cfg, v)
    ensures !Certified(cfg, s.votes, statement)
  {
    var voters := Voters(s.votes, statement);
    var v :| v in cfg.honest && (voters !! cfg.honest || v in voters);
    forall w | w in voters && w in cfg.honest ensures w == v {
      assert OwnVote(w).statement == statement;
      assert OwnVote(v).statement == statement;
    }
    var members := voters * cfg.committee.validators.Keys;
    OutsidersHoldNothing(cfg.committee, voters - members);
    VotesSplit(cfg.committee, members, voters - members);
    assert members + (voters - members) == voters;
    VotesAreMonotone(cfg.committee, members, {v} + Faulty(cfg));
    assert !Pivotal(cfg, v);
  }

  /** A chain without owners, on which no honest validator is pivotal. */
  ghost predicate CanSplit(cfg: Config) {
    && Validator(0) in cfg.leaders && cfg.ownership.superOwners == map[] && cfg.ownership.owners == map[]
    && cfg.honest != {} && forall v :: !Pivotal(cfg, v)
  }

  /** Nothing an honest validator can be asked to do changes it any more. */
  lemma NothingMoves(cfg: Config, s: System, step: Step)
    requires CanSplit(cfg) && Split(cfg, s, cfg.honest) && Enabled(cfg, s, step) && !step.Forge?
    ensures StepNode(cfg, s.nodes[step.v], step) == s.nodes[step.v]
  {
    assert VotedAlone(cfg, step.v, s.nodes[step.v]);
    match step
    case Propose(_, p, _, _) =>
      if p.validatedBlockCertificate.Some? {
        CertificatesAreCertified(cfg, s.votes, p.validatedBlockCertificate.value);
        NothingIsCertified(cfg, s, p.validatedBlockCertificate.value.vote);
      }
    case Finalize(_, cert, _) =>
      CertificatesAreCertified(cfg, s.votes, cert);
      NothingIsCertified(cfg, s, cert.vote);
    case ReceiveTimeout(_, cert, _) =>
      CertificatesAreCertified(cfg, s.votes, cert);
      NothingIsCertified(cfg, s, cert.vote);
    case _ =>
  }

  lemma OnlyOwnVotes(cfg: Config, s: System, v: ValidatorName)
    requires Validator(0) in cfg.leaders && Split(cfg, s, cfg.honest) && v in cfg.honest
    ensures (set c | c in s.nodes[v].casts :: c.vote) <= s.votes
  {
    assert VotedAlone(cfg, v, s.nodes[v]);
  }

  lemma ApplyNothing(cfg: Config, s: System, step: Step)
    requires CanSplit(cfg) && Split(cfg, s, cfg.honest) && Enabled(cfg, s, step) && !step.Forge?
    ensures Apply(cfg, s, step) == s
  {
    NothingMoves(cfg, s, step);
    OnlyOwnVotes(cfg, s, step.v);
    assert s.nodes[step.v := s.nodes[step.v]] == s.nodes;
  }

  lemma ForgeKeepsSplit(cfg: Config, s: System, vote: Signature)
    requires CanSplit(cfg) && Split(cfg, s, cfg.honest) && vote.signer !in cfg.honest
    ensures Split(cfg, s.(votes := s.votes + {vote}), cfg.honest)
  {}

  lemma SplitStays(cfg: Config, s: System, s': System)
    requires CanSplit(cfg) && Split(cfg, s, cfg.honest) && Next(cfg, s, s')
    ensures Split(cfg, s', cfg.honest)
  {
    var step :| Enabled(cfg, s, step) && s' == Apply(cfg, s, step);
    if step.Forge? {
      ForgeKeepsSplit(cfg, s, step.vote);
    } else {
      ApplyNothing(cfg, s, step);
    }
  }

  lemma RunStepKeepsSplit(cfg: Config, run: seq<System>, k: nat)
    requires CanSplit(cfg) && IsRun(cfg, run) && 0 < k < |run| && Split(cfg, run[k - 1], cfg.honest)
    ensures Split(cfg, run[k], cfg.honest)
  {
    assert StepsAt(cfg, run, k - 1);
    SplitStays(cfg, run[k - 1], run[k]);
  }

  lemma {:induction false} SplitForever(cfg: Config, run: seq<System>, i: nat, k: nat)
    requires CanSplit(cfg) && IsRun(cfg, run) && i <= k < |run| && Split(cfg, run[i], cfg.honest)
    ensures Split(cfg, run[k], cfg.honest)
    decreases k
  {
    if i < k {
      SplitForever(cfg, run, i, k - 1);
      RunStepKeepsSplit(cfg, run, k);
    }
  }

  /** In no continuation of the run is anything ever certified. */
  ghost predicate StuckForever(cfg: Config, run: seq<System>) {
    forall run', statement | IsRun(cfg, run') && run <= run' :: !Certified(cfg, Last(run').votes, statement)
  }

  lemma SplitAtTheEnd(cfg: Config, run: seq<System>, run': seq<System>)
    requires CanSplit(cfg) && run != [] && Split(cfg, Last(run), cfg.honest) && IsRun(cfg, run') && run <= run'
    ensures Split(cfg, Last(run'), cfg.honest)
  {
    var i := |run| - 1;
    assert run'[i] == Last(run) && i < |run'|;
    assert Split(cfg, run'[i], cfg.honest);
    SplitForever(cfg, run', i, |run'| - 1);
  }

  lemma SplitIsStuck(cfg: Config, run: seq<System>)
    requires CanSplit(cfg) && IsRun(cfg, run) && Split(cfg, Last(run), cfg.honest)
    ensures BelowTheLastRound(Last(run)) && StuckForever(cfg, run)
  {
    forall run', statement | IsRun(cfg, run') && run <= run' ensures !Certified(cfg, Last(run').votes, statement) {
      SplitAtTheEnd(cfg, run, run');
      NothingIsCertified(cfg, Last(run'), statement);
    }
    forall v | v in Last(run).nodes ensures Last(run).nodes[v].manager.currentRound != LAST_ROUND {
      assert VotedAlone(cfg, v, Last(run).nodes[v]);
    }
  }

  lemma StartIsSplit(cfg: Config)
    requires Validator(0) in cfg.leaders && cfg.committee.MostlyHonest(cfg.honest)
    ensures IsRun(cfg, [Start(cfg)]) && Split(cfg, Last([Start(cfg)]), {})
  {
    StartIsInitial(cfg);
  }

  /**
   * On a chain without owners and without a pivotal validator, a run in which the first leader
   * sends every honest validator another block is stuck for ever.
   */
  lemma PublicChainCanGetStuck(cfg: Config) returns (run: seq<System>)
    requires cfg.committee.MostlyHonest(cfg.honest) && Validator(0) in cfg.leaders
    requires cfg.ownership.superOwners == map[] && cfg.ownership.owners == map[]
    requires forall v :: !Pivotal(cfg, v)
    ensures IsRun(cfg, run) && BelowTheLastRound(Last(run)) && StuckForever(cfg, run)
  {
    HonestIsQuorum(cfg.committee, cfg.honest);
    StartIsSplit(cfg);
    run := SplitAll(cfg, [Start(cfg)], {});
    SplitIsStuck(cfg, run);
  }

  lemma StuckCannotConfirm(cfg: Config, run: seq<System>)
    requires StuckForever(cfg, run)
    ensures !CanConfirm(cfg, run)
  {}

  /** From every state below the last round, a block can be confirmed. */
  ghost predicate AlwaysConfirmable(cfg: Config) {
    forall run | IsRun(cfg, run) && BelowTheLastRound(Last(run)) :: CanConfirm(cfg, run)
  }

  /**
   * A chain can always still confirm a block if and only if it has super owners or owners, or a
   * single honest validator makes a quorum with the faulty ones.
   */
  lemma ConfirmableExactlyWithOwners(cfg: Config)
    requires cfg.committee.MostlyHonest(cfg.honest) && HasLeaders(cfg)
    ensures AlwaysConfirmable(cfg) <==>
              || cfg.ownership.superOwners != map[]
              || cfg.ownership.owners != map[]
              || exists v :: Pivotal(cfg, v)
  {
    if owner :| owner in cfg.ownership.superOwners {
      forall run | IsRun(cfg, run) && BelowTheLastRound(Last(run)) ensures CanConfirm(cfg, run) {
        SuperOwnersCanConfirm(cfg, run, owner);
      }
    } else if cfg.ownership.owners != map[] {
      forall run | IsRun(cfg, run) && BelowTheLastRound(Last(run)) ensures CanConfirm(cfg, run) {
        OwnersCanConfirm(cfg, run);
      }
    } else if v :| Pivotal(cfg, v) {
      forall run | IsRun(cfg, run) && BelowTheLastRound(Last(run)) ensures CanConfirm(cfg, run) {
        PivotalCanConfirm(cfg, run, v);
      }
    } else {
      assert IsSampled(cfg.ownership, Validator(0));
      var run := PublicChainCanGetStuck(cfg);
      StuckCannotConfirm(cfg, run);
    }
  }

  const FOUR := Committee(map[0 := 1, 1 := 1, 2 := 1, 3 := 1])

  /** Four equal validators, one of them faulty, on a chain without owners. */
  function FourValidators(leader: Owner, config: TimeoutConfig, waiting: map<ValidatorName, Timestamp>): Config {
    Config(FOUR, {0, 1, 2}, ChainOwnership(map[], map[], 0, config), map[Validator(0) := leader], Timeout(0, 0, 0),
           waiting)
  }

  lemma {:induction false} VotesOfFour(s: set<ValidatorName>)
    requires s <= {0, 1, 2, 3}
    ensures FOUR.VotesOf(s) == |s|
    decreases s
  {
    if s != {} {
      var v :| v in s;
      EachHasOne(v);
      VotesWithout(FOUR, s, v);
      VotesOfFour(s - {v});
      assert |s - {v}| == |s| - 1;
    }
  }

  lemma EachHasOne(v: ValidatorName)
    requires v in {0, 1, 2, 3}
    ensures FOUR.Weight(v) == 1
  {}

  /** The smallest such case: four equal validators, one of them faulty, can get stuck. */
  lemma FourValidatorsCanGetStuck(leader: Owner, config: TimeoutConfig, waiting: map<ValidatorName, Timestamp>)
    returns (run: seq<System>)
    ensures IsRun(FourValidators(leader, config, waiting), run)
    ensures StuckForever(FourValidators(leader, config, waiting), run)
  {
    var cfg := FourValidators(leader, config, waiting);
    assert FOUR.validators.Keys == {0, 1, 2, 3} && Faulty(cfg) == {3};
    VotesOfFour({0, 1, 2, 3});
    VotesOfFour({3});
    forall v ensures !Pivotal(cfg, v) {
      if v in cfg.honest {
        VotesOfFour({v} + {3});
        assert |{v} + {3}| == 2;
      }
    }
    run := PublicChainCanGetStuck(cfg);
  }
}
