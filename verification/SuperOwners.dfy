/**
 * Chains with super owners. A validator only accepts the block it voted for in the fast round as the
 * next one, but a super owner may repeat it to each of them in some round, and then propose one block
 * to all of them in the very last round. So below that round such a chain is never blocked.
 */
module SuperOwners {
  import opened Basics
  import opened Rounds
  import opened Committees
  import opened Certificates
  import opened ChainManagers
  import opened Consensus
  import opened Continuations
  import opened Progress

  /** The latest proposal that the validator has voted for was in the fast round. */
  predicate IsBound(m: Manager) {
    m.proposed.Some? && m.proposed.value.content.round.Fast?
  }

  predicate IsUnlocked(m: Manager) {
    m.locked.None? && m.currentRound != LAST_ROUND
  }

  ghost predicate AllUnlocked(cfg: Config, s: System) {
    s.nodes.Keys == cfg.honest && forall v | v in s.nodes :: IsUnlocked(s.nodes[v].manager)
  }

  // ----- Repeating the fast block -----

  /** The block of the fast round, proposed again in the current round or, from the fast round, a later one. */
  function Repeat(m: Manager, owner: Owner): (BlockProposal, ExecutedBlock)
    requires m.proposed.Some?
  {
    var e := ExecutedBlock(m.proposed.value.content.block, 0);
    (Retry(e, if m.currentRound.Fast? then SingleLeader(0) else m.currentRound, owner, None), e)
  }

  lemma RepeatIsAccepted(cfg: Config, votes: set<Signature>, v: ValidatorName, n: Node, owner: Owner)
    requires ManagerInvariant(cfg, n.manager) && LockInvariant(cfg, votes, n)
    requires owner in cfg.ownership.superOwners && IsUnlocked(n.manager) && IsBound(n.manager)
    ensures var (p, e) := Repeat(n.manager, owner);
            && Before(cfg, Proposing(p, e), votes, v, n.manager)
            && !p.content.round.Fast? && p.content.round != LAST_ROUND && p.validatedBlockCertificate.None?
  {
    var c :| c in n.casts && c.reason == ByProposal(n.manager.proposed.value);
    assert c.reason.proposal.content.block.height < U64_MAX;
  }

  lemma Unbind(cfg: Config, run: seq<System>, v: ValidatorName, owner: Owner) returns (s': System)
    requires IsRun(cfg, run) && owner in cfg.ownership.superOwners && v in cfg.honest && v in Last(run).nodes
    requires IsUnlocked(Last(run).nodes[v].manager) && IsBound(Last(run).nodes[v].manager)
    ensures Next(cfg, Last(run), s') && OnlyMoved(Last(run), s', {v})
    ensures IsUnlocked(s'.nodes[v].manager) && !IsBound(s'.nodes[v].manager)
  {
    LastHasNode(cfg, run, v);
    LastHasLock(cfg, run, v);
    var n := Last(run).nodes[v];
    var (p, e) := Repeat(n.manager, owner);
    RepeatIsAccepted(cfg, Last(run).votes, v, n, owner);
    s' := Advancing(cfg, run, Proposing(p, e), v);
    UnboundAfter(s'.votes, v, s'.nodes[v].manager, p, e);
  }

  lemma UnboundAfter(votes: set<Signature>, v: ValidatorName, m: Manager, p: BlockProposal, e: ExecutedBlock)
    requires HasProposed(votes, v, m, p, e) && p.validatedBlockCertificate.None?
    requires !p.content.round.Fast? && p.content.round != LAST_ROUND
    ensures IsUnlocked(m) && !IsBound(m)
  {}

  lemma UnbindOne(cfg: Config, run: seq<System>, v: ValidatorName, owner: Owner) returns (run': seq<System>)
    requires IsRun(cfg, run) && owner in cfg.ownership.superOwners && v in cfg.honest
    requires AllUnlocked(cfg, Last(run))
    ensures IsRun(cfg, run') && run <= run' && OnlyMoved(Last(run), Last(run'), {v})
    ensures AllUnlocked(cfg, Last(run')) && !IsBound(Last(run').nodes[v].manager)
  {
    run' := run;
    if IsBound(Last(run).nodes[v].manager) {
      var s' := Unbind(cfg, run, v, owner);
      RunGrows(cfg, run, s');
      run' := run + [s'];
    }
  }

  /** The super owner repeats the fast block of each validator. */
  lemma {:induction false} UnbindAll(cfg: Config, run: seq<System>, names: set<ValidatorName>, owner: Owner)
    returns (run': seq<System>)
    requires IsRun(cfg, run) && owner in cfg.ownership.superOwners && names <= cfg.honest
    requires AllUnlocked(cfg, Last(run))
    ensures IsRun(cfg, run') && run <= run' && OnlyMoved(Last(run), Last(run'), names)
    ensures AllUnlocked(cfg, Last(run')) && forall v | v in names :: !IsBound(Last(run').nodes[v].manager)
    decreases names
  {
    if names == {} {
      run' := run;
    } else {
      var v :| v in names;
      var longer := UnbindOne(cfg, run, v, owner);
      run' := UnbindAll(cfg, longer, names - {v}, owner);
    }
  }

  // ----- One block for all -----

  /** Nothing keeps the validator from the proposal of a super owner in the last round. */
  predicate IsReady(m: Manager, cert: Option<Certificate>) {
    m.currentRound != LAST_ROUND && NoLaterLock(m, cert) && (cert.Some? || !IsBound(m))
  }

  ghost predicate AllReady(cfg: Config, s: System, cert: Option<Certificate>) {
    s.nodes.Keys == cfg.honest && forall v | v in s.nodes :: IsReady(s.nodes[v].manager, cert)
  }

  lemma LastRoundIsAccepted(cfg: Config, votes: set<Signature>, v: ValidatorName, n: Node, e: ExecutedBlock,
                            owner: Owner, cert: Option<Certificate>)
    requires ManagerInvariant(cfg, n.manager) && owner in cfg.ownership.superOwners
    requires Carries(cfg, votes, cert, e, LAST_ROUND) && IsReady(n.manager, cert)
    ensures Before(cfg, Proposing(Retry(e, LAST_ROUND, owner, cert), e), votes, v, n.manager)
  {
    NothingIsAhead(cfg, n.manager);
    RankEmbedsTheDerivedOrder(n.manager.currentRound, LAST_ROUND);
  }

  /** With the most recent lock, or with none, a block can be confirmed in the last round. */
  lemma ConfirmInLastRound(cfg: Config, run: seq<System>, e: ExecutedBlock, owner: Owner, cert: Option<Certificate>)
    requires IsRun(cfg, run) && owner in cfg.ownership.superOwners
    requires Carries(cfg, Last(run).votes, cert, e, LAST_ROUND) && AllReady(cfg, Last(run), cert)
    ensures CanConfirm(cfg, run)
  {
    var p, s := Retry(e, LAST_ROUND, owner, cert), Last(run);
    forall v | v in s.nodes ensures Before(cfg, Proposing(p, e), s.votes, v, s.nodes[v].manager) {
      LastHasNode(cfg, run, v);
      LastRoundIsAccepted(cfg, s.votes, v, s.nodes[v], e, owner, cert);
    }
    var run' := AcceptedIsConfirmed(cfg, run, p, e);
    assert Certified(cfg, Last(run').votes, VoteValue(Executed(e), LAST_ROUND, ConfirmedBlocks));
  }

  lemma LockCarries(cfg: Config, votes: set<Signature>, n: Node)
    requires ManagerInvariant(cfg, n.manager) && LockInvariant(cfg, votes, n)
    requires n.manager.locked.Some? && n.manager.currentRound != LAST_ROUND
    ensures n.manager.locked.value.vote.value.Executed?
    ensures Carries(cfg, votes, n.manager.locked, n.manager.locked.value.vote.value.executed, LAST_ROUND)
  {
    NothingIsAhead(cfg, n.manager);
    RankEmbedsTheDerivedOrder(n.manager.currentRound, LAST_ROUND);
    NextRoundIsTheSuccessor(cfg.ownership, n.manager.locked.value.vote.round, LAST_ROUND);
  }

  /** On a chain with super owners, every run below the very last round can go on to confirm a block. */
  lemma SuperOwnersCanConfirm(cfg: Config, run: seq<System>, owner: Owner)
    requires IsRun(cfg, run) && owner in cfg.ownership.superOwners && BelowTheLastRound(Last(run))
    ensures CanConfirm(cfg, run)
  {
    LastIsHonest(cfg, run);
    var s := Last(run);
    var cert := HighestLock(s, cfg.honest);
    if cert.Some? {
      var v :| v in cfg.honest && s.nodes[v].manager.locked == cert;
      LastHasNode(cfg, run, v);
      LastHasLock(cfg, run, v);
      LockCarries(cfg, s.votes, s.nodes[v]);
      assert AllReady(cfg, s, cert);
      ConfirmInLastRound(cfg, run, cert.value.vote.value.executed, owner, cert);
    } else {
      forall v | v in s.nodes ensures IsUnlocked(s.nodes[v].manager) {
        assert NoLaterLock(s.nodes[v].manager, cert);
      }
      var free := UnbindAll(cfg, run, cfg.honest, owner);
      assert AllReady(cfg, Last(free), None);
      ConfirmInLastRound(cfg, free, ExecutedBlock(Block(0, 0), 0), owner, None);
      LongerRun(cfg, run, free);
    }
  }
}
