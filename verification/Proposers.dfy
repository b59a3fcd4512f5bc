/** Who may propose: what every vote for a proposal says about its proposer, and who is accepted. */
module Proposers {
  import opened Basics
  import opened Rounds
  import opened Committees
  import opened Certificates
  import opened ChainManagers
  import opened Consensus
  import opened Continuations
  import opened Progress

  /** Super owners may always propose, owners in the multi-leader rounds, and in leader rounds their leader. */
  predicate IsEntitled(cfg: Config, r: Round, owner: Owner) {
    || owner in cfg.ownership.superOwners
    || (r.MultiLeader? && owner in cfg.ownership.owners)
    || (!r.Fast? && !r.MultiLeader? && r in cfg.leaders && cfg.leaders[r] == owner)
  }

  /** A proposal holds an outcome exactly if it carries a certificate, and then it is the certified one. */
  predicate OutcomeIsCertified(c: Cast)
    requires c.reason.ByProposal?
  {
    var p := c.reason.proposal;
    && c.vote.statement.value.Executed?
    && p.content.outcome == if p.validatedBlockCertificate.None? then None
                            else Some(c.vote.statement.value.executed.outcome)
  }

  predicate ProposerInvariant(cfg: Config, n: Node) {
    && n.manager.ownership == cfg.ownership && n.manager.leaders == cfg.leaders
    && forall c | c in n.casts && c.reason.ByProposal? ::
         IsEntitled(cfg, c.reason.proposal.content.round, c.reason.proposal.owner) && OutcomeIsCertified(c)
  }

  lemma ProposeKeepsProposers(cfg: Config, votes: set<Signature>, n: Node, step: Step)
    requires ProposerInvariant(cfg, n) && step.Propose? && NodeEnabled(cfg, votes, n.manager, step)
    ensures ProposerInvariant(cfg, StepNode(cfg, n, step))
  {
    var n' := StepNode(cfg, n, step);
    forall c | c in n'.casts && c.reason.ByProposal?
      ensures IsEntitled(cfg, c.reason.proposal.content.round, c.reason.proposal.owner) && OutcomeIsCertified(c)
    {
      assert c in n.casts || c == n'.casts[|n.casts|];
    }
  }

  lemma OthersKeepProposers(cfg: Config, n: Node, step: Step)
    requires ProposerInvariant(cfg, n) && !step.Propose? && !step.Forge?
    ensures ProposerInvariant(cfg, StepNode(cfg, n, step))
  {
    var n' := StepNode(cfg, n, step);
    forall c | c in n'.casts && c.reason.ByProposal? ensures c in n.casts {}
  }

  lemma NextKeepsProposers(cfg: Config, s: System, s': System, v: ValidatorName)
    requires Next(cfg, s, s') && v in s.nodes && ProposerInvariant(cfg, s.nodes[v])
    ensures v in s'.nodes && ProposerInvariant(cfg, s'.nodes[v])
  {
    var step :| Enabled(cfg, s, step) && s' == Apply(cfg, s, step);
    if step.Forge? || step.v != v {
      assert s'.nodes[v] == s.nodes[v];
    } else if step.Propose? {
      ProposeKeepsProposers(cfg, s.votes, s.nodes[v], step);
    } else {
      OthersKeepProposers(cfg, s.nodes[v], step);
    }
  }

  lemma {:induction false} RunKeepsProposers(cfg: Config, run: seq<System>, k: nat, v: ValidatorName)
    requires IsRun(cfg, run) && k < |run| && v in cfg.honest
    ensures v in run[k].nodes && ProposerInvariant(cfg, run[k].nodes[v])
  {
    if k > 0 {
      RunKeepsProposers(cfg, run, k - 1, v);
      assert StepsAt(cfg, run, k - 1);
      NextKeepsProposers(cfg, run[k - 1], run[k], v);
    }
  }

  /**
   * In every run, an honest validator votes for a proposal only if it was made by a super owner, by
   * an owner in a multi-leader round, or by the leader of its leader round.
   */
  lemma ProposersAreEntitled(cfg: Config, run: seq<System>, k: nat, v: ValidatorName, c: Cast)
    requires IsRun(cfg, run) && k < |run| && v in cfg.honest
    requires v in run[k].nodes && c in run[k].nodes[v].casts && c.reason.ByProposal?
    requires c.reason.proposal.owner !in cfg.ownership.superOwners
    ensures c.Round() == c.reason.proposal.content.round
    ensures !c.Round().Fast?
    ensures c.Round().MultiLeader? ==> c.reason.proposal.owner in cfg.ownership.owners
    ensures c.Round().SingleLeader? || c.Round().Validator? ==>
            c.Round() in cfg.leaders && c.reason.proposal.owner == cfg.leaders[c.Round()]
  {
    RunKeepsProposers(cfg, run, k, v);
    RunKeepsInvariant(cfg, run, k);
    NodeOf(cfg, run[k], v);
    assert Justified(cfg, run[k].votes, v, c);
  }

  /** All honest votes of a leader round are for proposals of one and the same leader, apart from super owners. */
  lemma OneProposerPerLeaderRound(cfg: Config, run: seq<System>, k: nat, v: ValidatorName, c: Cast, w: ValidatorName,
                                  d: Cast)
    requires IsRun(cfg, run) && k < |run| && v in cfg.honest && w in cfg.honest
    requires v in run[k].nodes && c in run[k].nodes[v].casts && w in run[k].nodes && d in run[k].nodes[w].casts
    requires c.reason.ByProposal? && c.reason.proposal.owner !in cfg.ownership.superOwners
    requires d.reason.ByProposal? && d.reason.proposal.owner !in cfg.ownership.superOwners
    requires c.Round() == d.Round() && Rank(c.Round()) >= Rank(SingleLeader(0))
    ensures c.reason.proposal.owner == d.reason.proposal.owner
  {
    ProposersAreEntitled(cfg, run, k, v, c);
    ProposersAreEntitled(cfg, run, k, w, d);
  }

  /** In every run, a proposal that was voted for holds an outcome exactly if it carries a certificate for it. */
  lemma OutcomesAreCertified(cfg: Config, run: seq<System>, k: nat, v: ValidatorName, c: Cast)
    requires IsRun(cfg, run) && k < |run| && v in cfg.honest
    requires v in run[k].nodes && c in run[k].nodes[v].casts && c.reason.ByProposal?
    ensures var p := c.reason.proposal;
            if p.validatedBlockCertificate.None? then p.content.outcome.None?
            else
              && p.validatedBlockCertificate.value.vote.kind == ValidatedBlocks
              && p.validatedBlockCertificate.value.vote.value == c.vote.statement.value
              && c.vote.statement.value.Executed?
              && p.content.outcome == Some(c.vote.statement.value.executed.outcome)
  {
    RunKeepsProposers(cfg, run, k, v);
    CertificatesMatch(cfg, run, k, v);
  }

  predicate CertificateMatches(c: Cast) {
    c.reason.ByProposal? && c.reason.proposal.validatedBlockCertificate.Some? ==>
      var vote := c.reason.proposal.validatedBlockCertificate.value.vote;
      vote.kind == ValidatedBlocks && vote.value == c.vote.statement.value
  }

  lemma NextKeepsMatches(cfg: Config, s: System, s': System, v: ValidatorName)
    requires Next(cfg, s, s') && v in s.nodes && forall c | c in s.nodes[v].casts :: CertificateMatches(c)
    ensures v in s'.nodes && forall c | c in s'.nodes[v].casts :: CertificateMatches(c)
  {
    var step :| Enabled(cfg, s, step) && s' == Apply(cfg, s, step);
    var n, n' := s.nodes[v], s'.nodes[v];
    forall c | c in n'.casts ensures CertificateMatches(c) {
      assert c in n.casts || c == n'.casts[|n.casts|];
    }
  }

  lemma {:induction false} CertificatesMatch(cfg: Config, run: seq<System>, k: nat, v: ValidatorName)
    requires IsRun(cfg, run) && k < |run| && v in cfg.honest
    ensures v in run[k].nodes && forall c | c in run[k].nodes[v].casts :: CertificateMatches(c)
  {
    if k > 0 {
      CertificatesMatch(cfg, run, k - 1, v);
      assert StepsAt(cfg, run, k - 1);
      NextKeepsMatches(cfg, run[k - 1], run[k], v);
    }
  }

  /**
   * In an open round, an honest validator that is neither locked nor bound by a fast vote takes a new
   * proposal exactly from those who may propose in it; only a super owner can leave the fast round.
   */
  lemma OpenRoundAcceptsExactly(cfg: Config, run: seq<System>, v: ValidatorName, e: ExecutedBlock, r: Round,
                                owner: Owner, time: Timestamp)
    requires IsRun(cfg, run) && v in cfg.honest && v in Last(run).nodes && e.block.height < U64_MAX
    requires var m := Last(run).nodes[v].manager;
             && IsOpen(m, r) && m.locked.None?
             && (m.proposed.Some? ==> !m.proposed.value.content.round.Fast?)
    ensures var m := Last(run).nodes[v].manager;
            var p := BlockProposal(ProposalContent(e.block, r, None), owner, None);
            NodeEnabled(cfg, Last(run).votes, m, Propose(v, p, e, time)) <==>
              || owner in cfg.ownership.superOwners
              || (r.MultiLeader? && owner in cfg.ownership.owners && !m.currentRound.Fast?)
              || (r.SingleLeader? && r in cfg.leaders && owner == cfg.leaders[r] && !m.currentRound.Fast?)
              || (r.Validator? && r in cfg.leaders && owner == cfg.leaders[r])
  {
    RunKeepsProposers(cfg, run, |run| - 1, v);
    var m := Last(run).nodes[v].manager;
    ProposalAcceptedExactly(m, BlockProposal(ProposalContent(e.block, r, None), owner, None));
  }
}
