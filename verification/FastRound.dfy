/**
 * Where agreement ends: with a super owner the fast round exists, and the lock it puts on a block
 * is only remembered until the next proposal. For every configuration, agreement holds in all of
 * its runs if and only if it has no super owner.
 */
module FastRound {
  import opened Basics
  import opened Rounds
  import opened Committees
  import opened Certificates
  import opened ChainManagers
  import opened Consensus
  import opened Continuations

  /** In every run of this configuration, all confirmed blocks are the same. */
  ghost predicate SafeFor(cfg: Config) {
    forall run: seq<System>, k | IsRun(cfg, run) && 0 <= k < |run| :: Agreement(cfg, run[k])
  }

  const FIRST := ExecutedBlock(Block(0, 0), 0)
  const SECOND := ExecutedBlock(Block(1, 0), 0)

  /** A proposal that carries no certificate. */
  function Fresh(e: ExecutedBlock, r: Round, owner: Owner): BlockProposal {
    BlockProposal(ProposalContent(e.block, r, None), owner, None)
  }

  lemma FirstIsAccepted(cfg: Config, owner: Owner)
    requires owner in cfg.ownership.superOwners
    ensures AllBefore(cfg, Proposing(Fresh(FIRST, Fast, owner), FIRST), Start(cfg))
  {}

  lemma LaterIsAcceptedBy(cfg: Config, votes: set<Signature>, v: ValidatorName, m: Manager, d: ExecutedBlock, q: Round,
                          e: ExecutedBlock, r: Round, owner: Owner)
    requires m.ownership == cfg.ownership && owner in cfg.ownership.superOwners && e.block.height < U64_MAX
    requires HasProposed(votes, v, m, Fresh(d, q, owner), d)
    requires Rank(q) < Rank(r) && (q.Fast? ==> d.block == e.block)
    ensures NodeEnabled(cfg, votes, m, Propose(v, Fresh(e, r, owner), e, U64_MAX))
  {}

  /** A later proposal without certificate is accepted unless it directly follows the fast one. */
  lemma LaterIsAccepted(cfg: Config, s: System, d: ExecutedBlock, q: Round, e: ExecutedBlock, r: Round, owner: Owner)
    requires Invariant(cfg, s) && owner in cfg.ownership.superOwners && e.block.height < U64_MAX
    requires AllAfter(cfg, Proposing(Fresh(d, q, owner), d), s)
    requires Rank(q) < Rank(r) && (q.Fast? ==> d.block == e.block)
    ensures AllBefore(cfg, Proposing(Fresh(e, r, owner), e), s)
  {
    forall v | v in s.nodes ensures Before(cfg, Proposing(Fresh(e, r, owner), e), s.votes, v, s.nodes[v].manager) {
      NodeOf(cfg, s, v);
      assert After(cfg, Proposing(Fresh(d, q, owner), d), s.votes, v, s.nodes[v].manager);
      LaterIsAcceptedBy(cfg, s.votes, v, s.nodes[v].manager, d, q, e, r, owner);
    }
  }

  /** One more proposal of the super owner, for which all honest validators vote. */
  lemma ProposeLater(cfg: Config, run: seq<System>, d: ExecutedBlock, q: Round, e: ExecutedBlock, r: Round,
                     owner: Owner)
    returns (run': seq<System>)
    requires IsRun(cfg, run) && owner in cfg.ownership.superOwners && e.block.height < U64_MAX
    requires AllAfter(cfg, Proposing(Fresh(d, q, owner), d), Last(run))
    requires Rank(q) < Rank(r) && (q.Fast? ==> d.block == e.block)
    ensures IsRun(cfg, run') && run <= run' && Last(run).votes <= Last(run').votes
    ensures AllAfter(cfg, Proposing(Fresh(e, r, owner), e), Last(run'))
  {
    LastHasInvariant(cfg, run);
    LaterIsAccepted(cfg, Last(run), d, q, e, r, owner);
    run' := SweepAll(cfg, run, Proposing(Fresh(e, r, owner), e));
  }

  /** All honest validators confirm one block in the fast round and another one later. */
  lemma DisagreeingRun(cfg: Config, owner: Owner) returns (run: seq<System>)
    requires cfg.committee.MostlyHonest(cfg.honest) && owner in cfg.ownership.superOwners
    ensures IsRun(cfg, run)
    ensures Certified(cfg, Last(run).votes, VoteValue(Executed(FIRST), Fast, ConfirmedBlocks))
    ensures Certified(cfg, Last(run).votes, VoteValue(Executed(SECOND), SingleLeader(0), ConfirmedBlocks))
  {
    StartIsInitial(cfg);
    FirstIsAccepted(cfg, owner);
    var fast := SweepAll(cfg, [Start(cfg)], Proposing(Fresh(FIRST, Fast, owner), FIRST));
    AllHaveVoted(cfg, Last(fast), Fresh(FIRST, Fast, owner), FIRST);
    var _ := SignedByAllIsCertified(cfg, Last(fast).votes, VoteFor(FIRST, Fast));
    var again := ProposeLater(cfg, fast, FIRST, Fast, FIRST, MultiLeader(0), owner);
    LastHasInvariant(cfg, again);
    LaterIsAccepted(cfg, Last(again), FIRST, MultiLeader(0), SECOND, SingleLeader(0), owner);
    run := AcceptedIsConfirmed(cfg, again, Fresh(SECOND, SingleLeader(0), owner), SECOND);
    CertifiedStays(cfg, Last(fast).votes, Last(run).votes, VoteFor(FIRST, Fast));
  }

  // ----- What the fast vote binds -----

  /** The latest proposal that a validator voted for. */
  function LatestProposal(casts: seq<Cast>): Option<BlockProposal> {
    if casts == [] then None
    else
      var c := casts[|casts| - 1];
      if c.reason.ByProposal? then Some(c.reason.proposal) else LatestProposal(casts[..|casts| - 1])
  }

  /** A vote for a proposal without certificate that directly follows the fast one is for the same block. */
  predicate IsBoundVote(before: Option<BlockProposal>, c: Cast) {
    before.Some? && before.value.content.round.Fast? && IsFreshVote(c) ==>
      c.reason.proposal.content.block == before.value.content.block
  }

  predicate BindingInvariant(n: Node) {
    && n.manager.proposed == LatestProposal(n.casts)
    && forall j | 0 <= j < |n.casts| :: IsBoundVote(LatestProposal(n.casts[..j]), n.casts[j])
  }

  lemma CastKeepsBinding(n: Node, m': Manager, c: Cast, time: Timestamp)
    requires BindingInvariant(n) && IsBoundVote(n.manager.proposed, c)
    requires m'.proposed == if c.reason.ByProposal? then Some(c.reason.proposal) else n.manager.proposed
    ensures BindingInvariant(Advance(n, m', Some(c.vote), c.reason, time))
  {
    var n' := Advance(n, m', Some(c.vote), c.reason, time);
    assert n'.casts[..|n.casts|] == n.casts;
    forall j | 0 <= j < |n'.casts| ensures IsBoundVote(LatestProposal(n'.casts[..j]), n'.casts[j]) {
      assert n'.casts[..j] == n.casts[..j];
    }
  }

  lemma ProposeKeepsBinding(cfg: Config, votes: set<Signature>, n: Node, step: Step)
    requires BindingInvariant(n) && step.Propose? && NodeEnabled(cfg, votes, n.manager, step)
    ensures BindingInvariant(StepNode(cfg, n, step))
  {
    var Propose(v, p, executed, time) := step;
    var (m', vote) := n.manager.CreateVote(p, executed, Some(v), time);
    CastKeepsBinding(n, m', Cast(vote.value, ByProposal(p)), time);
  }

  lemma OthersKeepBinding(cfg: Config, n: Node, step: Step)
    requires BindingInvariant(n) && !step.Propose? && !step.Forge?
    ensures BindingInvariant(StepNode(cfg, n, step))
  {
    var n' := StepNode(cfg, n, step);
    if n'.casts != n.casts {
      var c := n'.casts[|n.casts|];
      CastKeepsBinding(n, n'.manager, c, step.time);
    }
  }

  lemma NextKeepsBinding(cfg: Config, s: System, s': System, v: ValidatorName)
    requires Next(cfg, s, s') && v in s.nodes && BindingInvariant(s.nodes[v])
    ensures v in s'.nodes && BindingInvariant(s'.nodes[v])
  {
    var step :| Enabled(cfg, s, step) && s' == Apply(cfg, s, step);
    if step.Forge? || step.v != v {
      assert s'.nodes[v] == s.nodes[v];
    } else if step.Propose? {
      ProposeKeepsBinding(cfg, s.votes, s.nodes[v], step);
    } else {
      OthersKeepBinding(cfg, s.nodes[v], step);
    }
  }

  lemma {:induction false} RunKeepsBinding(cfg: Config, run: seq<System>, k: nat, v: ValidatorName)
    requires IsRun(cfg, run) && k < |run| && v in cfg.honest
    ensures v in run[k].nodes && BindingInvariant(run[k].nodes[v])
  {
    if k > 0 {
      RunKeepsBinding(cfg, run, k - 1, v);
      assert StepsAt(cfg, run, k - 1);
      NextKeepsBinding(cfg, run[k - 1], run[k], v);
    }
  }

  lemma {:induction false} LatestIsThere(casts: seq<Cast>, i: nat, j: nat)
    requires i < j <= |casts| && casts[i].reason.ByProposal?
    requires forall l | i < l < j :: !casts[l].reason.ByProposal?
    ensures LatestProposal(casts[..j]) == Some(casts[i].reason.proposal)
    decreases j
  {
    assert casts[..j][..j - 1] == casts[..j - 1];
    if i < j - 1 {
      LatestIsThere(casts, i, j - 1);
    }
  }

  /**
   * What the fast vote of an honest validator guarantees, in every run: its next vote for a proposal
   * is for the same block, unless that proposal carries a certificate.
   */
  lemma FastVoteBindsTheNextProposal(cfg: Config, run: seq<System>, k: nat, v: ValidatorName, i: nat, j: nat)
    requires IsRun(cfg, run) && k < |run| && v in cfg.honest && v in run[k].nodes && i < j < |run[k].nodes[v].casts|
    requires IsFastVote(run[k].nodes[v].casts[i]) && IsFreshVote(run[k].nodes[v].casts[j])
    requires forall l | i < l < j :: !run[k].nodes[v].casts[l].reason.ByProposal?
    ensures var a, b := run[k].nodes[v].casts[i].vote.statement.value, run[k].nodes[v].casts[j].vote.statement.value;
            a.Executed? && b.Executed? && a.executed.block == b.executed.block
  {
    var casts := run[k].nodes[v].casts;
    RunKeepsBinding(cfg, run, k, v);
    LatestIsThere(casts, i, j);
    VotesAreForTheProposal(cfg, run, k, v, i);
    VotesAreForTheProposal(cfg, run, k, v, j);
    assert IsBoundVote(LatestProposal(casts[..j]), casts[j]);
  }

  lemma VotesAreForTheProposal(cfg: Config, run: seq<System>, k: nat, v: ValidatorName, i: nat)
    requires IsRun(cfg, run) && k < |run| && v in cfg.honest && v in run[k].nodes && i < |run[k].nodes[v].casts|
    requires run[k].nodes[v].casts[i].reason.ByProposal?
    ensures var c := run[k].nodes[v].casts[i];
            && c.vote.statement.value.Executed?
            && c.vote.statement.value.executed.block == c.reason.proposal.content.block
            && c.vote.statement.round == c.reason.proposal.content.round
  {
    RunKeepsInvariant(cfg, run, k);
    NodeOf(cfg, run[k], v);
    assert Justified(cfg, run[k].votes, v, run[k].nodes[v].casts[i]);
  }

  // ----- Agreement -----

  /** With any super owner, some run confirms two different blocks, whatever the committee. */
  lemma SuperOwnersBreakAgreement(cfg: Config, owner: Owner)
    requires cfg.committee.MostlyHonest(cfg.honest) && owner in cfg.ownership.superOwners
    ensures !SafeFor(cfg)
  {
    var run := DisagreeingRun(cfg, owner);
    assert !Agreement(cfg, Last(run));
  }

  lemma SafeWithoutSuperOwners(cfg: Config)
    requires cfg.ownership.superOwners == map[]
    ensures SafeFor(cfg)
  {
    forall run: seq<System>, k | IsRun(cfg, run) && 0 <= k < |run| ensures Agreement(cfg, run[k]) {
      RunKeepsInvariant(cfg, run, k);
      NoFastLockWithoutSuperOwners(cfg, run[k]);
      RunsAgree(cfg, run, k);
    }
  }

  /** A configuration guarantees agreement exactly if it has no fast round. */
  lemma SafeExactlyWithoutSuperOwners(cfg: Config)
    requires cfg.committee.MostlyHonest(cfg.honest)
    ensures SafeFor(cfg) <==> cfg.ownership.superOwners == map[]
  {
    if cfg.ownership.superOwners == map[] {
      SafeWithoutSuperOwners(cfg);
    } else {
      var owner :| owner in cfg.ownership.superOwners;
      SuperOwnersBreakAgreement(cfg, owner);
    }
  }
}
