# A model of the Linera chain protocol

This project models the state machines at the heart of a Linera microchain and proves what they keep,
for every input and every run. `dafny verify dfyconfig.toml` checks all of it.

- **Consensus.** `Rounds`, `Committees`, `Certificates` and `ChainManagers` are the parts: rounds and
  their successors, stake-weighted quorums, certificates and their aggregation, and the chain manager
  that decides on proposals, certificates and timeouts. `Consensus` puts any number of honest managers,
  an adversary that casts arbitrary votes for everyone else and the set of all votes into one transition
  system. It proves agreement, the lock induction and the discipline of rounds and timeouts over all
  runs. `ConsensusRecords` adds what the lock and the vote slots hold, and why a leader round started, and
  `Proposers` who may propose.
  `Continuations` builds longer runs, phase by phase. `FastRound` settles for every configuration when
  agreement holds in all of its runs. `Progress`, `SuperOwners` and `PublicChains` settle when a block can
  still be confirmed, and `ReachableRounds` which rounds can ever be current.
- **Messages.** `Messages` numbers and groups the messages of a block and looks them up. `Inboxes` is
  the inbox of one origin, whose additions and removals may come in any order. `ChainInboxes` is the
  lazily cleaned queue of unskippable bundles over all inboxes. `Outboxes` is the set of outgoing queues
  with its counters.
- **Applications.** `Applications` is the registry and the depth-first topological sort of dependencies.
- **Client.** `QuorumCommunication` is the loop that collects responses until a quorum agrees.
- **Fees.** `Fees` and `ResourceControllers` are multi-source charging, the resource tracker, and user
  actions that are charged to a snapshot of the balance and merged afterwards. `Amounts` is the parser
  and printer of token amounts.

Operations that update fields in place are class methods or methods with loops, each proved equal to a
function on values or to a stated property; the theorems are about those functions. After a failed
operation, the source discards the state, and the contracts say nothing about it unless stated.

Assumptions: signatures cannot be forged (a certificate only holds signatures of votes that were cast),
hashes identify values, the validators outside `honest` hold less than the validity threshold, and vote
sums do not overflow. The leader of a round is an arbitrary map. The checks that the caller of the chain
manager makes before a step are those of linera-core/src/chain_worker/state/attempted_changes.rs and
temporary_changes.rs. For the fallback vote this takes the time at which each validator has seen its oldest
waiting unskippable bundle, if there is one; it is part of the configuration, because the queue only
loses bundles when a block is confirmed.

**Where the code and its documentation differ.**

- The introduction of linera-chain/src/manager.rs (lines 28-44) promises in all modes that at most one
  block is confirmed. The code keeps the fast-round vote only as the latest proposal. So for every
  configuration, with any committee, the promise holds in all runs if and only if there are no super
  owners (`FastRound.SafeExactlyWithoutSuperOwners`). The fast vote binds exactly the next proposal without
  a certificate (`FastRound.FastVoteBindsTheNextProposal`). Outside the fast round agreement always holds
  (`Consensus.LaterCertificatesAgree`), and keeping the fast vote for all later proposals without a
  certificate would be enough (`Consensus.RunsAgree`).
- The same introduction (lines 15-17) warns that super owners who propose several blocks in the fast round
  can permanently block the chain. In the code a super owner may still propose in any later round, so every
  run below the last round can go on to confirm a block (`SuperOwners.SuperOwnersCanConfirm`).
- The same introduction (lines 24-26) promises that the fallback mode can always make progress. On a chain
  without owners no timeout is ever signed (line 330), so a round that was used up is never left. With a
  leader for every round that samples one, every run below the last round can go on to confirm a block if
  and only if there are super owners or owners, or one honest validator makes a quorum with the faulty ones
  (`PublicChains.ConfirmableExactlyWithOwners`); `PublicChains.FourValidatorsCanGetStuck` gives the run.
- A proposal may be in a multi-leader round past the configured number. Such a round becomes current
  without a timeout (`ReachableRounds.UnconfiguredRoundWithoutTimeout`).
- An outbox is forgotten when it is emptied, so a height can be scheduled again for a target
  (`Outboxes.ScheduledTwice`); `Outboxes.ScheduledAgainExactly` says exactly when.
- `find_dependencies` returns a topological order exactly when there is no cyclic dependency;
  `Applications.RegisteringAgainCanCloseACycle` shows how a repeated registration can create one, and
  `Applications.RegistrationIsAcyclicExactly` says exactly when a registration leaves none.

## Model

| member | source | states |
|---|---|---|
| `Rounds.RankEmbedsTheDerivedOrder` | linera-base/src/data_types.rs:105-118 | the numbering of rounds used in all proofs is exactly the derived order on rounds, and is injective |
| `Rounds.NextRoundIsTheSuccessor` | linera-base/src/ownership.rs:171-185 | the next round is the least configured round above the given one, so timeouts leave out no configured round; only the very last round has none |
| `Rounds.NextRoundIsMonotone` | linera-base/src/ownership.rs:171-185 | later rounds have later successors |
| `Rounds.CooperativeTimeouts` | linera-base/src/ownership.rs:126-143 | a multi-leader round times out exactly if it is the last configured one (with saturation), while every one from there on leads into the leader rotation |
| `Rounds.LeaderTimeoutsGrow` | linera-base/src/ownership.rs:126-143 | leader rounds never become shorter, saturation included |
| `Rounds.RoundDurations` | linera-base/src/ownership.rs:126-143 | the fast round lasts as configured, the last multi-leader round the base timeout, and both kinds of leader rounds the base timeout plus one increment per round, up to the largest number |
| `Rounds.LeaderTimeoutsGrowByTheIncrement` | linera-base/src/ownership.rs:126-143 | below saturation, consecutive leader rounds differ by exactly the increment |
| `Committees.VotesAreStakes` | linera-execution/src/committee.rs:330-335 | the votes of a set of validators are the sum of their entries in the committee |
| `Committees.RaisingAnEntry` | linera-execution/src/committee.rs:330-335 | raising one entry raises the votes of exactly the sets that hold the name, by that amount |
| `Committees.ThresholdsAreFractions` | linera-execution/src/committee.rs:292-311 | a quorum holds more than two thirds of all stakes, and the validity threshold is reached from one third on |
| `Committees.QuorumsIntersect` | linera-execution/src/committee.rs:292-311 | any two quorums share at least the validity threshold of votes |
| `Committees.QuorumsShareAnHonestVote` | linera-execution/src/committee.rs:292-311 | any two quorums have an honest validator in common, whatever the weights |
| `Committees.QuorumLeavesNoSecond` | linera-execution/src/committee.rs:292-311 | what is left beside a quorum is below the validity threshold, hence no second quorum |
| `Committees.HonestIsQuorum` | linera-execution/src/committee.rs:292-311 | if the faulty votes stay below the validity threshold, the honest validators are a quorum |
| `Certificates.CheckSignatures` | linera-chain/src/data_types.rs:899-929 | accepts exactly the certificates with distinct members as signers, a quorum of votes and valid signatures; the entries of the signers add up to more than two thirds of all entries; each error has its reason |
| `Certificates.SignatureAggregator.AppendSignature` | linera-chain/src/data_types.rs:860-889 | one call has exactly the effect of the specification, failing calls included |
| `Certificates.AppendKeepsInvariant` | linera-chain/src/data_types.rs:860-889 | any call keeps: one valid signature per contributor in strict order, and the weight counts the signers or, after the certificate, those it does not hold |
| `Certificates.AggregatorIsSound` | linera-chain/src/data_types.rs:839-890 | over any sequence of calls at most one certificate is returned; exactly one if and only if the validators with a valid signature form a quorum; it is valid and strictly ordered |
| `Certificates.CallsAreRefusedExactly` | linera-chain/src/data_types.rs:860-889 | after any calls, a further one is refused exactly for an invalid signature, a validator that already submitted a valid one, or one without votes, in this order |
| `ChainManagers.ChainManager.constructor` | linera-chain/src/manager.rs:175-225 | starts in the first round of the ownership with its timer and no votes |
| `ChainManagers.ChainManager.UpdateCurrentRound` | linera-chain/src/manager.rs:481-501 | moves to the highest round started by the configuration, a timeout, the lock or the proposal, and restarts the timer only when the round grows |
| `ChainManagers.ChainManager.CreateVote` | linera-chain/src/manager.rs:400-448 | the manager and the vote; after an accepted proposal its round is current, the vote is in that round, and nothing remembered moves back |
| `ChainManagers.ChainManager.CreateFinalVote` | linera-chain/src/manager.rs:452-476 | the manager and the vote; after an accepted certificate it is the lock, its round is current and the vote is in it, or nothing changes for a validator past its round |
| `ChainManagers.ChainManager.VoteTimeout` | linera-chain/src/manager.rs:316-342 | the manager and whether it signed; a signed timeout is for the current round, which was not signed before |
| `ChainManagers.ChainManager.VoteFallback` | linera-chain/src/manager.rs:348-365 | the manager and whether it signed; it signs at most once, and only before the validator rounds |
| `ChainManagers.ChainManager.HandleTimeoutCertificate` | linera-chain/src/manager.rs:505-518 | the manager afterwards is at least in the round after the timeout, and nothing remembered moves back |
| `ChainManagers.AcceptedProposalIsSafe` | linera-chain/src/manager.rs:248-313 | an accepted proposal is in the current round or later, above any earlier proposal, and carries a certificate no older than the lock |
| `ChainManagers.ProposalAcceptedExactly` | linera-chain/src/manager.rs:248-313 | exactly which proposals are accepted, and which are skipped, by round, earlier proposal, fast block and lock |
| `ChainManagers.CertificateAcceptedExactly` | linera-chain/src/manager.rs:368-397 | exactly which validated block certificates are accepted, and which are skipped |
| `ChainManagers.ProposalTakesEffect` | linera-chain/src/manager.rs:400-448 | an accepted proposal makes its round the current one, where the vote is cast, and nothing remembered moves back |
| `ChainManagers.CertificateTakesEffect` | linera-chain/src/manager.rs:452-476 | an accepted certificate becomes the lock and makes its round the current one, exactly if that round has not passed |
| `ChainManagers.AcceptedCertificateIsNew` | linera-chain/src/manager.rs:368-397 | an accepted validated block certificate is above the lock |
| `Consensus.RunKeepsInvariant` | linera-chain/src/manager.rs:248-518 | every state of every run satisfies the protocol invariant: what each validator remembers, why it cast each vote, how its votes are ordered, and its timer |
| `Consensus.NothingIsValidatedInTheFastRound` | linera-chain/src/manager.rs:429-445 | no quorum ever validates in the fast round |
| `Consensus.ConfirmedMeansValidated` | linera-chain/src/manager.rs:38-39 | outside the fast round, a confirmed block was validated by a quorum in the same round |
| `Consensus.OnePerRound` | linera-chain/src/manager.rs:281-289 | in each round, fast included, a quorum validates at most one block and confirms at most one |
| `Consensus.CertificatesOfARoundAgree` | linera-chain/src/manager.rs:281-289 | in every run, two certificates of one kind and round carry the same block, with or without super owners |
| `Consensus.RevoteIsJustified` | linera-chain/src/manager.rs:34-37 | an honest validator that confirmed a block outside the fast round validates another one later only if a quorum validated that one in between; for the fast round, if the fast lock is kept |
| `Consensus.LockHolds` | linera-chain/src/manager.rs:41-44 | once a quorum confirms a block outside the fast round, no other block is validated by a quorum in that round or any later one; for the fast round, if the fast lock is kept |
| `Consensus.RunsAgree` | linera-chain/src/manager.rs:28-44 | agreement in every run in which proposals without a certificate keep to the block voted for in the fast round |
| `Consensus.ConfirmedCertificatesAgree` | linera-chain/src/manager.rs:28-44 | on a chain without super owners, any two confirmed block certificates of any run carry the same block, whatever their rounds |
| `Consensus.LaterCertificatesAgree` | linera-chain/src/manager.rs:28-44 | with or without super owners, any two confirmed block certificates outside the fast round carry the same block |
| `Consensus.CurrentRoundIsTheHighestStarted` | linera-chain/src/manager.rs:481-501 | in every reachable state the current round is the maximum of the rounds started by the configuration, the timeout, the lock and the proposal |
| `Consensus.RoundsNeverDecrease` | linera-chain/src/manager.rs:481-501 | a validator's current round never decreases over a run |
| `Consensus.VotesFollowTheRounds` | linera-chain/src/manager.rs:32-33 | the validated, confirmed and leader timeout votes of a validator have non-decreasing rounds |
| `Consensus.TimeoutsAreTimely` | linera-chain/src/manager.rs:316-342 | a validator signs the timeout of a round at most once, and not before the round was current for its configured duration, with saturation |
| `Consensus.FallbacksAreTimely` | linera-core/src/chain_worker/state/attempted_changes.rs:535-559 | a validator signs the fallback only for the last leader round, and not before an unskippable bundle has waited for the configured duration |
| `Consensus.FallbackHasAReason` | linera-chain/src/manager.rs:344-365 | a quorum signs the timeout that starts the fallback mode only if an honest validator was in the last leader round, or has seen an unskippable bundle that waited for long enough |
| `ConsensusRecords.RecordsAreExact` | linera-chain/src/manager.rs:400-476 | in every run the lock is the certificate of the highest round the validator ever acted on, the vote slots hold its latest votes, and it falls back at most once |
| `ConsensusRecords.TimeoutMovesToTheNextRound` | linera-chain/src/manager.rs:505-518 | a timeout certificate only ever moves to the round after it |
| `ConsensusRecords.LeaderRoundsAreEarned` | linera-chain/src/manager.rs:267-280 | without super owners, no honest validator is in a leader round after the first one unless a quorum timed out, or validated a block in, the round just before it |
| `Proposers.ProposersAreEntitled` | linera-chain/src/manager.rs:522-545 | in every run, honest validators vote for a proposal that is not by a super owner only if it is by an owner in a multi-leader round, or by the leader of its leader round; never in the fast round |
| `Proposers.OneProposerPerLeaderRound` | linera-chain/src/manager.rs:522-545 | in every run, all proposals of a leader round that honest validators voted for have the same proposer, apart from super owners |
| `Proposers.OpenRoundAcceptsExactly` | linera-chain/src/manager.rs:248-313 | in every run, an honest validator that is neither locked nor bound accepts a new proposal in an open round exactly from a super owner, an owner in a multi-leader round, or the leader; only a super owner leaves the fast round |
| `Proposers.OutcomesAreCertified` | linera-core/src/chain_worker/state/temporary_changes.rs:170-177 | in every run, a proposal that was voted for holds an outcome exactly if it carries a certificate, and then the certified one |
| `Continuations.AcceptedIsConfirmed` | linera-chain/src/manager.rs:57-58 | a proposal outside the fast round that every honest validator accepts can be validated and confirmed |
| `Continuations.TimeOutAll` | linera-chain/src/manager.rs:60-66 | honest validators that are all in a round with a timeout can all move to the next one, where nothing has happened yet |
| `Continuations.FallBackAll` | linera-core/src/chain_worker/state/attempted_changes.rs:535-559 | honest validators that are all before the validator rounds, and have each seen an unskippable bundle that can wait for the configured duration, can all fall back to the first validator round |
| `FastRound.FastVoteBindsTheNextProposal` | linera-chain/src/manager.rs:290-299 | in every run, the next vote of an honest validator after its fast vote is for the same block, unless the proposal carries a certificate |
| `FastRound.DisagreeingRun` | linera-chain/src/manager.rs:290-299 | for every configuration with a super owner and any committee, a run in which two blocks are confirmed |
| `FastRound.SuperOwnersBreakAgreement` | linera-chain/src/manager.rs:290-299 | no configuration with a super owner has agreement in all of its runs |
| `FastRound.SafeExactlyWithoutSuperOwners` | linera-chain/src/manager.rs:28-44 | for every configuration, agreement holds in all of its runs if and only if it has no super owner |
| `Progress.RunKeepsLocks` | linera-chain/src/manager.rs:400-476 | in every run, a lock is always a certificate for a block that can be proposed again |
| `Progress.RetryIsAccepted` | linera-chain/src/manager.rs:53-58 | an honest validator accepts a proposal by an allowed owner in an expected, unused round that carries a certificate at least as recent as its lock |
| `Progress.HigherRoundIsOpen` | linera-chain/src/manager.rs:266-280 | a cooperative round above the current one is open, and so is the first leader round |
| `Progress.OpenRoundCanConfirm` | linera-chain/src/manager.rs:53-69 | a round open to all honest validators can confirm a block: the proposed one, unless an honest validator is locked |
| `Progress.CatchUp` | linera-chain/src/manager.rs:63-68 | with owners and without super owners, all honest validators can follow to a leader round that one of them is in, by the certificate that started it or, for the first leader round, by a proposal of its leader |
| `Progress.OwnersCanConfirm` | linera-chain/src/manager.rs:46-69 | on a chain with owners, leaders for all single-leader and validator rounds and no super owners, every run below the last round can go on to confirm a block, by proposals and timeouts alone |
| `SuperOwners.SuperOwnersCanConfirm` | linera-chain/src/manager.rs:266-280 | on a chain with super owners, every run below the last round can go on to confirm a block, whatever was proposed in the fast round |
| `PublicChains.PivotalCanConfirm` | linera-chain/src/manager.rs:24-26 | without owners, every run can go on to confirm a block if one honest validator makes a quorum with the faulty ones |
| `PublicChains.PublicChainCanGetStuck` | linera-chain/src/manager.rs:327-332 | without owners and without such a validator, there is a run after which nothing is ever certified in any continuation |
| `PublicChains.FourValidatorsCanGetStuck` | linera-chain/src/manager.rs:327-332 | four equal validators, one of them faulty, can get stuck on a chain without owners |
| `PublicChains.ConfirmableExactlyWithOwners` | linera-chain/src/manager.rs:24-26 | with a leader for every round that samples one, every run below the last round can go on to confirm a block if and only if there are super owners or owners, or one honest validator makes a quorum with the faulty ones |
| `ReachableRounds.RoundsThatCanBeCurrent` | linera-chain/src/manager.rs:266-280 | for every configuration, exactly which rounds can become the current one: all with super owners, all from the first one with owners, and else the validator rounds with leaders up to them |
| `ReachableRounds.UnconfiguredRoundWithoutTimeout` | linera-chain/src/manager.rs:522-537 | a multi-leader round past the configured number can become current, and then has no timeout |
| `Inboxes.InboxState.RemoveBundle` | linera-chain/src/inbox.rs:169-223 | result, error and new state of a removal, skipping loop included |
| `Inboxes.InboxState.AddBundle` | linera-chain/src/inbox.rs:229-274 | result, error and new state of an addition |
| `Inboxes.AddStep` | linera-chain/src/inbox.rs:229-274 | an addition succeeds exactly if the extended histories still reconcile; the new inbox is a function of the histories, and the flag tells whether it is past everything removed |
| `Inboxes.RemoveStep` | linera-chain/src/inbox.rs:169-223 | the same for a removal; the flag tells whether the bundle was added before |
| `Inboxes.RunReconciles` | linera-chain/src/inbox.rs:169-274 | a sequence of operations succeeds exactly if its additions and removals reconcile, and then the queues are the added bundles past the removals and the removed bundles past the additions |
| `Inboxes.InterleavingsAgree` | linera-chain/src/inbox.rs:27-53 | every interleaving of the same additions and removals has the same outcome and the same inbox |
| `Inboxes.QueuesAreInOrder` | linera-chain/src/inbox.rs:27-53 | in every reachable inbox one queue is empty, and both are strictly increasing and within the cursors |
| `Inboxes.NothingOutstandingMeansReceived` | linera-chain/src/chain.rs:418-436 | once no removal is outstanding, the removed bundles are a subsequence of the added ones and everything passed over was skippable |
| `Inboxes.UnskippableIsRemoved` | linera-chain/src/data_types.rs:605-610 | in every run, an added bundle that is passed by the removals and holds a protected or tracked message, or one with a grant, was removed |
| `Inboxes.RemoveErrorsExactly` | linera-chain/src/inbox.rs:169-223 | after any run, exactly when a removal fails with which error, in terms of the bundles added and removed, their kinds and grants |
| `Inboxes.AddErrorsExactly` | linera-chain/src/inbox.rs:229-274 | the same for an addition |
| `Inboxes.NextHeightIsAboveAllAdded` | linera-chain/src/inbox.rs:157-164 | the next height to receive is the least one above all bundles added |
| `ChainInboxes.ChainState.ReceiveBundle` | linera-chain/src/chain.rs:510-535 | unless the bundle holds subscriptions only, adds it to the inbox of the origin, queues a new bundle with a protected or tracked message or a grant, with the local time, and keeps the index consistent; logs the certificate if asked to |
| `ChainInboxes.ChainState.RemoveBundlesFromInboxes` | linera-chain/src/chain.rs:584-645 | succeeds exactly if no bundle is from the future and removing one bundle after the other in block order succeeds, with the same inboxes; every bundle was waiting or is kept as removed ahead of time; keeps the index consistent |
| `ChainInboxes.RemoveFromInboxes` | linera-chain/src/chain.rs:584-620 | grouped by origin, the removals have the outcome of the block order; the inboxes afterwards, and exactly which waiting unskippable bundles left |
| `ChainInboxes.GroupingIsIrrelevant` | linera-chain/src/chain.rs:588-620 | removing the bundles of each origin together is removing all bundles in the order of the block |
| `ChainInboxes.RemovalsAreAccountedFor` | linera-chain/src/chain.rs:588-620 | every bundle of the block was waiting before or is kept as removed afterwards, and nothing new waits |
| `ChainInboxes.WaitingExactly` | linera-chain/src/data_types.rs:574-610 | the bundles in the index are those in an inbox with a protected or tracked message or a grant |
| `ChainInboxes.GoesToInboxExactly` | linera-execution/src/lib.rs:1164-1169 | exactly the bundles that hold anything but subscriptions go to the inbox |
| `ChainInboxes.DeleteRemoved` | linera-chain/src/chain.rs:621-643 | the lazy clean-up keeps the relation between queue, removed set and waiting bundles and never leaves a removed bundle in front |
| `ChainInboxes.QueueListsTheWaiting` | linera-chain/src/chain.rs:510-529 | the queue without the removed set is exactly the unskippable bundles waiting in all inboxes, in arrival order |
| `ChainInboxes.FrontIsTheOldest` | linera-chain/src/chain.rs:584-645 | the front of the queue is the first arrival that still waits, and the queue is empty only if none waits |
| `Messages.PostedExactly` | linera-chain/src/data_types.rs:362-395 | exactly the messages with the destination are posted, once each, in order, under their own index |
| `Messages.PostMessages` | linera-chain/src/data_types.rs:648-652 | the inner loop posts the messages of one transaction with consecutive indices |
| `Messages.MessageBundlesFor` | linera-chain/src/data_types.rs:634-665 | the loop over transactions yields the specified bundles with the epoch of the block |
| `Messages.BundlesHoldTheMessages` | linera-chain/src/data_types.rs:634-665 | joined together, the bundles are the messages of the whole block for the destination, numbered across transactions |
| `Messages.BundlesAreInOrder` | linera-chain/src/data_types.rs:634-665 | no bundle is empty, and their cursors strictly increase within the height |
| `Messages.MessageById` | linera-chain/src/data_types.rs:694-711 | finds the message with that index among all messages of the block, exactly when the identifier is one of its own |
| `Messages.OperationMessagesAreFound` | linera-chain/src/data_types.rs:669-692 | the identifier of an operation's message leads back to that message, and exists for every one of them |
| `Messages.PostedMessagesAreFound` | linera-chain/src/data_types.rs:634-711 | a message is in the bundles if and only if looking up its index gives that message with the destination |
| `Messages.BundlesHoldExactly` | linera-chain/src/data_types.rs:362-395 | exactly the messages to the recipient, or to the channel of that name of their own application, are in the bundles, with signer, grant, refund account, kind and content |
| `Messages.BundlesNameTheirTransaction` | linera-chain/src/data_types.rs:634-665 | a bundle has the height, timestamp and hash of its block and holds only messages of its own transaction |
| `Messages.BundlesAreAccepted` | linera-chain/src/inbox.rs:229-274 | an inbox with nothing removed ahead of time, expecting that height or an earlier one, accepts all bundles of a block in order |
| `Outboxes.ChainOutboxes.ScheduleMessage` | linera-chain/src/outbox.rs:43-53 | schedules a height unless the outbox of the target remembers it or a later one, and keeps the counters exact |
| `Outboxes.ScheduledAgainExactly` | linera-chain/src/chain.rs:352-380 | after any history, a height is added for a target if and only if every earlier scheduling of it or a later one was followed by an acknowledgement that emptied the outbox |
| `Outboxes.ScheduledTwice` | linera-chain/src/chain.rs:376-378 | scheduling, acknowledging and scheduling again adds the same height twice |
| `Outboxes.ChainOutboxes.ScheduleForTargets` | linera-chain/src/chain.rs:1099-1110 | every target to which the height is new gets it at the end of its queue, all other queues are unchanged, and the counters stay exact; fails only for the largest height |
| `Outboxes.ChainOutboxes.BackFill` | linera-chain/src/chain.rs:1187-1205 | exactly the heights that are above all before them, and not remembered, are added to the queue of the target; other targets are unchanged; the flag tells whether anything is new |
| `Outboxes.ScheduledForAllExactly` | linera-chain/src/chain.rs:1101-1110 | the outbox of every target after scheduling a height for a list of targets |
| `Outboxes.BackFilledExactly` | linera-chain/src/chain.rs:1195-1203 | the outbox of every target after scheduling a list of heights for one target |
| `Outboxes.ChainOutboxes.MarkMessagesAsReceived` | linera-chain/src/chain.rs:352-380 | drops exactly the acknowledged heights and keeps the counters exact; the counters it touches are present and positive |
| `Outboxes.PopUpTo` | linera-chain/src/outbox.rs:57-70 | splits the queue into the heights up to the acknowledged one and those above |
| `Outboxes.ReleaseCounters` | linera-chain/src/chain.rs:362-375 | decrements the counters of the heights that left one outbox, without underflow, dropping those that reach zero |
| `Outboxes.ReleaseOne` | linera-chain/src/chain.rs:362-375 | the counter of a height that leaves an outbox is present and positive, so neither expectation of the source can fail |
| `Outboxes.ChainOutboxes.AllMessagesDeliveredUpTo` | linera-chain/src/chain.rs:384-395 | true exactly when no outbox holds a height up to the given one |
| `Outboxes.CountersAreBounded` | linera-chain/src/chain.rs:1099-1110 | a counter never exceeds the number of targets |
| `Applications.ApplicationRegistry.RegisterApplication` | linera-execution/src/applications.rs:52-63 | registers exactly if all required applications are known; an error names one that is not |
| `Applications.ApplicationRegistry.RegisterNewApplication` | linera-execution/src/applications.rs:66-90 | the same for a newly created application |
| `Applications.ApplicationRegistry.FindDependencies` | linera-execution/src/applications.rs:104-144 | terminates on every registry; succeeds exactly if everything reachable is known; returns each reachable application exactly once and nothing else, in topological order if and only if there is no cycle |
| `Applications.FirstTimeRegistrationsAreAcyclic` | linera-execution/src/applications.rs:52-63 | a registry built by first-time registrations has no cycle and nothing missing |
| `Applications.RegistrationIsAcyclicExactly` | linera-execution/src/applications.rs:52-63 | after a registration the registry has no cycle if and only if it has none without the registered application, and that one is not reachable from the applications it requires |
| `Applications.RegistrationKeepsAcyclicExactly` | linera-execution/src/applications.rs:52-63 | a registration keeps a registry free of cycles if and only if the application is not reachable from those it requires |
| `Applications.RegisteringAgainCanCloseACycle` | linera-execution/src/applications.rs:52-63 | a second registration of an application with other requirements can close a cycle |
| `QuorumCommunication.CollectResponses` | linera-core/src/updater.rs:133-182 | the loop's scores, values, highest score and remaining votes are exact after every prefix, the remaining votes do not underflow, it returns as soon as an error is trusted, stops as soon as no quorum is possible, and else exactly when the grace period after the first quorum is over |
| `QuorumCommunication.CommunicateWithQuorum` | linera-core/src/updater.rs:103-208 | for every arrival order, and whenever the maximal timeout expires, a key is returned if and only if some key has a quorum among the responses in time; it is that key, with exactly the values received until the end of the grace period; a trusted error was returned by the validity threshold; other failures report the scores and numbers of values, or the errors, where the loop had to stop |
| `QuorumCommunication.SampleErrors` | linera-core/src/updater.rs:203-207 | at most four errors with their scores, highest first; all of them if there are fewer, and none left out has a higher score |
| `QuorumCommunication.QuorumKeyIsUnique` | linera-core/src/updater.rs:188-194 | at most one key has a quorum, so the order of iteration does not matter |
| `QuorumCommunication.ArrivalOrderIsIrrelevant` | linera-core/src/updater.rs:140-182 | which key has a quorum does not depend on the order of the responses |
| `QuorumCommunication.WithRightsKeepsOrder` | linera-core/src/updater.rs:119-131 | leaving out validators without votes keeps the order of the others |
| `QuorumCommunication.TrustedErrorExcludesQuorum` | linera-core/src/updater.rs:163-169 | an error returned by the validity threshold leaves no key with a quorum, so returning early is right |
| `QuorumCommunication.NoQuorumFound` | linera-core/src/updater.rs:172-175 | when the loop stops and no key has a quorum yet, no key has one among all responses |
| `Fees.TrySubAssign` | linera-execution/src/resources.rs:367-380 | draws the fee from the sources in order; succeeds exactly if their sum suffices |
| `Fees.DrawnInOrder` | linera-execution/src/resources.rs:367-380 | a source is touched only for the part of the fee that exceeds all sources before it |
| `Fees.DrawnPays` | linera-execution/src/resources.rs:367-380 | the sum drops by the fee, or to zero |
| `Fees.DrawnTwice` | linera-execution/src/resources.rs:367-380 | two charges leave every source as one charge of their sum |
| `Fees.Balance` | linera-execution/src/resources.rs:352-358 | the sum of the sources, or nothing exactly if it overflows |
| `Fees.RunSucceedsWhenAffordable` | linera-execution/src/resources.rs:122-253 | a whole run of track calls succeeds exactly if no price overflows, the totals respect all limits and can be paid; then the tracker holds the totals and the sources are as after one charge |
| `Fees.PayablePricesFit` | linera-execution/src/policy.rs:148-180 | a total of at most 128 bits has no price that overflows |
| `Fees.BalanceDropsByThePrice` | linera-execution/src/policy.rs:148-180 | after any successful run the balance has dropped by the policy price of the counters plus the grants |
| `Fees.ChargesIgnoreTheOrder` | linera-execution/src/resources.rs:122-253 | the outcome of a run does not depend on the order of its activities |
| `Fees.RemainingFuelIsExact` | linera-execution/src/resources.rs:111-119 | tracking fuel succeeds if and only if the fuel so far is within the maximum and the amount is at most the remaining fuel, whatever account pays |
| `Fees.CountersAreExact` | linera-execution/src/resources.rs:122-253 | after any activities the counters hold the number of operations and messages, their bytes, the fuel and the bytes read and written |
| `Fees.RunsStayWithinLimits` | linera-execution/src/resources.rs:189-253 | a successful run that uses fuel stays within its maximum, and one that reads or writes bytes stays below theirs |
| `Fees.BytesAreTrackedExactly` | linera-execution/src/resources.rs:226-253 | bytes can be tracked exactly if they stay below the limit and the product with their price fits and can be paid |
| `Fees.SandboxedChargingIsDirect` | linera-execution/src/execution.rs:197-242 | charging a snapshot of the balance succeeds exactly when charging the sources directly does, with the same tracker and the same balance of every source |
| `ResourceControllers.ResourceController.UpdateBalance` | linera-execution/src/resources.rs:101-108 | charges the account exactly if it suffices |
| `ResourceControllers.ResourceController.MergeBalance` | linera-execution/src/resources.rs:84-98 | moves the difference between two balances to or from the account; when each direction succeeds |
| `ResourceControllers.CreditedExactly` | linera-execution/src/resources.rs:360-365 | a credit goes to the last source alone, and fails only if that source overflows |
| `ResourceControllers.ResourceController.TrackGrant` | linera-execution/src/resources.rs:122-125 | succeeds exactly if the activity is within limits and affordable; counters, charge and reason of an error |
| `ResourceControllers.ResourceController.TrackBlock` | linera-execution/src/resources.rs:128-136 | the same for a block |
| `ResourceControllers.ResourceController.TrackOperation` | linera-execution/src/resources.rs:139-161 | the same for a system or user operation, whose two charges act as one |
| `ResourceControllers.ResourceController.TrackMessage` | linera-execution/src/resources.rs:164-186 | the same for a system or user message |
| `ResourceControllers.ResourceController.TrackFuel` | linera-execution/src/resources.rs:189-201 | the same for fuel |
| `ResourceControllers.ResourceController.TrackReadOperations` | linera-execution/src/resources.rs:204-212 | the same for read operations |
| `ResourceControllers.ResourceController.TrackWriteOperations` | linera-execution/src/resources.rs:215-223 | the same for write operations |
| `ResourceControllers.ResourceController.TrackBytesRead` | linera-execution/src/resources.rs:226-238 | the same for bytes read, whose limit is exclusive |
| `ResourceControllers.ResourceController.TrackBytesWritten` | linera-execution/src/resources.rs:241-253 | the same for bytes written, whose limit is exclusive |
| `ResourceControllers.ResourceController.RunUserAction` | linera-execution/src/execution.rs:197-242 | snapshot, sandbox and merge succeed exactly if the sum does not overflow and direct charging succeeds, with the same tracker and sources; nothing changes otherwise |
| `Amounts.Parse` | linera-base/src/data_types.rs:539-571 | accepts exactly the texts of the grammar with at most 18 fractional digits whose exact value in attotokens fits, and returns that value; each error has its reason |
| `Amounts.MeansOnce` | linera-base/src/data_types.rs:539-571 | a text denotes at most one amount |
| `Amounts.WholeTokens` | linera-base/src/data_types.rs:542-571 | a text of digits alone is worth its number times 10^18, if that fits |
| `Amounts.SpacesAreIgnored` | linera-base/src/data_types.rs:545-548 | surrounding white space does not change the value |
| `Amounts.LeadingSigns` | linera-base/src/data_types.rs:545-548 | one leading plus sign does not change the value; a second one, or a minus sign, is refused |
| `Amounts.UnderscoresAreIgnored` | linera-base/src/data_types.rs:549-551 | an underscore among the digits does not change the value |
| `Amounts.AttosAreShiftedDigits` | linera-base/src/data_types.rs:555-570 | reading all digits as one number and shifting by the missing decimals gives the exact value |
| `Amounts.DisplayIsCanonical` | linera-base/src/data_types.rs:494-526 | the default display has a digit before the point, at most 18 after it, and no superfluous zeros |
| `Amounts.RoundTrip` | linera-base/src/data_types.rs:494-526 | parsing the default display of any amount gives it back |

## Left out

- Cryptography: hashes stand for the values themselves, and signatures for membership in the votes cast.
- Leader sampling: the leader of a round is an arbitrary map from rounds to owners.
- Chain worker and client: only the checks made before a step of the manager are modelled.
- Liveness under timing assumptions: only the possibility of progress is settled. The blobs kept with the lock are not modelled.
- Storage views, asynchronous streams and locks: queues, logs, maps and sets are plain values.
- Executed block size tracking, the count of stored bytes, and `total_price` for declared resources: the model has no counter for block sizes or stored bytes and no declared resources.
- User code between snapshot and merge: its effect on the accounts is taken to be the fees alone.
- Overflow of vote sums in 64 bits, and of outbox counters in 32 bits beyond the bound by the number of targets.
- ReceiveBundle: does not model what a received subscribe, unsubscribe or open-chain message does at once; a bundle of subscriptions is only kept out of the inbox.
- Width, precision, sign and alignment options when displaying an amount.
- Clocks in the client: the grace period is a number of further responses, and the maximal timeout expires after some number of responses, or never.
- CommunicateWithQuorum: the grouping key is a field of the value instead of a function given by the caller.
- MessageBundlesFor: requires fewer than 2^32 messages and transactions, because the 32-bit numbering of the source has no error path for more.
- ConfirmedCertificatesAgree: requires that there are no super owners, because agreement is false otherwise; SafeExactlyWithoutSuperOwners states the exact condition.
- RevoteIsJustified: assumes for the fast round that the fast vote is kept, because the code forgets it with the next proposal; FastVoteBindsTheNextProposal states what remains, and DisagreeingRun gives the run.
- LockHolds: the same assumption for the fast round, for the same reason.
- RunsAgree: only for runs that keep the fast vote; for all runs of a configuration the exact condition is SafeExactlyWithoutSuperOwners.
- OwnersCanConfirm: requires that no honest validator is in the very last round, because that round has no next one, and that the rounds have the leaders which the source samples from the owners and the committee.
- SuperOwnersCanConfirm: requires that no honest validator is in the very last round, because nothing can be proposed above it.
