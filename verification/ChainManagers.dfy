/** The per-validator consensus state for one block height. */
module ChainManagers {
  import opened Basics
  import opened Rounds
  import opened Committees
  import opened Certificates

  datatype ProposalContent = ProposalContent(block: Block, round: Round, outcome: Option<nat>)

  datatype BlockProposal = BlockProposal(
    content: ProposalContent,
    owner: Owner,
    validatedBlockCertificate: Option<Certificate>)

  datatype Outcome = Accept | Skip

  datatype ManagerError =
    | InvalidBlockHeight
    | ArithmeticOverflow
    | InsufficientRound(round: Round)
    | InsufficientRoundStrict(round: Round)
    | WrongRound(round: Round)
    | HasLockedBlock(height: u64, round: Round)

  /** The key of a validator, or `None` on a node that does not vote. */
  type KeyPair = Option<ValidatorName>

  datatype Manager = Manager(
    ownership: ChainOwnership,
    leaders: map<Round, Owner>,
    proposed: Option<BlockProposal>,
    locked: Option<Certificate>,
    timeout: Option<Certificate>,
    confirmedVote: Option<Signature>,
    validatedVote: Option<Signature>,
    timeoutVote: Option<Signature>,
    fallbackVote: Option<Signature>,
    roundTimeout: Option<Timestamp>,
    currentRound: Round)
  {
    /** Whether the signer is an owner allowed to propose in the round of the proposal. */
    predicate VerifyOwner(p: BlockProposal) {
      || p.owner in ownership.superOwners
      || match p.content.round
         case Fast => false
         case MultiLeader(_) => p.owner in ownership.owners
         case r => r in leaders && leaders[r] == p.owner
    }

    /** The round a proposal has to reach; `None` if there is no round after its certificate. */
    function ExpectedRound(p: BlockProposal): Option<Round> {
      if p.validatedBlockCertificate.None? then Some(currentRound)
      else
        var next := ownership.NextRound(p.validatedBlockCertificate.value.vote.round);
        if next.None? then None else Some(Later(next.value, currentRound))
    }

    /** Whether a proposed block may be voted for. */
    function CheckProposedBlock(p: BlockProposal): Result<Outcome, ManagerError> {
      var newRound, newBlock, cert := p.content.round, p.content.block, p.validatedBlockCertificate;
      var expected := ExpectedRound(p);
      if newBlock.height >= U64_MAX then Err(InvalidBlockHeight)
      else if expected.None? then Err(ArithmeticOverflow)
      else
        var anyHigher :=
          p.owner in ownership.superOwners || (Rank(newRound) <= Rank(SingleLeader(0)) && !expected.value.Fast?);
        if anyHigher && Rank(expected.value) > Rank(newRound) then Err(InsufficientRound(expected.value))
        else if !anyHigher && expected.value != newRound then Err(WrongRound(expected.value))
        else if proposed.Some? && proposed.value.content == p.content then Ok(Skip)
        else if proposed.Some? && Rank(newRound) <= Rank(proposed.value.content.round) then
          Err(InsufficientRoundStrict(proposed.value.content.round))
        else if && proposed.Some? && proposed.value.content.round.Fast? && cert.None?
                && proposed.value.content.block != newBlock then
          Err(HasLockedBlock(newBlock.height, Fast))
        else if locked.Some? && (cert.None? || Rank(cert.value.vote.round) < Rank(locked.value.vote.round)) then
          Err(HasLockedBlock(HeightOf(locked.value.vote.value), locked.value.vote.round))
        else Ok(Accept)
    }

    /** Whether a validated block may be voted for to be confirmed. */
    function CheckValidatedBlock(cert: Certificate): Result<Outcome, ManagerError>
      requires cert.vote.value.Executed?
    {
      var newRound := cert.vote.round;
      if && confirmedVote.Some? && confirmedVote.value.statement.value.Executed?
         && confirmedVote.value.statement.value.executed.block == cert.vote.value.executed.block
         && confirmedVote.value.statement.round == newRound then
        Ok(Skip)
      else if validatedVote.Some? && Rank(newRound) < Rank(validatedVote.value.statement.round) then
        Err(InsufficientRound(validatedVote.value.statement.round))
      else if locked.Some? && locked.value.vote.value == cert.vote.value && locked.value.vote.round == newRound then
        Ok(Skip)
      else if locked.Some? && Rank(newRound) <= Rank(locked.value.vote.round) then
        Err(InsufficientRoundStrict(locked.value.vote.round))
      else Ok(Accept)
    }

    function RoundAfterTimeout(): Round {
      if timeout.None? then Fast
      else
        var next := ownership.NextRound(timeout.value.vote.round);
        if next.Some? then next.value else LAST_ROUND
    }

    /** The highest round started by the configuration, a timeout, a lock or a proposal. */
    function TargetRound(): Round {
      Later(ownership.FirstRound(),
        Later(RoundAfterTimeout(),
          Later(if locked.Some? then locked.value.vote.round else Fast,
                if proposed.Some? then proposed.value.content.round else Fast)))
    }

    /** What holds between steps: the current round is the target, and no timeout was signed above it. */
    predicate IsSettled() {
      && currentRound == TargetRound()
      && (timeoutVote.Some? ==> Rank(timeoutVote.value.statement.round) <= Rank(currentRound))
    }

    function UpdateCurrentRound(localTime: Timestamp): Manager {
      if Rank(TargetRound()) <= Rank(currentRound) then this
      else this.(currentRound := TargetRound(),
                 roundTimeout := Deadline(ownership, TargetRound(), localTime))
    }

    /** Stores the proposal, and locks its certificate if that is more recent than our lock. */
    function Record(p: BlockProposal, executed: ExecutedBlock): Manager {
      var cert := p.validatedBlockCertificate;
      var relock :=
        && cert.Some?
        && (locked.None? || Rank(locked.value.vote.round) < Rank(cert.value.vote.round))
        && cert.value.vote.value == Executed(executed) && cert.value.vote.kind == ValidatedBlocks;
      this.(locked := if relock then cert else locked, proposed := Some(p))
    }

    /** Records the proposal and signs a vote for the block; the second part is the new vote. */
    function CreateVote(p: BlockProposal, executed: ExecutedBlock, key: KeyPair, localTime: Timestamp)
      : (Manager, Option<Signature>)
    {
      var m := Record(p, executed).UpdateCurrentRound(localTime);
      if key.None? then (m, None)
      else if p.content.round.Fast? then
        var vote := Some(Signature(key.value, VoteValue(Executed(executed), p.content.round, ConfirmedBlocks)));
        (m.(confirmedVote := vote, validatedVote := None), vote)
      else
        var vote := Some(Signature(key.value, VoteValue(Executed(executed), p.content.round, ValidatedBlocks)));
        (m.(validatedVote := vote, confirmedVote := None), vote)
    }

    /** Locks the validated block and signs a vote to confirm it, unless its round has passed. */
    function CreateFinalVote(cert: Certificate, key: KeyPair, localTime: Timestamp): (Manager, Option<Signature>) {
      if key.Some? && Rank(cert.vote.round) < Rank(currentRound) then (this, None)
      else
        var m := this.(locked := Some(cert)).UpdateCurrentRound(localTime);
        if key.None? then (m, None)
        else
          var vote := Some(Signature(key.value, cert.vote.(kind := ConfirmedBlocks)));
          (m.(confirmedVote := vote, validatedVote := None), vote)
    }

    /** Signs a timeout of the current round if it has expired and was not signed before. */
    function VoteTimeout(value: CertifiedValue, key: KeyPair, localTime: Timestamp): (Manager, Option<Signature>) {
      if || key.None? || roundTimeout.None? || localTime < roundTimeout.value || ownership.owners == map[]
         || (timeoutVote.Some? && timeoutVote.value.statement.round == currentRound) then
        (this, None)
      else
        var vote := Some(Signature(key.value, VoteValue(value, currentRound, Timeouts)));
        (this.(timeoutVote := vote), vote)
    }

    /** Signs the timeout that switches to fallback mode. */
    function VoteFallback(value: CertifiedValue, key: KeyPair): (Manager, Option<Signature>) {
      if key.None? || fallbackVote.Some? || Rank(currentRound) >= Rank(Validator(0)) then (this, None)
      else
        var vote := Some(Signature(key.value, VoteValue(value, SingleLeader(U32_MAX), Timeouts)));
        (this.(fallbackVote := vote), vote)
    }

    function HandleTimeoutCertificate(cert: Certificate, localTime: Timestamp): Manager {
      if timeout.Some? && Rank(timeout.value.vote.round) >= Rank(cert.vote.round) then this
      else this.(timeout := Some(cert)).UpdateCurrentRound(localTime)
    }
  }

  function HeightOf(value: CertifiedValue): u64 {
    match value
    case Executed(executed) => executed.block.height
    case Timeout(_, height, _) => height
  }

  /** The time at which a round that became current at `start` times out. */
  function Deadline(o: ChainOwnership, r: Round, start: Timestamp): Option<Timestamp> {
    var d := o.RoundTimeout(r);
    if d.None? then None else Some(SaturatingAdd(start, d.value))
  }

  function NewManager(o: ChainOwnership, leaders: map<Round, Owner>, localTime: Timestamp): Manager {
    Manager(o, leaders, None, None, None, None, None, None, None,
            Deadline(o, o.FirstRound(), localTime), o.FirstRound())
  }

  /** The latest of several rounds, collected from the lowest round or nested. */
  lemma LatestOfAll(a: Round, b: Round, c: Round, d: Round)
    ensures Later(Later(Later(Later(Fast, b), c), d), a) == Later(a, Later(b, Later(c, d)))
  {
    RankEmbedsTheDerivedOrder(Later(Later(Later(Later(Fast, b), c), d), a), Later(a, Later(b, Later(c, d))));
  }

  /** Nothing the manager remembers ever moves back. */
  predicate Grows(m: Manager, m': Manager) {
    && m'.ownership == m.ownership
    && Rank(m.currentRound) <= Rank(m'.currentRound)
    && (m.proposed.Some? ==>
          m'.proposed.Some? && Rank(m.proposed.value.content.round) <= Rank(m'.proposed.value.content.round))
    && (m.locked.Some? ==> m'.locked.Some? && Rank(m.locked.value.vote.round) <= Rank(m'.locked.value.vote.round))
    && (m.timeoutVote.Some? ==>
          && m'.timeoutVote.Some?
          && Rank(m.timeoutVote.value.statement.round) <= Rank(m'.timeoutVote.value.statement.round))
  }

  /** What acceptance of a proposal guarantees: it is above all earlier work and past the lock. */
  predicate SafeProposal(m: Manager, p: BlockProposal) {
    var cert := p.validatedBlockCertificate;
    && Rank(m.currentRound) <= Rank(p.content.round)
    && (m.proposed.Some? ==> Rank(m.proposed.value.content.round) < Rank(p.content.round))
    && (m.locked.Some? ==> cert.Some? && Rank(m.locked.value.vote.round) <= Rank(cert.value.vote.round))
    && (cert.Some? ==> Rank(cert.value.vote.round) < Rank(p.content.round))
  }

  lemma AcceptedProposalIsSafe(m: Manager, p: BlockProposal)
    requires m.CheckProposedBlock(p) == Ok(Accept)
    ensures SafeProposal(m, p)
  {}

  /**
   * The round of a proposal is right. A super owner may propose in any round from the expected one
   * on, and so may anyone up to the first single-leader round, except from the fast round. Anyone else
   * must propose in the expected round: the current one, or the one after the certificate if that is later.
   */
  predicate RoundIsRight(m: Manager, p: BlockProposal) {
    var r, cert := p.content.round, p.validatedBlockCertificate;
    var next := if cert.Some? then m.ownership.NextRound(cert.value.vote.round) else Some(m.currentRound);
    && p.content.block.height < U64_MAX
    && next.Some? && Rank(next.value) <= Rank(r) && Rank(m.currentRound) <= Rank(r)
    && (|| p.owner in m.ownership.superOwners
        || r == next.value || r == m.currentRound
        || (Rank(r) <= Rank(SingleLeader(0)) && (next.value != Fast || m.currentRound != Fast)))
  }

  /**
   * Exactly which proposals are accepted: in a right round, above the latest proposal, with the same
   * block if that was fast, and with a certificate no older than the lock. The latest one is skipped.
   */
  lemma ProposalAcceptedExactly(m: Manager, p: BlockProposal)
    ensures m.CheckProposedBlock(p) == Ok(Skip) <==>
              RoundIsRight(m, p) && m.proposed.Some? && m.proposed.value.content == p.content
    ensures m.CheckProposedBlock(p) == Ok(Accept) <==>
              var r, cert := p.content.round, p.validatedBlockCertificate;
              && RoundIsRight(m, p)
              && (m.proposed.Some? ==> Rank(m.proposed.value.content.round) < Rank(r))
              && (m.proposed.Some? && m.proposed.value.content.round == Fast && cert.None? ==>
                    m.proposed.value.content.block == p.content.block)
              && (m.locked.Some? ==> cert.Some? && Rank(m.locked.value.vote.round) <= Rank(cert.value.vote.round))
  {
    RankEmbedsTheDerivedOrder(m.currentRound, p.content.round);
    if p.validatedBlockCertificate.Some? {
      var next := m.ownership.NextRound(p.validatedBlockCertificate.value.vote.round);
      if next.Some? {
        RankEmbedsTheDerivedOrder(next.value, p.content.round);
        RankEmbedsTheDerivedOrder(next.value, m.currentRound);
      }
    }
  }

  /**
   * Exactly which validated block certificates are accepted: those that were not confirmed in their
   * round before, are not below the latest vote to validate, and are above the lock. Those confirmed
   * before, and the lock itself, are skipped.
   */
  lemma CertificateAcceptedExactly(m: Manager, cert: Certificate)
    requires cert.vote.value.Executed?
    ensures m.CheckValidatedBlock(cert) == Ok(Skip) <==>
              || WasConfirmed(m, cert)
              || (&& (m.validatedVote.Some? ==>
                        Rank(m.validatedVote.value.statement.round) <= Rank(cert.vote.round))
                  && m.locked.Some? && m.locked.value.vote.value == cert.vote.value
                  && m.locked.value.vote.round == cert.vote.round)
    ensures m.CheckValidatedBlock(cert) == Ok(Accept) <==>
              && !WasConfirmed(m, cert)
              && (m.validatedVote.Some? ==> Rank(m.validatedVote.value.statement.round) <= Rank(cert.vote.round))
              && (m.locked.Some? ==> Rank(m.locked.value.vote.round) < Rank(cert.vote.round))
  {}

  /** The latest vote to confirm was for this block in this round. */
  predicate WasConfirmed(m: Manager, cert: Certificate)
    requires cert.vote.value.Executed?
  {
    m.confirmedVote.Some? &&
    var VoteValue(value, round, _) := m.confirmedVote.value.statement;
    round == cert.vote.round && value.Executed? && value.executed.block == cert.vote.value.executed.block
  }

  lemma AcceptedCertificateIsNew(m: Manager, cert: Certificate)
    requires cert.vote.value.Executed? && m.CheckValidatedBlock(cert) == Ok(Accept)
    ensures m.locked.Some? ==> Rank(m.locked.value.vote.round) < Rank(cert.vote.round)
  {}

  lemma UpdateSettles(m: Manager, m': Manager, time: Timestamp)
    requires m.IsSettled() && Rank(m.TargetRound()) <= Rank(m'.TargetRound())
    requires m'.currentRound == m.currentRound && m'.timeoutVote == m.timeoutVote
    ensures m'.UpdateCurrentRound(time).IsSettled()
    ensures m'.UpdateCurrentRound(time).currentRound == m'.TargetRound()
  {
    RankEmbedsTheDerivedOrder(m.TargetRound(), m'.TargetRound());
    assert m'.UpdateCurrentRound(time).TargetRound() == m'.TargetRound();
  }

  lemma SlotsDoNotMatter(m: Manager, confirmed: Option<Signature>, validated: Option<Signature>)
    requires m.IsSettled()
    ensures m.(confirmedVote := confirmed, validatedVote := validated).IsSettled()
  {
    assert m.(confirmedVote := confirmed, validatedVote := validated).TargetRound() == m.TargetRound();
  }

  lemma RecordingMoves(m: Manager, p: BlockProposal, executed: ExecutedBlock)
    requires m.IsSettled() && SafeProposal(m, p)
    ensures m.Record(p, executed).TargetRound() == p.content.round && Grows(m, m.Record(p, executed))
  {
    RankEmbedsTheDerivedOrder(m.Record(p, executed).TargetRound(), p.content.round);
  }

  lemma SafeProposalTakesEffect(m: Manager, p: BlockProposal, executed: ExecutedBlock, key: KeyPair, time: Timestamp)
    requires m.IsSettled() && SafeProposal(m, p)
    ensures var m' := m.CreateVote(p, executed, key, time).0;
            m'.IsSettled() && Grows(m, m') && m'.currentRound == p.content.round
  {
    var m1 := m.Record(p, executed);
    RecordingMoves(m, p, executed);
    UpdateSettles(m, m1, time);
    var m' := m.CreateVote(p, executed, key, time).0;
    SlotsDoNotMatter(m1.UpdateCurrentRound(time), m'.confirmedVote, m'.validatedVote);
  }

  /** An accepted proposal moves the manager to its round, where the vote is cast. */
  lemma ProposalTakesEffect(m: Manager, p: BlockProposal, executed: ExecutedBlock, key: KeyPair, time: Timestamp)
    requires m.IsSettled() && m.CheckProposedBlock(p) == Ok(Accept)
    ensures var (m', vote) := m.CreateVote(p, executed, key, time);
            && m'.IsSettled() && Grows(m, m') && m'.currentRound == p.content.round
            && (vote.Some? <==> key.Some?) && (vote.Some? ==> vote.value.statement.round == p.content.round)
  {
    AcceptedProposalIsSafe(m, p);
    SafeProposalTakesEffect(m, p, executed, key, time);
  }

  lemma LockingMoves(m: Manager, cert: Certificate)
    requires m.IsSettled() && (m.locked.Some? ==> Rank(m.locked.value.vote.round) < Rank(cert.vote.round))
    ensures var m1 := m.(locked := Some(cert));
            && Grows(m, m1) && m1.TargetRound() == Later(m.TargetRound(), cert.vote.round)
  {
    var first, timeout := m.ownership.FirstRound(), m.RoundAfterTimeout();
    var before := if m.locked.Some? then m.locked.value.vote.round else Fast;
    LaterReplaces(first, timeout, before, cert.vote.round,
        if m.proposed.Some? then m.proposed.value.content.round else Fast);
  }

  lemma LaterReplaces(a: Round, b: Round, c: Round, d: Round, e: Round)
    requires Rank(c) <= Rank(d)
    ensures Later(a, Later(b, Later(d, e))) == Later(Later(a, Later(b, Later(c, e))), d)
  {
    RankEmbedsTheDerivedOrder(Later(a, Later(b, Later(d, e))), Later(Later(a, Later(b, Later(c, e))), d));
  }

  lemma NewLockTakesEffect(m: Manager, cert: Certificate, key: KeyPair, time: Timestamp)
    requires m.IsSettled() && (m.locked.Some? ==> Rank(m.locked.value.vote.round) < Rank(cert.vote.round))
    requires key.Some? ==> Rank(m.currentRound) <= Rank(cert.vote.round)
    ensures var m' := m.CreateFinalVote(cert, key, time).0;
            && m'.IsSettled() && Grows(m, m') && m'.locked == Some(cert)
            && m'.currentRound == Later(m.currentRound, cert.vote.round)
  {
    var m1 := m.(locked := Some(cert));
    LockingMoves(m, cert);
    UpdateSettles(m, m1, time);
    var m' := m.CreateFinalVote(cert, key, time).0;
    SlotsDoNotMatter(m1.UpdateCurrentRound(time), m'.confirmedVote, m'.validatedVote);
  }

  /** An accepted certificate becomes the lock, and moves a validator to its round. */
  lemma CertificateTakesEffect(m: Manager, cert: Certificate, key: KeyPair, time: Timestamp)
    requires m.IsSettled() && cert.vote.value.Executed? && m.CheckValidatedBlock(cert) == Ok(Accept)
    ensures var (m', vote) := m.CreateFinalVote(cert, key, time);
            && m'.IsSettled() && Grows(m, m')
            && (vote.Some? <==> key.Some? && Rank(m.currentRound) <= Rank(cert.vote.round))
            && (vote.Some? ==>
                  && m'.currentRound == vote.value.statement.round == cert.vote.round
                  && m'.locked == Some(cert))
  {
    AcceptedCertificateIsNew(m, cert);
    if key.None? || Rank(m.currentRound) <= Rank(cert.vote.round) {
      NewLockTakesEffect(m, cert, key, time);
      RankEmbedsTheDerivedOrder(m.currentRound, cert.vote.round);
    }
  }

  lemma TimeoutVoteSettles(m: Manager, value: CertifiedValue, key: KeyPair, time: Timestamp)
    requires m.IsSettled()
    ensures var m' := m.VoteTimeout(value, key, time).0; m'.IsSettled() && Grows(m, m')
  {
    assert m.VoteTimeout(value, key, time).0.TargetRound() == m.TargetRound();
  }

  /** The round after a timeout that is stored, compared to the one known before. */
  lemma LaterTimeoutMoves(m: Manager, cert: Certificate)
    requires m.timeout.Some? ==> Rank(m.timeout.value.vote.round) < Rank(cert.vote.round)
    ensures var m1 := m.(timeout := Some(cert));
            Rank(m.TargetRound()) <= Rank(m1.TargetRound()) && Rank(m1.RoundAfterTimeout()) <= Rank(m1.TargetRound())
  {
    if m.timeout.Some? && m.ownership.NextRound(cert.vote.round).Some? {
      NextRoundIsMonotone(m.ownership, m.timeout.value.vote.round, cert.vote.round);
    }
  }

  lemma NewTimeoutTakesEffect(m: Manager, cert: Certificate, time: Timestamp)
    requires m.IsSettled() && (m.timeout.Some? ==> Rank(m.timeout.value.vote.round) < Rank(cert.vote.round))
    ensures var m' := m.(timeout := Some(cert)).UpdateCurrentRound(time);
            && m'.IsSettled() && Grows(m, m')
            && (m.ownership.NextRound(cert.vote.round).Some? ==>
                  Rank(m.ownership.NextRound(cert.vote.round).value) <= Rank(m'.currentRound))
            && (cert.vote.round == LAST_ROUND ==> m'.currentRound == LAST_ROUND)
  {
    var m1 := m.(timeout := Some(cert));
    LaterTimeoutMoves(m, cert);
    UpdateSettles(m, m1, time);
    RankEmbedsTheDerivedOrder(m1.TargetRound(), LAST_ROUND);
  }

  lemma EarlierTimeoutIsPast(m: Manager, cert: Certificate)
    requires m.IsSettled() && m.timeout.Some? && Rank(m.timeout.value.vote.round) >= Rank(cert.vote.round)
    ensures m.ownership.NextRound(cert.vote.round).Some? ==>
            Rank(m.ownership.NextRound(cert.vote.round).value) <= Rank(m.currentRound)
    ensures cert.vote.round == LAST_ROUND ==> m.currentRound == LAST_ROUND
  {
    RankEmbedsTheDerivedOrder(m.currentRound, LAST_ROUND);
    RankEmbedsTheDerivedOrder(m.timeout.value.vote.round, LAST_ROUND);
    if m.ownership.NextRound(m.timeout.value.vote.round).Some? {
      NextRoundIsMonotone(m.ownership, cert.vote.round, m.timeout.value.vote.round);
    }
  }

  /** A timeout certificate moves the manager past its round. */
  lemma TimeoutTakesEffect(m: Manager, cert: Certificate, time: Timestamp)
    requires m.IsSettled()
    ensures var m' := m.HandleTimeoutCertificate(cert, time);
            && m'.IsSettled() && Grows(m, m')
            && (m.ownership.NextRound(cert.vote.round).Some? ==>
                  Rank(m.ownership.NextRound(cert.vote.round).value) <= Rank(m'.currentRound))
            && (cert.vote.round == LAST_ROUND ==> m'.currentRound == LAST_ROUND)
  {
    if m.timeout.Some? && Rank(m.timeout.value.vote.round) >= Rank(cert.vote.round) {
      EarlierTimeoutIsPast(m, cert);
    } else {
      NewTimeoutTakesEffect(m, cert, time);
    }
  }

  /** The manager object, whose methods update the fields step by step. */
  class ChainManager {
    const ownership: ChainOwnership
    const leaders: map<Round, Owner>
    var proposed: Option<BlockProposal>
    var locked: Option<Certificate>
    var timeout: Option<Certificate>
    var confirmedVote: Option<Signature>
    var validatedVote: Option<Signature>
    var timeoutVote: Option<Signature>
    var fallbackVote: Option<Signature>
    var roundTimeout: Option<Timestamp>
    var currentRound: Round

    function Value(): Manager
      reads this
    {
      Manager(ownership, leaders, proposed, locked, timeout, confirmedVote, validatedVote,
              timeoutVote, fallbackVote, roundTimeout, currentRound)
    }

    constructor (ownership: ChainOwnership, leaders: map<Round, Owner>, localTime: Timestamp)
      ensures Value() == NewManager(ownership, leaders, localTime)
    {
      this.ownership := ownership;
      this.leaders := leaders;
      proposed, locked, timeout := None, None, None;
      confirmedVote, validatedVote, timeoutVote, fallbackVote := None, None, None, None;
      currentRound := ownership.FirstRound();
      roundTimeout := Deadline(ownership, ownership.FirstRound(), localTime);
    }

    method UpdateCurrentRound(localTime: Timestamp)
      modifies `currentRound, `roundTimeout
      ensures Value() == old(Value().UpdateCurrentRound(localTime))
    {
      var round := Fast;
      ghost var afterTimeout := Value().RoundAfterTimeout();
      ghost var lockedRound := if locked.Some? then locked.value.vote.round else Fast;
      ghost var proposedRound := if proposed.Some? then proposed.value.content.round else Fast;
      if timeout.Some? {
        var next := ownership.NextRound(timeout.value.vote.round);
        round := Later(round, if next.Some? then next.value else LAST_ROUND);
      }
      if locked.Some? {
        round := Later(round, locked.value.vote.round);
      }
      if proposed.Some? {
        round := Later(round, proposed.value.content.round);
      }
      round := Later(round, ownership.FirstRound());
      LatestOfAll(ownership.FirstRound(), afterTimeout, lockedRound, proposedRound);
      if Rank(round) <= Rank(currentRound) {
        return;
      }
      roundTimeout := Deadline(ownership, round, localTime);
      currentRound := round;
    }

    method CreateVote(p: BlockProposal, executed: ExecutedBlock, key: KeyPair, localTime: Timestamp)
      returns (vote: Option<Signature>)
      modifies this
      ensures (Value(), vote) == old(Value().CreateVote(p, executed, key, localTime))
      ensures old(Value().IsSettled()) && old(Value().CheckProposedBlock(p)) == Ok(Accept) ==>
                && Value().IsSettled() && Grows(old(Value()), Value()) && currentRound == p.content.round
                && (vote.Some? ==> vote.value.statement.round == currentRound)
    {
      if Value().IsSettled() && Value().CheckProposedBlock(p) == Ok(Accept) {
        ProposalTakesEffect(Value(), p, executed, key, localTime);
      }
      var round := p.content.round;
      // The lock only moves forward.
      if p.validatedBlockCertificate.Some? {
        var cert := p.validatedBlockCertificate.value;
        if locked.None? || Rank(locked.value.vote.round) < Rank(cert.vote.round) {
          if cert.vote.value == Executed(executed) && cert.vote.kind == ValidatedBlocks {
            locked := Some(cert);
          }
        }
      }
      proposed := Some(p);
      UpdateCurrentRound(localTime);
      if key.None? {
        return None;
      }
      if round.Fast? {
        validatedVote := None;
        confirmedVote := Some(Signature(key.value, VoteValue(Executed(executed), round, ConfirmedBlocks)));
        return confirmedVote;
      } else {
        confirmedVote := None;
        validatedVote := Some(Signature(key.value, VoteValue(Executed(executed), round, ValidatedBlocks)));
        return validatedVote;
      }
    }

    method CreateFinalVote(cert: Certificate, key: KeyPair, localTime: Timestamp)
      returns (ghost vote: Option<Signature>)
      modifies this
      ensures (Value(), vote) == old(Value().CreateFinalVote(cert, key, localTime))
      ensures old(Value().IsSettled()) && cert.vote.value.Executed?
              && old(Value().CheckValidatedBlock(cert)) == Ok(Accept) ==>
                && Value().IsSettled() && Grows(old(Value()), Value())
                && (vote.Some? ==>
                      && locked == Some(cert)
                      && currentRound == vote.value.statement.round == cert.vote.round)
    {
      if Value().IsSettled() && cert.vote.value.Executed? && Value().CheckValidatedBlock(cert) == Ok(Accept) {
        CertificateTakesEffect(Value(), cert, key, localTime);
      }
      var round := cert.vote.round;
      if key.Some? && Rank(round) < Rank(currentRound) {
        return None;
      }
      locked := Some(cert);
      UpdateCurrentRound(localTime);
      if key.Some? {
        confirmedVote := Some(Signature(key.value, VoteValue(cert.vote.value, round, ConfirmedBlocks)));
        validatedVote := None;
        return confirmedVote;
      }
      return None;
    }

    method VoteTimeout(value: CertifiedValue, key: KeyPair, localTime: Timestamp) returns (signed: bool)
      modifies `timeoutVote
      ensures Value() == old(Value().VoteTimeout(value, key, localTime).0)
      ensures signed == old(Value().VoteTimeout(value, key, localTime).1.Some?)
      ensures signed ==>
                && timeoutVote == Some(Signature(key.value, VoteValue(value, currentRound, Timeouts)))
                && (old(timeoutVote).Some? ==> old(timeoutVote).value.statement.round != currentRound)
      ensures old(Value().IsSettled()) ==> Value().IsSettled() && Grows(old(Value()), Value())
    {
      if Value().IsSettled() {
        TimeoutVoteSettles(Value(), value, key, localTime);
      }
      if key.None? || roundTimeout.None? {
        return false;
      }
      if localTime < roundTimeout.value || ownership.owners == map[] {
        return false;
      }
      if timeoutVote.Some? && timeoutVote.value.statement.round == currentRound {
        return false;
      }
      timeoutVote := Some(Signature(key.value, VoteValue(value, currentRound, Timeouts)));
      return true;
    }

    method VoteFallback(value: CertifiedValue, key: KeyPair) returns (signed: bool)
      modifies `fallbackVote
      ensures Value() == old(Value().VoteFallback(value, key).0)
      ensures signed == old(Value().VoteFallback(value, key).1.Some?)
      ensures signed ==> old(fallbackVote).None? && fallbackVote.Some? && Rank(currentRound) < Rank(Validator(0))
    {
      if key.None? {
        return false;
      }
      if fallbackVote.Some? || Rank(currentRound) >= Rank(Validator(0)) {
        return false;
      }
      fallbackVote := Some(Signature(key.value, VoteValue(value, SingleLeader(U32_MAX), Timeouts)));
      return true;
    }

    method HandleTimeoutCertificate(cert: Certificate, localTime: Timestamp)
      modifies `timeout, `currentRound, `roundTimeout
      ensures Value() == old(Value().HandleTimeoutCertificate(cert, localTime))
      ensures old(Value().IsSettled()) ==>
                && Value().IsSettled() && Grows(old(Value()), Value())
                && (ownership.NextRound(cert.vote.round).Some? ==>
                      Rank(ownership.NextRound(cert.vote.round).value) <= Rank(currentRound))
                && (cert.vote.round == LAST_ROUND ==> currentRound == LAST_ROUND)
    {
      if Value().IsSettled() {
        TimeoutTakesEffect(Value(), cert, localTime);
      }
      if timeout.Some? && Rank(timeout.value.vote.round) >= Rank(cert.vote.round) {
        return;
      }
      timeout := Some(cert);
      UpdateCurrentRound(localTime);
    }
  }
}
