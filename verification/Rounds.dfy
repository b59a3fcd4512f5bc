/** Consensus rounds and the ownership configuration that orders and times them. */
module Rounds {
  import opened Basics

  type Owner = nat
  type PublicKey = nat
  type Timestamp = u64
  type TimeDelta = u64

  datatype Round =
    | Fast
    | MultiLeader(n: u32)
    | SingleLeader(n: u32)
    | Validator(n: u32)

  /** The position of a round in the derived order: first by kind, then by number. */
  function Rank(r: Round): nat {
    match r
    case Fast => 0
    case MultiLeader(n) => 1 + n
    case SingleLeader(n) => 2 + U32_MAX + n
    case Validator(n) => 3 + 2 * U32_MAX + n
  }

  /** The order derived on the round type. */
  predicate Less(a: Round, b: Round) {
    match (a, b)
    case (MultiLeader(m), MultiLeader(n)) => m < n
    case (SingleLeader(m), SingleLeader(n)) => m < n
    case (Validator(m), Validator(n)) => m < n
    case _ => Kind(a) < Kind(b)
  }

  function Kind(r: Round): nat {
    match r
    case Fast => 0
    case MultiLeader(_) => 1
    case SingleLeader(_) => 2
    case Validator(_) => 3
  }

  lemma RankEmbedsTheDerivedOrder(a: Round, b: Round)
    ensures Less(a, b) <==> Rank(a) < Rank(b)
    ensures a == b <==> Rank(a) == Rank(b)
  {}

  function Later(a: Round, b: Round): (r: Round)
    ensures r == a || r == b
    ensures Rank(r) == Max(Rank(a), Rank(b))
  {
    if Rank(a) <= Rank(b) then b else a
  }

  const LAST_ROUND: Round := Validator(U32_MAX)

  datatype TimeoutConfig = TimeoutConfig(
    fastRoundDuration: Option<TimeDelta>,
    baseTimeout: TimeDelta,
    timeoutIncrement: TimeDelta,
    fallbackDuration: TimeDelta)

  datatype ChainOwnership = ChainOwnership(
    superOwners: map<Owner, PublicKey>,
    owners: map<Owner, (PublicKey, u64)>,
    multiLeaderRounds: u32,
    timeoutConfig: TimeoutConfig)
  {
    function FirstRound(): Round {
      if superOwners != map[] then Fast
      else if owners == map[] then Validator(0)
      else if multiLeaderRounds > 0 then MultiLeader(0)
      else SingleLeader(0)
    }

    function NextRound(r: Round): Option<Round> {
      match r
      case Fast => Some(if multiLeaderRounds == 0 then SingleLeader(0) else MultiLeader(0))
      case MultiLeader(n) =>
        Some(if n < U32_MAX && n + 1 < multiLeaderRounds then MultiLeader(n + 1) else SingleLeader(0))
      case SingleLeader(n) => Some(if n < U32_MAX then SingleLeader(n + 1) else Validator(0))
      case Validator(n) => if n < U32_MAX then Some(Validator(n + 1)) else None
    }

    function RoundTimeout(r: Round): Option<TimeDelta> {
      match r
      case Fast => timeoutConfig.fastRoundDuration
      case MultiLeader(n) =>
        if (if n < U32_MAX then n + 1 else U32_MAX) == multiLeaderRounds
        then Some(timeoutConfig.baseTimeout) else None
      case SingleLeader(n) => Some(LeaderTimeout(n))
      case Validator(n) => Some(LeaderTimeout(n))
    }

    function LeaderTimeout(n: u32): TimeDelta {
      SaturatingAdd(timeoutConfig.baseTimeout, SaturatingMul(timeoutConfig.timeoutIncrement, n))
    }

    /** Whether the configuration provides for this round; validators may enter others as well. */
    predicate Configured(r: Round) {
      match r
      case Fast => superOwners != map[]
      case MultiLeader(n) => n < multiLeaderRounds
      case _ => true
    }
  }

  /**
   * The following round is the least configured round above a given one, so timeouts traverse the
   * configured rounds in order and leave none out; only the very last round has no successor.
   */
  lemma NextRoundIsTheSuccessor(o: ChainOwnership, r: Round, q: Round)
    ensures o.NextRound(r).None? <==> r == LAST_ROUND
    ensures o.NextRound(r).Some? ==> Less(r, o.NextRound(r).value) && o.Configured(o.NextRound(r).value)
    ensures o.Configured(q) && Less(r, q) ==> o.NextRound(r).Some? && !Less(q, o.NextRound(r).value)
  {}

  lemma NextRoundIsMonotone(o: ChainOwnership, r: Round, q: Round)
    requires Rank(r) <= Rank(q)
    requires o.NextRound(q).Some?
    ensures o.NextRound(r).Some?
    ensures Rank(o.NextRound(r).value) <= Rank(o.NextRound(q).value)
  {}

  /**
   * A multi-leader round leads into the leader rotation if it is the last configured one or past
   * it, but it only times out if it is the last one. (The source saturates at the largest number.)
   */
  lemma CooperativeTimeouts(o: ChainOwnership, n: u32)
    ensures o.NextRound(MultiLeader(n)) == Some(SingleLeader(0)) <==> n + 1 >= o.multiLeaderRounds
    ensures o.RoundTimeout(MultiLeader(n)).Some? <==>
            n + 1 == o.multiLeaderRounds || (n == U32_MAX && o.multiLeaderRounds == U32_MAX)
    ensures o.Configured(MultiLeader(n)) ==>
              (o.RoundTimeout(MultiLeader(n)).Some? <==> o.NextRound(MultiLeader(n)) == Some(SingleLeader(0)))
  {}

  /** Leader rounds never become shorter, even where the durations saturate. */
  lemma LeaderTimeoutsGrow(o: ChainOwnership, m: u32, n: u32)
    requires m <= n
    ensures o.timeoutConfig.baseTimeout <= o.LeaderTimeout(m) <= o.LeaderTimeout(n)
  {
    MulIsMonotone(o.timeoutConfig.timeoutIncrement, m, n);
  }

  /**
   * How long the rounds last: the fast round and the last multi-leader round as configured, and the
   * leader rounds of both kinds the base timeout plus one increment per round, up to the largest number.
   */
  lemma RoundDurations(o: ChainOwnership, n: u32)
    ensures o.RoundTimeout(Fast) == o.timeoutConfig.fastRoundDuration
    ensures n + 1 == o.multiLeaderRounds ==> o.RoundTimeout(MultiLeader(n)) == Some(o.timeoutConfig.baseTimeout)
    ensures var exact := o.timeoutConfig.baseTimeout + o.timeoutConfig.timeoutIncrement * n;
            o.RoundTimeout(SingleLeader(n)) == o.RoundTimeout(Validator(n)) == Some(Min(U64_MAX, exact))
  {
    MulIsMonotone(o.timeoutConfig.timeoutIncrement, 0, n);
  }

  /** Below saturation, each leader round is longer than the one before by exactly the increment. */
  lemma LeaderTimeoutsGrowByTheIncrement(o: ChainOwnership, n: u32)
    requires n < U32_MAX && o.LeaderTimeout(n + 1) < U64_MAX
    ensures o.RoundTimeout(SingleLeader(0)) == Some(o.timeoutConfig.baseTimeout)
    ensures o.RoundTimeout(SingleLeader(n + 1)).value
            == o.RoundTimeout(SingleLeader(n)).value + o.timeoutConfig.timeoutIncrement
  {
    RoundDurations(o, 0);
    RoundDurations(o, n);
    RoundDurations(o, n + 1);
    OneMoreTime(o.timeoutConfig.timeoutIncrement, n);
  }

  lemma OneMoreTime(a: nat, n: nat)
    ensures a * (n + 1) == a * n + a
  {}

  lemma MulIsMonotone(a: nat, m: nat, n: nat)
    requires m <= n
    ensures 0 <= a * m <= a * n
  {}
}
