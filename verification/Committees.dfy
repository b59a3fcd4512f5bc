/** Stake-weighted committees and the quorum arithmetic behind certificates. */
module Committees {
  import opened Basics

  type ValidatorName = nat

  datatype Committee = Committee(validators: map<ValidatorName, u64>) {
    function Weight(v: ValidatorName): nat {
      if v in validators then validators[v] else 0
    }

    /** The votes held together by a set of names, summed in the order of the names. */
    function VotesOf(s: set<ValidatorName>): nat {
      if s == {} then 0
      else
        LeastExists(s);
        var v :| IsLeast(s, v);
        Weight(v) + VotesOf(s - {v})
    }

    function TotalVotes(): nat {
      VotesOf(validators.Keys)
    }

    function QuorumThreshold(): nat {
      2 * TotalVotes() / 3 + 1
    }

    function ValidityThreshold(): nat {
      (TotalVotes() + 2) / 3
    }

    predicate IsQuorum(s: set<ValidatorName>) {
      VotesOf(s) >= QuorumThreshold()
    }

    /** The fault assumption: everyone outside `honest` holds less than the validity threshold. */
    ghost predicate MostlyHonest(honest: set<ValidatorName>) {
      VotesOf(validators.Keys - honest) < ValidityThreshold()
    }
  }

  lemma {:induction false} VotesWithout(c: Committee, s: set<ValidatorName>, v: ValidatorName)
    requires v in s
    ensures c.VotesOf(s) == c.Weight(v) + c.VotesOf(s - {v})
    decreases s
  {
    var w :| w in s && c.VotesOf(s) == c.Weight(w) + c.VotesOf(s - {w});
    if v != w {
      VotesWithout(c, s - {w}, v);
      VotesWithout(c, s - {v}, w);
      assert s - {w} - {v} == s - {v} - {w};
    }
  }

  lemma {:induction false} VotesSplit(c: Committee, a: set<ValidatorName>, b: set<ValidatorName>)
    requires a !! b
    ensures c.VotesOf(a + b) == c.VotesOf(a) + c.VotesOf(b)
    decreases b
  {
    if b == {} {
      assert a + b == a;
    } else {
      var v :| v in b;
      VotesWithout(c, a + b, v);
      VotesWithout(c, b, v);
      assert a + b - {v} == a + (b - {v});
      VotesSplit(c, a, b - {v});
    }
  }

  lemma VotesAreMonotone(c: Committee, a: set<ValidatorName>, b: set<ValidatorName>)
    requires a <= b
    ensures c.VotesOf(a) <= c.VotesOf(b)
  {
    VotesSplit(c, a, b - a);
    assert a + (b - a) == b;
  }

  lemma {:induction false} OutsidersHoldNothing(c: Committee, s: set<ValidatorName>)
    requires s !! c.validators.Keys
    ensures c.VotesOf(s) == 0
    decreases s
  {
    if s != {} {
      var v :| v in s;
      VotesWithout(c, s, v);
      OutsidersHoldNothing(c, s - {v});
    }
  }

  lemma VotesAreBounded(c: Committee, s: set<ValidatorName>)
    ensures c.VotesOf(s) <= c.TotalVotes()
  {
    VotesSplit(c, s * c.validators.Keys, s - c.validators.Keys);
    assert s * c.validators.Keys + (s - c.validators.Keys) == s;
    OutsidersHoldNothing(c, s - c.validators.Keys);
    VotesAreMonotone(c, s * c.validators.Keys, c.validators.Keys);
  }

  // ----- Votes are stakes -----

  /** The entries of the validators in a list, added up. */
  function Stake(validators: map<ValidatorName, u64>, names: seq<ValidatorName>): nat {
    if names == [] then 0
    else (if names[0] in validators then validators[names[0]] else 0) + Stake(validators, names[1..])
  }

  predicate DistinctNames(names: seq<ValidatorName>) {
    forall i, j | 0 <= i < j < |names| :: names[i] != names[j]
  }

  function NamesIn(names: seq<ValidatorName>): set<ValidatorName> {
    set v | v in names
  }

  /** Votes are the sum of the entries in the committee. */
  lemma {:induction false} VotesAreStakes(c: Committee, names: seq<ValidatorName>)
    requires DistinctNames(names)
    ensures c.VotesOf(NamesIn(names)) == Stake(c.validators, names)
  {
    if names != [] {
      var v, rest := names[0], names[1..];
      assert names == [v] + rest;
      VotesAreStakes(c, rest);
      assert NamesIn(names) - {v} == NamesIn(rest);
      VotesWithout(c, NamesIn(names), v);
    }
  }

  /** A member holds its entry, and nobody else holds anything. */
  lemma VotesOfOne(c: Committee, v: ValidatorName)
    ensures c.VotesOf({v}) == if v in c.validators then c.validators[v] else 0
  {
    VotesWithout(c, {v}, v);
    assert {v} - {v} == {};
  }

  /** Raising one entry raises the votes of exactly the sets that hold the name. */
  lemma {:induction false} RaisingAnEntry(c: Committee, v: ValidatorName, more: nat, s: set<ValidatorName>)
    requires v in c.validators && c.validators[v] + more <= U64_MAX
    ensures var raised := Committee(c.validators[v := c.validators[v] + more]);
            raised.VotesOf(s) == c.VotesOf(s) + if v in s then more else 0
    decreases s
  {
    var raised := Committee(c.validators[v := c.validators[v] + more]);
    if s != {} {
      var w :| w in s;
      VotesWithout(c, s, w);
      VotesWithout(raised, s, w);
      VotesOfOne(c, w);
      VotesOfOne(raised, w);
      VotesWithout(c, {w}, w);
      VotesWithout(raised, {w}, w);
      RaisingAnEntry(c, v, more, s - {w});
    }
  }

  /** A quorum holds more than two thirds of all stakes, and the validity threshold is one third of them. */
  lemma ThresholdsAreFractions(c: Committee, all: seq<ValidatorName>, names: seq<ValidatorName>)
    requires DistinctNames(all) && NamesIn(all) == c.validators.Keys && DistinctNames(names)
    ensures c.IsQuorum(NamesIn(names)) <==> 3 * Stake(c.validators, names) > 2 * Stake(c.validators, all)
    ensures c.VotesOf(NamesIn(names)) >= c.ValidityThreshold() <==>
            3 * Stake(c.validators, names) >= Stake(c.validators, all)
  {
    VotesAreStakes(c, all);
    VotesAreStakes(c, names);
  }

  // ----- Quorums -----

  /** Any two quorums share at least the validity threshold. */
  lemma QuorumsIntersect(c: Committee, a: set<ValidatorName>, b: set<ValidatorName>)
    requires c.IsQuorum(a) && c.IsQuorum(b)
    ensures c.VotesOf(a * b) >= c.ValidityThreshold()
  {
    VotesSplit(c, a, b - a);
    assert a + (b - a) == a + b;
    VotesSplit(c, a * b, b - a);
    assert a * b + (b - a) == b;
    VotesAreBounded(c, a + b);
  }

  /** A set holding the validity threshold contains an honest validator. */
  lemma ValidityNeedsAnHonestVote(c: Committee, honest: set<ValidatorName>, s: set<ValidatorName>)
    returns (v: ValidatorName)
    requires c.MostlyHonest(honest)
    requires c.VotesOf(s) >= c.ValidityThreshold()
    ensures v in s && v in honest
  {
    if s !! honest {
      var members, outsiders := s * c.validators.Keys, s - c.validators.Keys;
      VotesSplit(c, members, outsiders);
      assert members + outsiders == s;
      OutsidersHoldNothing(c, outsiders);
      VotesAreMonotone(c, members, c.validators.Keys - honest);
      assert false;
    }
    v :| v in s && v in honest;
  }

  /** Two quorums always have an honest validator in common. */
  lemma QuorumsShareAnHonestVote(c: Committee, honest: set<ValidatorName>, a: set<ValidatorName>, b: set<ValidatorName>)
    returns (v: ValidatorName)
    requires c.MostlyHonest(honest)
    requires c.IsQuorum(a) && c.IsQuorum(b)
    ensures v in a && v in b && v in honest
  {
    QuorumsIntersect(c, a, b);
    v := ValidityNeedsAnHonestVote(c, honest, a * b);
  }

  /** What is left beside a quorum can neither be a quorum nor leave room for a trusted error. */
  lemma QuorumLeavesNoSecond(c: Committee, a: set<ValidatorName>, b: set<ValidatorName>)
    requires a !! b
    requires c.IsQuorum(a)
    ensures c.VotesOf(b) < c.ValidityThreshold() <= c.QuorumThreshold()
  {
    VotesSplit(c, a, b);
    VotesAreBounded(c, a + b);
  }

  /** Under the fault assumption the honest validators are a quorum by themselves. */
  lemma HonestIsQuorum(c: Committee, honest: set<ValidatorName>)
    requires c.MostlyHonest(honest)
    ensures c.IsQuorum(honest) && honest != {}
  {
    var members := c.validators.Keys * honest;
    VotesSplit(c, members, c.validators.Keys - honest);
    assert members + (c.validators.Keys - honest) == c.validators.Keys;
    VotesAreMonotone(c, members, honest);
  }
}
