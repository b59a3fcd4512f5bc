/** Signed votes, certificates and the aggregation of signatures into certificates. */
module Certificates {
  import opened Basics
  import opened Rounds
  import opened Committees

  datatype Block = Block(id: nat, height: u64)

  datatype ExecutedBlock = ExecutedBlock(block: Block, outcome: nat)

  datatype CertificateKind = Timeouts | ValidatedBlocks | ConfirmedBlocks

  /** Hashes are taken to be injective, so a value stands for its own hash. */
  datatype CertifiedValue =
    | Executed(executed: ExecutedBlock)
    | Timeout(chainId: nat, height: u64, epoch: u32)

  datatype VoteValue = VoteValue(value: CertifiedValue, round: Round, kind: CertificateKind)

  /** A signature made with the key of `signer` on `statement`. */
  datatype Signature = Signature(signer: ValidatorName, statement: VoteValue)

  type Signed = (ValidatorName, Signature)

  datatype Certificate = Certificate(vote: VoteValue, signatures: seq<Signed>)

  datatype CertificateError =
    | CertificateValidatorReuse
    | InvalidSigner
    | CertificateRequiresQuorum
    | InvalidSignature

  predicate SignatureChecks(signature: Signature, statement: VoteValue, author: ValidatorName) {
    signature.signer == author && signature.statement == statement
  }

  function Signers(signatures: seq<Signed>): set<ValidatorName> {
    set s | s in signatures :: s.0
  }

  predicate DistinctSigners(signatures: seq<Signed>) {
    forall i, j | 0 <= i < j < |signatures| :: signatures[i].0 != signatures[j].0
  }

  predicate StrictlyOrdered(signatures: seq<Signed>) {
    forall i, j | 0 <= i < j < |signatures| :: signatures[i].0 < signatures[j].0
  }

  /** What a certificate is meant to establish: a quorum of members signed this very vote. */
  predicate Certifies(c: Committee, cert: Certificate) {
    && DistinctSigners(cert.signatures)
    && (forall s | s in cert.signatures :: c.Weight(s.0) > 0)
    && (forall s | s in cert.signatures :: SignatureChecks(s.1, cert.vote, s.0))
    && c.IsQuorum(Signers(cert.signatures))
  }

  lemma SignersGrow(signatures: seq<Signed>, i: nat)
    requires i < |signatures|
    ensures Signers(signatures[..i + 1]) == Signers(signatures[..i]) + {signatures[i].0}
    ensures signatures[i].0 in Signers(signatures[..i]) ==> !DistinctSigners(signatures)
    ensures DistinctSigners(signatures[..i]) && signatures[i].0 !in Signers(signatures[..i]) ==>
            DistinctSigners(signatures[..i + 1])
  {
    var before := signatures[..i];
    assert signatures[..i + 1] == before + [signatures[i]];
    if signatures[i].0 in Signers(before) {
      var s :| s in before && s.0 == signatures[i].0;
      var j :| 0 <= j < i && before[j] == s;
      assert signatures[j].0 == signatures[i].0;
    } else {
      forall j | 0 <= j < i ensures before[j].0 != signatures[i].0 {
        assert before[j] in before;
      }
    }
  }

  function SignerNames(signatures: seq<Signed>): seq<ValidatorName> {
    seq(|signatures|, i requires 0 <= i < |signatures| => signatures[i].0)
  }

  ghost predicate EnumeratesCommittee(c: Committee, all: seq<ValidatorName>) {
    DistinctNames(all) && NamesIn(all) == c.validators.Keys
  }

  /** The signers in a list hold more than two thirds of all stakes, however the committee is enumerated. */
  ghost predicate HoldsTwoThirds(c: Committee, signatures: seq<Signed>) {
    forall all | EnumeratesCommittee(c, all) ::
      3 * Stake(c.validators, SignerNames(signatures)) > 2 * Stake(c.validators, all)
  }

  lemma NamesOfSigners(signatures: seq<Signed>)
    ensures NamesIn(SignerNames(signatures)) == Signers(signatures)
  {
    var names := SignerNames(signatures);
    forall v | v in Signers(signatures) ensures v in names {
      var s :| s in signatures && s.0 == v;
      var i :| 0 <= i < |signatures| && signatures[i] == s;
      assert names[i] == v;
    }
    forall v | v in names ensures v in Signers(signatures) {
      var i :| 0 <= i < |names| && names[i] == v;
      assert signatures[i] in signatures;
    }
  }

  lemma {:induction false} Enumerate(names: set<ValidatorName>) returns (all: seq<ValidatorName>)
    ensures DistinctNames(all) && NamesIn(all) == names
    decreases names
  {
    all := [];
    if names != {} {
      var v :| v in names;
      var rest := Enumerate(names - {v});
      assert v !in NamesIn(rest);
      all := rest + [v];
      assert forall w :: w in all <==> w in rest || w == v;
      assert NamesIn(all) == NamesIn(rest) + {v};
    }
  }

  /** A quorum of distinct signers holds more than two thirds of all stakes. */
  lemma QuorumOfStakes(c: Committee, signatures: seq<Signed>)
    requires DistinctSigners(signatures)
    ensures c.IsQuorum(Signers(signatures)) <==> HoldsTwoThirds(c, signatures)
  {
    NamesOfSigners(signatures);
    forall all | EnumeratesCommittee(c, all)
      ensures c.IsQuorum(Signers(signatures)) <==>
              3 * Stake(c.validators, SignerNames(signatures)) > 2 * Stake(c.validators, all)
    {
      ThresholdsAreFractions(c, all, SignerNames(signatures));
    }
    var all := Enumerate(c.validators.Keys);
    assert EnumeratesCommittee(c, all);
  }

  /** The votes of the signers, if they are distinct members. */
  method SignersWeight(c: Committee, signatures: seq<Signed>) returns (r: Result<nat, CertificateError>)
    ensures r.Ok? <==> DistinctSigners(signatures) && forall s | s in signatures :: c.Weight(s.0) > 0
    ensures r.Ok? ==> r.value == c.VotesOf(Signers(signatures))
    ensures r.Err? ==>
              || (r.error == CertificateValidatorReuse && !DistinctSigners(signatures))
              || (r.error == InvalidSigner && exists s | s in signatures :: c.Weight(s.0) == 0)
  {
    var weight := 0;
    var used: set<ValidatorName> := {};
    for i := 0 to |signatures|
      invariant DistinctSigners(signatures[..i])
      invariant forall j | 0 <= j < i :: c.Weight(signatures[j].0) > 0
      invariant used == Signers(signatures[..i])
      invariant weight == c.VotesOf(used)
    {
      var v := signatures[i].0;
      SignersGrow(signatures, i);
      if v in used {
        return Err(CertificateValidatorReuse);
      }
      VotesWithNew(c, used, {}, v);
      used := used + {v};
      if c.Weight(v) == 0 {
        return Err(InvalidSigner);
      }
      weight := weight + c.Weight(v);
    }
    assert signatures[..|signatures|] == signatures;
    return Ok(weight);
  }

  /** Accepts exactly the certificates that a quorum of members signed. */
  method CheckSignatures(c: Committee, cert: Certificate) returns (r: Result<(), CertificateError>)
    ensures r.Ok? <==> Certifies(c, cert)
    ensures r.Err? && r.error == CertificateValidatorReuse ==> !DistinctSigners(cert.signatures)
    ensures r.Err? && r.error == InvalidSigner ==> exists s | s in cert.signatures :: c.Weight(s.0) == 0
    ensures r.Err? && r.error == CertificateRequiresQuorum ==>
      DistinctSigners(cert.signatures) && !c.IsQuorum(Signers(cert.signatures))
    ensures r.Err? && r.error == InvalidSignature ==>
      exists s | s in cert.signatures :: s.1.signer != s.0 || s.1.statement != cert.vote
    ensures r.Ok? ==> HoldsTwoThirds(c, cert.signatures)
    ensures r.Err? && r.error == CertificateRequiresQuorum ==> !HoldsTwoThirds(c, cert.signatures)
  {
    var weight := SignersWeight(c, cert.signatures);
    if weight.Err? {
      return Err(weight.error);
    }
    QuorumOfStakes(c, cert.signatures);
    if weight.value < c.QuorumThreshold() {
      return Err(CertificateRequiresQuorum);
    }
    if exists s | s in cert.signatures :: !SignatureChecks(s.1, cert.vote, s.0) {
      return Err(InvalidSignature);
    }
    return Ok(());
  }

  // ----- Aggregation -----

  datatype Aggregation = Aggregation(weight: nat, used: set<ValidatorName>, signatures: seq<Signed>)

  const EMPTY_AGGREGATION := Aggregation(0, {}, [])

  /** Inserts a signature in the order of the names. */
  function AddSignature(signatures: seq<Signed>, s: Signed): (r: seq<Signed>)
    ensures forall x :: x in r <==> x in signatures || x == s
  {
    if signatures == [] then [s]
    else if s.0 <= signatures[0].0 then [s] + signatures
    else
      assert signatures == [signatures[0]] + signatures[1..];
      [signatures[0]] + AddSignature(signatures[1..], s)
  }

  type AppendResult = Result<Option<Certificate>, CertificateError>

  /** The effect of one `append`, failing calls included. */
  function Append(c: Committee, vote: VoteValue, a: Aggregation, s: Signed): (Aggregation, AppendResult) {
    if !SignatureChecks(s.1, vote, s.0) then (a, Err(InvalidSignature))
    else if s.0 in a.used then (a, Err(CertificateValidatorReuse))
    else if c.Weight(s.0) == 0 then (a.(used := a.used + {s.0}), Err(InvalidSigner))
    else
      var signatures := AddSignature(a.signatures, s);
      var weight := a.weight + c.Weight(s.0);
      if weight >= c.QuorumThreshold() then
        (Aggregation(0, a.used + {s.0}, signatures), Ok(Some(Certificate(vote, signatures))))
      else
        (Aggregation(weight, a.used + {s.0}, signatures), Ok(None))
  }

  class SignatureAggregator {
    const committee: Committee
    const vote: VoteValue
    var weight: nat
    var usedValidators: set<ValidatorName>
    var partial: seq<Signed>

    function State(): Aggregation
      reads this
    {
      Aggregation(weight, usedValidators, partial)
    }

    constructor (value: CertifiedValue, round: Round, kind: CertificateKind, committee: Committee)
      ensures State() == EMPTY_AGGREGATION
      ensures vote == VoteValue(value, round, kind) && this.committee == committee
    {
      this.committee := committee;
      vote := VoteValue(value, round, kind);
      weight := 0;
      usedValidators := {};
      partial := [];
    }

    /** Tries to append a signature; returns the certificate when a quorum was reached. */
    method AppendSignature(validator: ValidatorName, signature: Signature) returns (r: AppendResult)
      modifies this
      ensures (State(), r) == Append(committee, vote, old(State()), (validator, signature))
    {
      if !SignatureChecks(signature, vote, validator) {
        return Err(InvalidSignature);
      }
      if validator in usedValidators {
        return Err(CertificateValidatorReuse);
      }
      usedValidators := usedValidators + {validator};
      var votingRights := committee.Weight(validator);
      if votingRights == 0 {
        return Err(InvalidSigner);
      }
      weight := weight + votingRights;
      partial := AddSignature(partial, (validator, signature));
      if weight >= committee.QuorumThreshold() {
        weight := 0; // From now on, only signers after the certificate count.
        return Ok(Some(Certificate(vote, partial)));
      }
      return Ok(None);
    }
  }

  /** The state and all results after a sequence of calls. */
  function Aggregate(c: Committee, vote: VoteValue, calls: seq<Signed>): (Aggregation, seq<AppendResult>) {
    if calls == [] then (EMPTY_AGGREGATION, [])
    else
      var (a, results) := Aggregate(c, vote, calls[..|calls| - 1]);
      var (b, r) := Append(c, vote, a, calls[|calls| - 1]);
      (b, results + [r])
  }

  function Certs(results: seq<AppendResult>): seq<Certificate> {
    if results == [] then []
    else
      Certs(results[..|results| - 1]) + Emitted(results[|results| - 1])
  }

  /** The members that submitted a valid signature at least once. */
  function Contributors(c: Committee, vote: VoteValue, calls: seq<Signed>): set<ValidatorName> {
    set s | s in calls && SignatureChecks(s.1, vote, s.0) && c.Weight(s.0) > 0 :: s.0
  }

  /** The partial certificate collects exactly one valid signature of every contributor. */
  ghost predicate SignersInvariant(c: Committee, vote: VoteValue, calls: seq<Signed>, a: Aggregation) {
    && Certifiable(c, vote, a.signatures)
    && Signers(a.signatures) == Contributors(c, vote, calls)
    && Contributors(c, vote, calls) <= a.used
    && forall v | v in a.used && c.Weight(v) > 0 :: v in Contributors(c, vote, calls)
  }

  /** The weight counts the signers, or after the one certificate those it does not hold. */
  ghost predicate WeightInvariant(c: Committee, vote: VoteValue, names: set<ValidatorName>, weight: nat,
                                  certs: seq<Certificate>) {
    && weight < c.QuorumThreshold()
    && match |certs|
       case 0 => weight == c.VotesOf(names)
       case 1 =>
         && IsValidCertificate(c, vote, certs[0])
         && Signers(certs[0].signatures) <= names
         && weight == c.VotesOf(names - Signers(certs[0].signatures))
       case _ => false
  }

  predicate IsValidCertificate(c: Committee, vote: VoteValue, cert: Certificate) {
    Certifies(c, cert) && cert.vote == vote && StrictlyOrdered(cert.signatures)
  }

  predicate Certifiable(c: Committee, vote: VoteValue, signatures: seq<Signed>) {
    && StrictlyOrdered(signatures)
    && forall s | s in signatures :: c.Weight(s.0) > 0 && SignatureChecks(s.1, vote, s.0)
  }

  lemma AddSignatureAddsSigner(signatures: seq<Signed>, s: Signed)
    ensures Signers(AddSignature(signatures, s)) == Signers(signatures) + {s.0}
  {
    assert s in AddSignature(signatures, s);
  }

  lemma {:induction false} AddSignatureKeepsOrder(signatures: seq<Signed>, s: Signed)
    requires StrictlyOrdered(signatures)
    requires forall i | 0 <= i < |signatures| :: signatures[i].0 != s.0
    ensures StrictlyOrdered(AddSignature(signatures, s))
  {
    if signatures != [] && s.0 > signatures[0].0 {
      var rest := signatures[1..];
      var tail := AddSignature(rest, s);
      AddSignatureKeepsOrder(rest, s);
      forall j | 0 <= j < |tail| ensures signatures[0].0 < tail[j].0 {
        assert tail[j] in rest || tail[j] == s;
      }
    }
  }

  lemma ContributorsGrow(c: Committee, vote: VoteValue, calls: seq<Signed>, s: Signed)
    ensures Contributors(c, vote, calls + [s]) ==
            Contributors(c, vote, calls)
            + if SignatureChecks(s.1, vote, s.0) && c.Weight(s.0) > 0 then {s.0} else {}
  {
    assert forall x :: x in calls + [s] <==> x in calls || x == s;
  }

  function Emitted(r: AppendResult): seq<Certificate> {
    if r.Ok? && r.value.Some? then [r.value.value] else []
  }

  /** Adding a new name to a set of signers, none of which is counted twice. */
  lemma VotesWithNew(c: Committee, names: set<ValidatorName>, first: set<ValidatorName>, v: ValidatorName)
    requires v !in names && first <= names
    ensures c.VotesOf(names + {v}) == c.VotesOf(names) + c.Weight(v)
    ensures c.VotesOf(names + {v} - first) == c.VotesOf(names - first) + c.Weight(v)
  {
    VotesWithout(c, names + {v}, v);
    assert names + {v} - {v} == names;
    VotesWithout(c, names + {v} - first, v);
    assert names + {v} - first - {v} == names - first;
  }

  lemma AppendKeepsSigners(c: Committee, vote: VoteValue, calls: seq<Signed>, s: Signed, a: Aggregation)
    requires SignersInvariant(c, vote, calls, a)
    ensures SignersInvariant(c, vote, calls + [s], Append(c, vote, a, s).0)
  {
    ContributorsGrow(c, vote, calls, s);
    if Append(c, vote, a, s).1.Ok? {
      AddSignatureAddsSigner(a.signatures, s);
      forall i | 0 <= i < |a.signatures| ensures a.signatures[i].0 != s.0 {
        assert a.signatures[i].0 in Signers(a.signatures);
      }
      AddSignatureKeepsOrder(a.signatures, s);
    }
  }

  lemma CertifiableQuorumCertifies(c: Committee, vote: VoteValue, signatures: seq<Signed>)
    requires Certifiable(c, vote, signatures) && c.IsQuorum(Signers(signatures))
    ensures IsValidCertificate(c, vote, Certificate(vote, signatures))
  {}

  /** A new signer that does not complete a quorum. */
  lemma WeightGrows(c: Committee, vote: VoteValue, names: set<ValidatorName>, v: ValidatorName, weight: nat,
                    certs: seq<Certificate>)
    requires WeightInvariant(c, vote, names, weight, certs)
    requires v !in names && weight + c.Weight(v) < c.QuorumThreshold()
    ensures WeightInvariant(c, vote, names + {v}, weight + c.Weight(v), certs)
  {
    VotesWithNew(c, names, if certs == [] then {} else Signers(certs[0].signatures), v);
  }

  /** A new signer that completes a quorum; what is left beside a certificate can never do that. */
  lemma WeightResets(c: Committee, vote: VoteValue, names: set<ValidatorName>, v: ValidatorName, weight: nat,
                     certs: seq<Certificate>, signatures: seq<Signed>)
    requires WeightInvariant(c, vote, names, weight, certs)
    requires v !in names && weight + c.Weight(v) >= c.QuorumThreshold()
    requires Certifiable(c, vote, signatures) && Signers(signatures) == names + {v}
    ensures WeightInvariant(c, vote, names + {v}, 0, certs + [Certificate(vote, signatures)])
  {
    var after := names + {v};
    if certs == [] {
      VotesWithNew(c, names, {}, v);
      CertifiableQuorumCertifies(c, vote, signatures);
      assert after - after == {};
      assert certs + [Certificate(vote, signatures)] == [Certificate(vote, signatures)];
    } else {
      var first := Signers(certs[0].signatures);
      VotesWithNew(c, names, first, v);
      QuorumLeavesNoSecond(c, first, after - first);
    }
  }

  /** A call succeeds exactly when it brings a new contributor. */
  lemma NewContributor(c: Committee, vote: VoteValue, calls: seq<Signed>, s: Signed, a: Aggregation)
    requires SignersInvariant(c, vote, calls, a)
    ensures var (b, r) := Append(c, vote, a, s);
            var names, after := Contributors(c, vote, calls), Contributors(c, vote, calls + [s]);
            if r.Err? then after == names
            else
              && s.0 !in names && after == names + {s.0}
              && Certifiable(c, vote, b.signatures) && Signers(b.signatures) == after
  {
    ContributorsGrow(c, vote, calls, s);
    AppendKeepsSigners(c, vote, calls, s, a);
  }

  lemma AppendKeepsWeight(c: Committee, vote: VoteValue, calls: seq<Signed>, s: Signed, a: Aggregation,
                          certs: seq<Certificate>)
    requires SignersInvariant(c, vote, calls, a)
    requires WeightInvariant(c, vote, Contributors(c, vote, calls), a.weight, certs)
    ensures var (b, r) := Append(c, vote, a, s);
            WeightInvariant(c, vote, Contributors(c, vote, calls + [s]), b.weight, certs + Emitted(r))
  {
    var (b, r) := Append(c, vote, a, s);
    var names := Contributors(c, vote, calls);
    NewContributor(c, vote, calls, s, a);
    if Emitted(r) == [] {
      assert certs + Emitted(r) == certs;
      if r.Ok? {
        WeightGrows(c, vote, names, s.0, a.weight, certs);
      }
    } else {
      WeightResets(c, vote, names, s.0, a.weight, certs, b.signatures);
    }
  }

  /** What holds after a sequence of calls with these results. */
  ghost predicate AggregationInvariant(c: Committee, vote: VoteValue, calls: seq<Signed>, a: Aggregation,
                                       results: seq<AppendResult>) {
    && SignersInvariant(c, vote, calls, a)
    && WeightInvariant(c, vote, Contributors(c, vote, calls), a.weight, Certs(results))
  }

  lemma AppendKeepsInvariant(c: Committee, vote: VoteValue, calls: seq<Signed>, s: Signed, a: Aggregation,
                             results: seq<AppendResult>)
    requires AggregationInvariant(c, vote, calls, a, results)
    ensures var (b, r) := Append(c, vote, a, s); AggregationInvariant(c, vote, calls + [s], b, results + [r])
  {
    var r := Append(c, vote, a, s).1;
    AppendKeepsSigners(c, vote, calls, s, a);
    AppendKeepsWeight(c, vote, calls, s, a, Certs(results));
    assert (results + [r])[..|results|] == results;
  }

  /** The validators that submitted a valid signature, members or not. */
  function Submitters(vote: VoteValue, calls: seq<Signed>): set<ValidatorName> {
    set s | s in calls && s.1.signer == s.0 && s.1.statement == vote :: s.0
  }

  lemma {:induction false} UsedAreTheSubmitters(c: Committee, vote: VoteValue, calls: seq<Signed>)
    ensures Aggregate(c, vote, calls).0.used == Submitters(vote, calls)
  {
    if calls != [] {
      var before, s := calls[..|calls| - 1], calls[|calls| - 1];
      UsedAreTheSubmitters(c, vote, before);
      assert calls == before + [s];
      assert forall x :: x in calls <==> x in before || x == s;
    }
  }

  /**
   * After any calls, a further one is refused exactly for an invalid signature, a validator that
   * already submitted a valid one, or one without votes, in this order; all others are taken.
   */
  lemma CallsAreRefusedExactly(c: Committee, vote: VoteValue, calls: seq<Signed>, s: Signed)
    ensures var r := Append(c, vote, Aggregate(c, vote, calls).0, s).1;
            var valid, reused := s.1.signer == s.0 && s.1.statement == vote, s.0 in Submitters(vote, calls);
            var votes := if s.0 in c.validators then c.validators[s.0] else 0;
            && (r == Err(InvalidSignature) <==> !valid)
            && (r == Err(CertificateValidatorReuse) <==> valid && reused)
            && (r == Err(InvalidSigner) <==> valid && !reused && votes == 0)
            && (r.Ok? <==> valid && !reused && votes > 0)
  {
    UsedAreTheSubmitters(c, vote, calls);
  }

  lemma NothingAggregated(c: Committee, vote: VoteValue)
    ensures AggregationInvariant(c, vote, [], EMPTY_AGGREGATION, [])
  {
    assert Contributors(c, vote, []) == {};
  }

  /**
   * Whatever sequence of calls is made, at most one certificate is ever returned; one is returned
   * exactly when the members that submitted a valid signature form a quorum; and it is valid,
   * with the signatures in strict order.
   */
  lemma {:induction false} AggregatorIsSound(c: Committee, vote: VoteValue, calls: seq<Signed>)
    ensures var certs := Certs(Aggregate(c, vote, calls).1);
            && |certs| == (if c.IsQuorum(Contributors(c, vote, calls)) then 1 else 0)
            && (forall cert | cert in certs :: IsValidCertificate(c, vote, cert))
  {
    AggregateKeepsInvariants(c, vote, calls);
    var (a, results) := Aggregate(c, vote, calls);
    OneCertificateForAQuorum(c, vote, Contributors(c, vote, calls), a.weight, Certs(results));
  }

  lemma OneCertificateForAQuorum(c: Committee, vote: VoteValue, names: set<ValidatorName>, weight: nat,
                                 certs: seq<Certificate>)
    requires WeightInvariant(c, vote, names, weight, certs)
    ensures |certs| == (if c.IsQuorum(names) then 1 else 0)
    ensures forall cert | cert in certs :: IsValidCertificate(c, vote, cert)
  {
    if certs != [] {
      VotesAreMonotone(c, Signers(certs[0].signatures), names);
    }
  }

  lemma {:induction false} AggregateKeepsInvariants(c: Committee, vote: VoteValue, calls: seq<Signed>)
    ensures var (a, results) := Aggregate(c, vote, calls); AggregationInvariant(c, vote, calls, a, results)
  {
    if calls == [] {
      NothingAggregated(c, vote);
    } else {
      var n := |calls| - 1;
      var (a, results) := Aggregate(c, vote, calls[..n]);
      AggregateKeepsInvariants(c, vote, calls[..n]);
      AppendKeepsInvariant(c, vote, calls[..n], calls[n], a, results);
      assert calls[..n] + [calls[n]] == calls;
    }
  }
}
