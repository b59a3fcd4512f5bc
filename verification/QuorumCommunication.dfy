/** Collecting responses from validators until a stake-weighted quorum agrees. */
module QuorumCommunication {
  import opened Basics
  import opened Committees

  type Key = nat
  type NodeError = nat

  /** A value and the key under which the caller groups it. */
  datatype Value = Value(key: Key, content: nat)

  datatype Response = Response(name: ValidatorName, result: Result<Value, NodeError>)

  type ValueScores = map<Key, (nat, seq<Value>)>

  datatype Communication =
    | Agreed(key: Key, values: seq<Value>)
    | Trusted(error: NodeError)
    | NoConsensus(threshold: nat, scores: seq<(nat, nat)>)
    | Sample(errors: seq<(NodeError, nat)>)

  function Names(rs: seq<Response>): set<ValidatorName> {
    set r | r in rs :: r.name
  }

  predicate Supports(r: Response, k: Key) {
    r.result.Ok? && r.result.value.key == k
  }

  /** The validators whose response falls under a key. */
  function KeyVoters(rs: seq<Response>, k: Key): set<ValidatorName> {
    set r | r in rs && Supports(r, k) :: r.name
  }

  function ErrorVoters(rs: seq<Response>, e: NodeError): set<ValidatorName> {
    set r | r in rs && r.result == Err(e) :: r.name
  }

  function ValuesFor(rs: seq<Response>, k: Key): seq<Value> {
    if rs == [] then []
    else
      var r := rs[|rs| - 1];
      ValuesFor(rs[..|rs| - 1], k) + if Supports(r, k) then [r.result.value] else []
  }

  predicate DistinctNames(rs: seq<Response>) {
    forall i, j | 0 <= i < j < |rs| :: rs[i].name != rs[j].name
  }

  predicate HasQuorum(c: Committee, rs: seq<Response>, k: Key) {
    c.IsQuorum(KeyVoters(rs, k))
  }

  /** Only validators with voting rights are asked. */
  function WithRights(c: Committee, rs: seq<Response>): seq<Response> {
    if rs == [] then []
    else WithRights(c, rs[..|rs| - 1]) + if c.Weight(rs[|rs| - 1].name) == 0 then [] else [rs[|rs| - 1]]
  }

  lemma {:induction false} WithRightsIsDistinct(c: Committee, rs: seq<Response>)
    requires DistinctNames(rs)
    ensures DistinctNames(WithRights(c, rs))
    ensures forall r :: r in WithRights(c, rs) <==> r in rs && c.Weight(r.name) > 0
  {
    if rs != [] {
      var before, last := rs[..|rs| - 1], rs[|rs| - 1];
      WithRightsIsDistinct(c, before);
      assert rs == before + [last];
      forall r | r in before ensures r.name != last.name {}
    }
  }

  /** Leaving out validators without rights keeps the order in which the others respond. */
  lemma {:induction false} WithRightsKeepsOrder(c: Committee, xs: seq<Response>, ys: seq<Response>)
    ensures WithRights(c, xs + ys) == WithRights(c, xs) + WithRights(c, ys)
  {
    if ys == [] {
      assert xs + ys == xs;
    } else {
      var n := |ys| - 1;
      WithRightsKeepsOrder(c, xs, ys[..n]);
      WithRightsStep(c, ys[..n], ys[n]);
      WithRightsStep(c, xs + ys[..n], ys[n]);
      assert ys[..n] + [ys[n]] == ys;
      assert xs + ys[..n] + [ys[n]] == xs + ys;
      Associate(WithRights(c, xs), WithRights(c, ys[..n]), if c.Weight(ys[n].name) == 0 then [] else [ys[n]]);
    }
  }

  lemma Associate(a: seq<Response>, b: seq<Response>, d: seq<Response>)
    ensures (a + b) + d == a + (b + d)
  {}

  lemma WithRightsStep(c: Committee, rs: seq<Response>, r: Response)
    ensures WithRights(c, rs + [r]) == WithRights(c, rs) + if c.Weight(r.name) == 0 then [] else [r]
  {
    assert (rs + [r])[..|rs|] == rs;
  }

  lemma SameNameSameResponse(rs: seq<Response>, r: Response, q: Response)
    requires DistinctNames(rs) && r in rs && q in rs && r.name == q.name
    ensures r == q
  {
    var i :| 0 <= i < |rs| && rs[i] == r;
    var j :| 0 <= j < |rs| && rs[j] == q;
  }

  /** A validator supports at most one key, and none if it returned an error. */
  lemma VotersAreDisjoint(rs: seq<Response>, ps: seq<Response>, k: Key, q: Key, e: NodeError)
    requires DistinctNames(rs) && ps <= rs
    ensures k != q ==> KeyVoters(rs, k) !! KeyVoters(rs, q)
    ensures KeyVoters(rs, k) !! ErrorVoters(ps, e)
  {
    forall r, x | r in rs && x in rs && r.name == x.name ensures r == x {
      SameNameSameResponse(rs, r, x);
    }
  }

  /** At most one key can have a quorum, so it does not matter which one is found first. */
  lemma QuorumKeyIsUnique(c: Committee, rs: seq<Response>, k: Key, q: Key)
    requires DistinctNames(rs)
    requires HasQuorum(c, rs, k) && HasQuorum(c, rs, q)
    ensures k == q
  {
    VotersAreDisjoint(rs, rs, k, q, 0);
    if k != q {
      QuorumLeavesNoSecond(c, KeyVoters(rs, k), KeyVoters(rs, q));
    }
  }

  /** Which key has a quorum does not depend on the order in which the responses arrive. */
  lemma ArrivalOrderIsIrrelevant(c: Committee, xs: seq<Response>, ys: seq<Response>, k: Key)
    requires DistinctNames(xs) && DistinctNames(ys)
    requires forall r :: r in xs <==> r in ys
    ensures HasQuorum(c, WithRights(c, xs), k) <==> HasQuorum(c, WithRights(c, ys), k)
  {
    WithRightsIsDistinct(c, xs);
    WithRightsIsDistinct(c, ys);
    assert KeyVoters(WithRights(c, xs), k) == KeyVoters(WithRights(c, ys), k);
  }

  /** The responses still missing can add at most the votes that are left. */
  lemma PrefixVotes(c: Committee, rs: seq<Response>, n: nat, k: Key)
    requires n <= |rs| && DistinctNames(rs)
    ensures c.VotesOf(KeyVoters(rs[..n], k)) <= c.VotesOf(KeyVoters(rs, k))
    ensures c.VotesOf(KeyVoters(rs, k)) <= c.VotesOf(KeyVoters(rs[..n],
            k)) + (c.TotalVotes() - c.VotesOf(Names(rs[..n])))
  {
    var early, late := KeyVoters(rs[..n], k), KeyVoters(rs[n..], k);
    var names := Names(rs[..n]);
    assert rs == rs[..n] + rs[n..];
    assert KeyVoters(rs, k) == early + late;
    assert early <= names;
    forall r, x | r in rs[..n] && x in rs[n..] ensures r.name != x.name {
      var i :| 0 <= i < n && rs[i] == r;
      var j :| 0 <= j < |rs| - n && rs[n..][j] == x;
      assert rs[n + j] == x;
    }
    VotesSplit(c, early, late);
    VotesSplit(c, names, late);
    VotesAreBounded(c, names + late);
  }

  // The running scores, response by response.

  function ReceivedVotes(c: Committee, p: seq<Response>): nat {
    if p == [] then 0 else ReceivedVotes(c, p[..|p| - 1]) + c.Weight(p[|p| - 1].name)
  }

  function KeyScore(c: Committee, p: seq<Response>, k: Key): nat {
    if p == [] then 0
    else KeyScore(c, p[..|p| - 1], k) + if Supports(p[|p| - 1], k) then c.Weight(p[|p| - 1].name) else 0
  }

  function ErrorScore(c: Committee, p: seq<Response>, e: NodeError): nat {
    if p == [] then 0
    else ErrorScore(c, p[..|p| - 1], e) + if p[|p| - 1].result == Err(e) then c.Weight(p[|p| - 1].name) else 0
  }

  lemma NewVote(c: Committee, s: set<ValidatorName>, v: ValidatorName)
    requires v !in s
    ensures c.VotesOf(s + {v}) == c.VotesOf(s) + c.Weight(v)
  {
    VotesWithout(c, s + {v}, v);
    assert s + {v} - {v} == s;
  }

  lemma VotersGrow(p: seq<Response>, r: Response, k: Key, e: NodeError)
    ensures Names(p + [r]) == Names(p) + {r.name}
    ensures KeyVoters(p + [r], k) == if Supports(r, k) then KeyVoters(p, k) + {r.name} else KeyVoters(p, k)
    ensures ErrorVoters(p + [r], e) == if r.result == Err(e) then ErrorVoters(p, e) + {r.name} else ErrorVoters(p, e)
  {
    assert forall x :: x in p + [r] <==> x in p || x == r;
  }

  /** The running scores are the votes of the validators that responded so. */
  lemma {:induction false} ScoresAreVotes(c: Committee, p: seq<Response>, k: Key, e: NodeError)
    requires DistinctNames(p)
    ensures ReceivedVotes(c, p) == c.VotesOf(Names(p))
    ensures KeyScore(c, p, k) == c.VotesOf(KeyVoters(p, k))
    ensures ErrorScore(c, p, e) == c.VotesOf(ErrorVoters(p, e))
  {
    if p != [] {
      var before, r := p[..|p| - 1], p[|p| - 1];
      assert p == before + [r];
      ScoresAreVotes(c, before, k, e);
      VotersGrow(before, r, k, e);
      NewVote(c, Names(before), r.name);
      NewVote(c, KeyVoters(before, k), r.name);
      NewVote(c, ErrorVoters(before, e), r.name);
    }
  }

  lemma ReceivedVotesAreBounded(c: Committee, p: seq<Response>)
    requires DistinctNames(p)
    ensures ReceivedVotes(c, p) <= c.TotalVotes()
  {
    ScoresAreVotes(c, p, 0, 0);
    VotesAreBounded(c, Names(p));
  }

  function EntryOf(scores: ValueScores, k: Key): (nat, seq<Value>) {
    if k in scores then scores[k] else (0, [])
  }

  function ScoreOf(errors: map<NodeError, nat>, e: NodeError): nat {
    if e in errors then errors[e] else 0
  }

  ghost predicate ValuesTallied(c: Committee, p: seq<Response>, scores: ValueScores) {
    forall k :: EntryOf(scores, k) == (KeyScore(c, p, k), ValuesFor(p, k))
  }

  ghost predicate ErrorsTallied(c: Committee, p: seq<Response>, errors: map<NodeError, nat>) {
    forall e :: ScoreOf(errors, e) == ErrorScore(c, p, e)
  }

  ghost predicate IsHighest(scores: ValueScores, highest: nat) {
    && (forall k | k in scores :: scores[k].0 <= highest)
    && (highest > 0 ==> exists k :: k in scores && scores[k].0 == highest)
  }

  /** The scores after one more response. */
  function ScoresWith(c: Committee, scores: ValueScores, r: Response): ValueScores {
    if r.result.Err? then scores
    else
      var (score, values) := EntryOf(scores, r.result.value.key);
      scores[r.result.value.key := (score + c.Weight(r.name), values + [r.result.value])]
  }

  function ErrorsWith(c: Committee, errors: map<NodeError, nat>, r: Response): map<NodeError, nat> {
    if r.result.Ok? then errors
    else errors[r.result.error := ScoreOf(errors, r.result.error) + c.Weight(r.name)]
  }

  function HighestWith(scores: ValueScores, highest: nat, r: Response): nat {
    if r.result.Err? then highest else Max(highest, EntryOf(scores, r.result.value.key).0)
  }

  lemma ValuesStep(c: Committee, p: seq<Response>, scores: ValueScores, r: Response)
    requires ValuesTallied(c, p, scores)
    ensures ValuesTallied(c, p + [r], ScoresWith(c, scores, r))
  {
    var scores' := ScoresWith(c, scores, r);
    assert (p + [r])[..|p|] == p;
    forall k ensures EntryOf(scores', k) == (KeyScore(c, p + [r], k), ValuesFor(p + [r], k)) {
      assert EntryOf(scores, k) == (KeyScore(c, p, k), ValuesFor(p, k));
      if !Supports(r, k) {
        assert EntryOf(scores', k) == EntryOf(scores, k);
        assert ValuesFor(p, k) + [] == ValuesFor(p, k);
      }
    }
  }

  lemma ErrorsStep(c: Committee, p: seq<Response>, errors: map<NodeError, nat>, r: Response)
    requires ErrorsTallied(c, p, errors)
    ensures ErrorsTallied(c, p + [r], ErrorsWith(c, errors, r))
  {
    var errors' := ErrorsWith(c, errors, r);
    assert (p + [r])[..|p|] == p;
    forall e ensures ScoreOf(errors', e) == ErrorScore(c, p + [r], e) {
      assert ScoreOf(errors, e) == ErrorScore(c, p, e);
    }
  }

  lemma HighestStep(c: Committee, scores: ValueScores, highest: nat, r: Response)
    requires IsHighest(scores, highest)
    ensures var scores' := ScoresWith(c, scores, r); IsHighest(scores', HighestWith(scores', highest, r))
  {
    if r.result.Ok? {
      var k, scores' := r.result.value.key, ScoresWith(c, scores, r);
      if highest > scores'[k].0 {
        var q :| q in scores && scores[q].0 == highest;
        assert q in scores' && scores'[q].0 == highest;
      } else {
        assert k in scores' && scores'[k].0 == HighestWith(scores', highest, r);
      }
    }
  }

  /** The bookkeeping of the loop after a prefix of the responses. */
  ghost predicate Tally(c: Committee, p: seq<Response>, scores: ValueScores, errors: map<NodeError, nat>, highest: nat,
                        remaining: int) {
    && ValuesTallied(c, p, scores) && ErrorsTallied(c, p, errors) && IsHighest(scores, highest)
    && remaining == c.TotalVotes() - ReceivedVotes(c, p)
  }

  /** One more response; the subtraction of its votes does not underflow. */
  lemma Receive(c: Committee, rs: seq<Response>, n: nat, scores: ValueScores, errors: map<NodeError, nat>, highest: nat,
                remaining: int)
    requires DistinctNames(rs) && n < |rs|
    requires Tally(c, rs[..n], scores, errors, highest, remaining)
    ensures var scores' := ScoresWith(c, scores, rs[n]);
            Tally(c, rs[..n + 1], scores', ErrorsWith(c, errors, rs[n]), HighestWith(scores', highest, rs[n]),
                  remaining - c.Weight(rs[n].name))
    ensures remaining >= c.Weight(rs[n].name)
  {
    assert rs[..n + 1] == rs[..n] + [rs[n]];
    ValuesStep(c, rs[..n], scores, rs[n]);
    ErrorsStep(c, rs[..n], errors, rs[n]);
    HighestStep(c, scores, highest, rs[n]);
    assert rs[..n + 1][..n] == rs[..n];
    ReceivedVotesAreBounded(c, rs[..n + 1]);
  }

  lemma NothingTallied(c: Committee)
    ensures Tally(c, [], map[], map[], 0, c.TotalVotes())
  {}

  /** Why the loop may end after a prefix of the responses without an error to trust. */
  predicate MayStop(c: Committee, rs: seq<Response>, n: nat, highest: nat, remaining: int) {
    n == |rs| || highest >= c.QuorumThreshold() || highest + remaining < c.QuorumThreshold()
  }

  ghost predicate SomeQuorum(c: Committee, rs: seq<Response>) {
    exists k :: HasQuorum(c, rs, k)
  }

  ghost predicate NoQuorumUpTo(c: Committee, rs: seq<Response>, n: nat) {
    forall k | 0 <= k <= n && k <= |rs| :: !SomeQuorum(c, rs[..k])
  }

  /** After this number of responses some key has a quorum for the first time. */
  ghost predicate IsFirstQuorum(c: Committee, rs: seq<Response>, n: nat) {
    0 < n <= |rs| && SomeQuorum(c, rs[..n]) && NoQuorumUpTo(c, rs, n - 1)
  }

  /** The highest score tells whether some key has a quorum. */
  lemma HighestTells(c: Committee, p: seq<Response>, scores: ValueScores, highest: nat)
    requires DistinctNames(p) && ValuesTallied(c, p, scores) && IsHighest(scores, highest)
    ensures SomeQuorum(c, p) <==> highest >= c.QuorumThreshold()
  {
    forall k ensures HasQuorum(c, p, k) <==> EntryOf(scores, k).0 >= c.QuorumThreshold() {
      ScoresAreVotes(c, p, k, 0);
    }
    if highest >= c.QuorumThreshold() {
      var k :| k in scores && scores[k].0 == highest;
      assert EntryOf(scores, k) == scores[k];
      assert HasQuorum(c, p, k);
    }
  }

  lemma PrefixIsDistinct(rs: seq<Response>, n: nat)
    requires DistinctNames(rs) && n <= |rs|
    ensures DistinctNames(rs[..n])
  {}

  lemma NothingYet(c: Committee, rs: seq<Response>)
    ensures NoQuorumUpTo(c, rs, 0)
  {
    HighestTells(c, [], map[], 0);
    assert rs[..0] == [];
  }

  /** Whether the quorum is first reached with one more response. */
  lemma OneMoreResponse(c: Committee, rs: seq<Response>, n: nat, scores: ValueScores, errors: map<NodeError, nat>,
                        highest: nat, remaining: int)
    requires DistinctNames(rs) && 0 < n <= |rs| && NoQuorumUpTo(c, rs, n - 1)
    requires Tally(c, rs[..n], scores, errors, highest, remaining)
    ensures highest >= c.QuorumThreshold() ==> IsFirstQuorum(c, rs, n)
    ensures highest < c.QuorumThreshold() ==> NoQuorumUpTo(c, rs, n)
  {
    PrefixIsDistinct(rs, n);
    HighestTells(c, rs[..n], scores, highest);
  }

  /** After this number of responses, the missing ones cannot give any key a quorum. */
  ghost predicate IsHopeless(c: Committee, rs: seq<Response>, n: nat)
    requires n <= |rs|
  {
    forall k :: KeyScore(c, rs[..n], k) + (c.TotalVotes() - ReceivedVotes(c, rs[..n])) < c.QuorumThreshold()
  }

  ghost predicate HopefulBefore(c: Committee, rs: seq<Response>, n: nat)
    requires n <= |rs|
  {
    forall k | 0 < k < n :: !IsHopeless(c, rs, k)
  }

  lemma HighestGivesHope(c: Committee, rs: seq<Response>, n: nat, scores: ValueScores, errors: map<NodeError, nat>,
                         highest: nat, remaining: int)
    requires n <= |rs| && Tally(c, rs[..n], scores, errors, highest, remaining)
    requires highest + remaining >= c.QuorumThreshold()
    ensures !IsHopeless(c, rs, n)
    ensures HopefulBefore(c, rs, n) && n < |rs| ==> HopefulBefore(c, rs, n + 1)
  {
    var k := 0;
    if highest > 0 {
      k :| k in scores && scores[k].0 == highest;
    }
    assert EntryOf(scores, k) == (KeyScore(c, rs[..n], k), ValuesFor(rs[..n], k));
    assert KeyScore(c, rs[..n], k) >= highest;
  }

  /** No error was returned by enough validators to be trusted. */
  predicate NoneIsTrusted(c: Committee, errors: map<NodeError, nat>) {
    forall e | e in errors :: errors[e] < c.ValidityThreshold()
  }

  lemma StillNoneIsTrusted(c: Committee, errors: map<NodeError, nat>, r: Response)
    requires NoneIsTrusted(c, errors)
    requires r.result.Err? ==> ErrorsWith(c, errors, r)[r.result.error] < c.ValidityThreshold()
    ensures NoneIsTrusted(c, ErrorsWith(c, errors, r))
  {}

  /** Adds one response to the scores. */
  method Record(c: Committee, scores: ValueScores, errors: map<NodeError, nat>, highest: nat, r: Response)
    returns (scores': ValueScores, errors': map<NodeError, nat>, highest': nat)
    ensures scores' == ScoresWith(c, scores, r) && errors' == ErrorsWith(c, errors, r)
    ensures highest' == HighestWith(scores', highest, r)
  {
    scores', errors', highest' := scores, errors, highest;
    if r.result.Ok? {
      var key := r.result.value.key;
      var (score, values) := EntryOf(scores, key);
      scores' := scores[key := (score + c.Weight(r.name), values + [r.result.value])];
      highest' := Max(highest, scores'[key].0);
    } else {
      errors' := errors[r.result.error := ScoreOf(errors, r.result.error) + c.Weight(r.name)];
    }
  }

  /** Receives responses until the loop may stop, or an error is returned by enough validators. */
  method CollectResponses(c: Committee, rs: seq<Response>, grace: nat)
    returns (n: nat, scores: ValueScores, errors: map<NodeError, nat>, highest: nat, remaining: nat,
        trusted: Option<NodeError>)
    requires DistinctNames(rs)
    ensures n <= |rs| && Tally(c, rs[..n], scores, errors, highest, remaining)
    ensures trusted.None? ==> MayStop(c, rs, n, highest, remaining)
    ensures trusted.Some? ==> ScoreOf(errors, trusted.value) >= c.ValidityThreshold()
    ensures trusted.None? ==> NoneIsTrusted(c, errors)
    ensures HopefulBefore(c, rs, n)
    ensures trusted.None? && highest >= c.QuorumThreshold() ==>
              exists first: nat :: IsFirstQuorum(c, rs, first) && n == Min(|rs|, first + grace)
  {
    var endAt: Option<nat> := None;
    ghost var first := 0;
    NothingYet(c, rs);
    n, scores, errors, highest, remaining, trusted := 0, map[], map[], 0, c.TotalVotes(), None;
    NothingTallied(c);
    assert rs[..0] == [];
    while n < |rs| && (endAt.None? || n < endAt.value)
      invariant n <= |rs| && trusted.None?
      invariant Tally(c, rs[..n], scores, errors, highest, remaining)
      invariant NoneIsTrusted(c, errors)
      invariant HopefulBefore(c, rs, n) && (n < |rs| ==> HopefulBefore(c, rs, n + 1))
      invariant endAt.Some? ==> highest >= c.QuorumThreshold()
      invariant endAt.Some? ==> IsFirstQuorum(c, rs, first) && endAt.value == first + grace >= n
      invariant endAt.None? ==> highest < c.QuorumThreshold() && NoQuorumUpTo(c, rs, n)
    {
      var Response(name, result) := rs[n];
      Receive(c, rs, n, scores, errors, highest, remaining);
      ghost var before := errors;
      scores, errors, highest := Record(c, scores, errors, highest, rs[n]);
      n, remaining := n + 1, remaining - c.Weight(name);
      if result.Err? && errors[result.error] >= c.ValidityThreshold() {
        // Some honest validator is among those that returned it.
        trusted := Some(result.error);
        break;
      }
      StillNoneIsTrusted(c, before, rs[n - 1]);
      if endAt.None? {
        OneMoreResponse(c, rs, n, scores, errors, highest, remaining);
      }
      // The missing responses can no longer make up a quorum.
      if highest + remaining < c.QuorumThreshold() {
        break;
      }
      HighestGivesHope(c, rs, n, scores, errors, highest, remaining);
      if endAt.None? && highest >= c.QuorumThreshold() {
        endAt, first := Some(n + grace), n;
      }
    }
  }

  /** The values are those of a prefix of the responses that already holds a quorum for the key. */
  ghost predicate Collected(c: Committee, rs: seq<Response>, k: Key, values: seq<Value>) {
    exists n | 0 <= n <= |rs| :: HasQuorum(c, rs[..n], k) && values == ValuesFor(rs[..n], k)
  }

  /** The values are those received until the grace period after the first quorum is over. */
  ghost predicate CollectedWithGrace(c: Committee, rs: seq<Response>, k: Key, values: seq<Value>, grace: nat) {
    exists first: nat :: IsFirstQuorum(c, rs, first) && values == ValuesFor(rs[..Min(|rs|, first + grace)], k)
  }

  /**
   * A failure report lists the scores after a prefix of the responses, where the loop stopped
   * because all had arrived or, for the first time, the missing ones could not make up a quorum.
   * No error was returned by enough validators to be trusted.
   */
  ghost predicate Reported(c: Committee, rs: seq<Response>, r: Communication) {
    exists n: nat, scores, errors, highest: nat, remaining: int ::
      ReportedAt(c, rs, r, n, scores, errors, highest, remaining)
  }

  ghost predicate ReportedAt(c: Committee, rs: seq<Response>, r: Communication, n: nat, scores: ValueScores,
                             errors: map<NodeError, nat>, highest: nat, remaining: int) {
    && n <= |rs| && Tally(c, rs[..n], scores, errors, highest, remaining)
    && highest < c.QuorumThreshold() && MayStop(c, rs, n, highest, remaining)
    && NoneIsTrusted(c, errors) && HopefulBefore(c, rs, n)
    && Reports(c, scores, errors, r)
  }

  ghost predicate Reports(c: Committee, scores: ValueScores, errors: map<NodeError, nat>, r: Communication) {
    match r
    case NoConsensus(threshold, list) =>
      threshold == c.QuorumThreshold() && IsScoreList(scores, list) && errors == map[]
    case Sample(sample) => errors != map[] && IsSample(errors, sample)
    case _ => false
  }

  /** The score and the number of values of every key, each once, in some order. */
  ghost predicate IsScoreList(scores: ValueScores, list: seq<(nat, nat)>) {
    exists keys: seq<Key> :: ListsKeys(scores, keys, list) && scores.Keys == set k | k in keys
  }

  predicate ListsKeys(scores: ValueScores, keys: seq<Key>, list: seq<(nat, nat)>) {
    && |keys| == |list|
    && (forall i, j | 0 <= i < j < |keys| :: keys[i] != keys[j])
    && (forall i | 0 <= i < |keys| :: keys[i] in scores && list[i] == (scores[keys[i]].0, |scores[keys[i]].1|))
  }

  method ListScores(scores: ValueScores) returns (list: seq<(nat, nat)>)
    ensures IsScoreList(scores, list)
  {
    var pending := scores.Keys;
    ghost var keys: seq<Key> := [];
    list := [];
    while pending != {}
      invariant pending <= scores.Keys && ListsKeys(scores, keys, list)
      invariant (set x | x in keys) == scores.Keys - pending
    {
      var k :| k in pending;
      assert k !in set x | x in keys;
      OneMoreListed(scores, keys, list, k);
      list := list + [(scores[k].0, |scores[k].1|)];
      keys := keys + [k];
      assert scores.Keys - pending + {k} == scores.Keys - (pending - {k});
      pending := pending - {k};
    }
  }

  lemma OneMoreListed(scores: ValueScores, keys: seq<Key>, list: seq<(nat, nat)>, k: Key)
    requires ListsKeys(scores, keys, list) && k in scores && k !in keys
    ensures ListsKeys(scores, keys + [k], list + [(scores[k].0, |scores[k].1|)])
    ensures (set x | x in keys + [k]) == (set x | x in keys) + {k}
  {
    assert forall x :: x in keys + [k] <==> x in keys || x == k;
  }

  predicate Descending(sample: seq<(NodeError, nat)>) {
    forall i, j | 0 <= i < j < |sample| :: sample[i].1 >= sample[j].1
  }

  function ErrorsOf(sample: seq<(NodeError, nat)>): set<NodeError> {
    set x | x in sample :: x.0
  }

  /** Errors with their scores, each once, the highest scores first. */
  predicate Lists(errors: map<NodeError, nat>, sample: seq<(NodeError, nat)>) {
    && Descending(sample)
    && (forall x | x in sample :: x.0 in errors && errors[x.0] == x.1)
    && (forall i, j | 0 <= i < j < |sample| :: sample[i].0 != sample[j].0)
  }

  /** At most four errors; all of them if there are fewer, and none that is left out has a higher score. */
  predicate IsSample(errors: map<NodeError, nat>, sample: seq<(NodeError, nat)>) {
    && Lists(errors, sample) && |sample| <= 4
    && (|sample| < 4 ==> ErrorsOf(sample) == errors.Keys)
    && (forall e, x | e in errors && e !in ErrorsOf(sample) && x in sample :: errors[e] <= x.1)
  }

  /** Inserts an entry behind all those with at least its score. */
  function Inserted(sample: seq<(NodeError, nat)>, x: (NodeError, nat)): (r: seq<(NodeError, nat)>)
    ensures forall y :: y in r <==> y in sample || y == x
  {
    if sample == [] then [x]
    else if sample[0].1 >= x.1 then
      assert sample == [sample[0]] + sample[1..];
      [sample[0]] + Inserted(sample[1..], x)
    else [x] + sample
  }

  lemma FirstOfLists(errors: map<NodeError, nat>, y: (NodeError, nat), rest: seq<(NodeError, nat)>)
    requires Lists(errors, rest) && y.0 in errors && errors[y.0] == y.1
    requires forall z | z in rest :: z.0 != y.0 && z.1 <= y.1
    ensures Lists(errors, [y] + rest)
  {}

  lemma RestOfLists(errors: map<NodeError, nat>, sample: seq<(NodeError, nat)>)
    requires Lists(errors, sample) && sample != []
    ensures Lists(errors, sample[1..]) && forall y | y in sample[1..] :: y in sample
    ensures forall y | y in sample[1..] :: y.0 != sample[0].0 && y.1 <= sample[0].1
  {
    forall y | y in sample[1..] ensures y in sample && y.0 != sample[0].0 && y.1 <= sample[0].1 {
      var i :| 0 <= i < |sample| - 1 && sample[1..][i] == y;
      assert sample[i + 1] == y;
    }
  }

  lemma {:induction false} InsertedLists(errors: map<NodeError, nat>, sample: seq<(NodeError, nat)>, x: (NodeError,
                                         nat))
    requires Lists(errors, sample) && x.0 in errors && errors[x.0] == x.1 && x.0 !in ErrorsOf(sample)
    ensures Lists(errors, Inserted(sample, x))
  {
    if sample == [] {
      FirstOfLists(errors, x, []);
    } else {
      RestOfLists(errors, sample);
      assert sample[0] in sample && sample[0].0 in ErrorsOf(sample);
      if sample[0].1 >= x.1 {
        InsertedLists(errors, sample[1..], x);
        FirstOfLists(errors, sample[0], Inserted(sample[1..], x));
      } else {
        assert forall y | y in sample :: y == sample[0] || y in sample[1..];
        FirstOfLists(errors, x, sample);
      }
    }
  }

  /** The errors with the highest scores, in whatever order the map is traversed. */
  method SampleErrors(errors: map<NodeError, nat>) returns (sample: seq<(NodeError, nat)>)
    ensures IsSample(errors, sample)
  {
    var pending := errors.Keys;
    var all: seq<(NodeError, nat)> := [];
    while pending != {}
      invariant pending <= errors.Keys && Lists(errors, all) && ErrorsOf(all) == errors.Keys - pending
    {
      var e :| e in pending;
      InsertedLists(errors, all, (e, errors[e]));
      assert ErrorsOf(Inserted(all, (e, errors[e]))) == ErrorsOf(all) + {e} by {
        assert (e, errors[e]) in Inserted(all, (e, errors[e]));
      }
      all := Inserted(all, (e, errors[e]));
      pending := pending - {e};
    }
    sample := if |all| <= 4 then all else all[..4];
    CutIsSample(errors, all);
  }

  lemma CutIsSample(errors: map<NodeError, nat>, all: seq<(NodeError, nat)>)
    requires Lists(errors, all) && ErrorsOf(all) == errors.Keys
    ensures IsSample(errors, if |all| <= 4 then all else all[..4])
  {
    if |all| > 4 {
      var sample := all[..4];
      forall k | 0 <= k < 4 ensures all[k].0 in ErrorsOf(sample) {
        assert sample[k] in sample;
      }
      forall e, x | e in errors && e !in ErrorsOf(sample) && x in sample ensures errors[e] <= x.1 {
        var y :| y in all && y.0 == e;
        var j :| 0 <= j < |all| && all[j] == y;
        var i :| 0 <= i < 4 && sample[i] == x;
      }
    }
  }

  /** The responses before the first one that takes longer than the maximal timeout. */
  function InTime(rs: seq<Response>, limit: Option<nat>): seq<Response> {
    if limit.Some? && limit.value < |rs| then rs[..limit.value] else rs
  }

  /**
   * Asks all validators and stops early once a quorum agrees (after `grace` further responses),
   * once an error is trusted, or once no quorum is possible. The maximal timeout may expire after
   * some number of responses. For every order in which the responses arrive, the result is the key
   * with a quorum among all that arrive in time, if there is one.
   */
  method CommunicateWithQuorum(c: Committee, clients: seq<Response>, grace: nat, limit: Option<nat>)
    returns (r: Communication)
    requires DistinctNames(clients)
    ensures var rs := InTime(WithRights(c, clients), limit);
            && (r.Agreed? <==> SomeQuorum(c, rs))
            && (r.Agreed? ==>
                  && HasQuorum(c, rs, r.key) && Collected(c, rs, r.key, r.values)
                  && CollectedWithGrace(c, rs, r.key, r.values, grace))
            && (r.Trusted? ==> c.VotesOf(ErrorVoters(rs, r.error)) >= c.ValidityThreshold())
            && (!r.Agreed? && !r.Trusted? ==> Reported(c, rs, r))
  {
    var rs := InTime(WithRights(c, clients), limit);
    WithRightsIsDistinct(c, clients);
    var n, valueScores, errorScores, highest, remaining, trusted := CollectResponses(c, rs, grace);
    if trusted.Some? {
      TrustedErrorExcludesQuorum(c, rs, n, errorScores, trusted.value);
      return Trusted(trusted.value);
    }
    if k :| k in valueScores && valueScores[k].0 >= c.QuorumThreshold() {
      FoundQuorum(c, rs, n, valueScores, k);
      assert highest >= c.QuorumThreshold() && EntryOf(valueScores, k) == valueScores[k];
      return Agreed(k, valueScores[k].1);
    }
    NoQuorumFound(c, rs, n, valueScores, highest, remaining);
    HighestIsBelow(c, valueScores, highest);
    if errorScores == map[] {
      var list := ListScores(valueScores);
      r := NoConsensus(c.QuorumThreshold(), list);
    } else {
      var sample := SampleErrors(errorScores);
      r := Sample(sample);
    }
    assert ReportedAt(c, rs, r, n, valueScores, errorScores, highest, remaining);
  }

  lemma HighestIsBelow(c: Committee, scores: ValueScores, highest: nat)
    requires IsHighest(scores, highest) && forall k | k in scores :: scores[k].0 < c.QuorumThreshold()
    ensures highest < c.QuorumThreshold()
  {}

  lemma TrustedErrorExcludesQuorum(c: Committee, rs: seq<Response>, n: nat, errors: map<NodeError, nat>, e: NodeError)
    requires DistinctNames(rs) && n <= |rs|
    requires ErrorsTallied(c, rs[..n], errors) && ScoreOf(errors, e) >= c.ValidityThreshold()
    ensures !SomeQuorum(c, rs)
    ensures c.VotesOf(ErrorVoters(rs, e)) >= c.ValidityThreshold()
  {
    ScoresAreVotes(c, rs[..n], 0, e);
    forall k ensures !HasQuorum(c, rs, k) {
      VotersAreDisjoint(rs, rs[..n], k, k, e);
      if HasQuorum(c, rs, k) {
        QuorumLeavesNoSecond(c, KeyVoters(rs, k), ErrorVoters(rs[..n], e));
      }
    }
    assert forall r | r in rs[..n] :: r in rs;
    VotesAreMonotone(c, ErrorVoters(rs[..n], e), ErrorVoters(rs, e));
  }

  lemma FoundQuorum(c: Committee, rs: seq<Response>, n: nat, scores: ValueScores, k: Key)
    requires DistinctNames(rs) && n <= |rs|
    requires ValuesTallied(c, rs[..n], scores)
    requires k in scores && scores[k].0 >= c.QuorumThreshold()
    ensures HasQuorum(c, rs, k) && Collected(c, rs, k, scores[k].1)
  {
    assert EntryOf(scores, k) == scores[k];
    PrefixIsDistinct(rs, n);
    ScoresAreVotes(c, rs[..n], k, 0);
    PrefixVotes(c, rs, n, k);
  }

  /** When the loop ends, the keys seen so far decide whether any key has a quorum at all. */
  lemma NoQuorumFound(c: Committee, rs: seq<Response>, n: nat, scores: ValueScores, highest: nat, remaining: int)
    requires DistinctNames(rs) && n <= |rs|
    requires ValuesTallied(c, rs[..n], scores) && IsHighest(scores, highest)
    requires remaining == c.TotalVotes() - ReceivedVotes(c, rs[..n]) && MayStop(c, rs, n, highest, remaining)
    requires forall k | k in scores :: scores[k].0 < c.QuorumThreshold()
    ensures !SomeQuorum(c, rs)
  {
    PrefixIsDistinct(rs, n);
    forall k ensures !HasQuorum(c, rs, k) {
      ScoresAreVotes(c, rs[..n], k, 0);
      PrefixVotes(c, rs, n, k);
      assert EntryOf(scores, k).0 == KeyScore(c, rs[..n], k) <= highest;
      if n == |rs| {
        assert rs[..n] == rs;
      }
    }
  }
}
