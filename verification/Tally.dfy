/** Tallying the votes on a proposal: one vote a voter, weighted by reputation. */
module Tally {
  import opened Wrappers
  import opened Sums
  import opened Sorting

  datatype Decision = APPROVE | REJECT | ABSTAIN

  datatype Vote = Vote(voter: string, decision: Decision)

  /** One vote a voter, in the order in which the voters first voted. */
  type Ballot = seq<Vote>

  /** Reputation scores, or equal weights when there are none. */
  type Reputation = Option<string -> real>

  datatype Rules = Rules(minVoters: int, quorum: real, reputation: Reputation)

  // --- The last vote counts ---

  /** Storing a vote under its voter. */
  function Cast(ballot: Ballot, v: Vote): Ballot {
    if ballot == [] then [v]
    else if ballot[0].voter == v.voter then [v] + ballot[1..]
    else [ballot[0]] + Cast(ballot[1..], v)
  }

  function Unique(votes: seq<Vote>): Ballot {
    if votes == [] then [] else Cast(Unique(votes[..|votes| - 1]), votes[|votes| - 1])
  }

  function LastVote(votes: seq<Vote>, voter: string): Option<Decision> {
    if votes == [] then None
    else if votes[|votes| - 1].voter == voter then Some(votes[|votes| - 1].decision)
    else LastVote(votes[..|votes| - 1], voter)
  }

  predicate OneEach(ballot: Ballot) {
    forall i, j | 0 <= i < j < |ballot| :: ballot[i].voter != ballot[j].voter
  }

  predicate HasVoted(ballot: Ballot, voter: string) {
    exists i :: 0 <= i < |ballot| && ballot[i].voter == voter
  }

  lemma VotedInTail(ballot: Ballot, voter: string)
    requires ballot != [] && ballot[0].voter != voter
    ensures HasVoted(ballot, voter) <==> HasVoted(ballot[1..], voter)
  {
    if HasVoted(ballot, voter) {
      var i :| 0 <= i < |ballot| && ballot[i].voter == voter;
      assert ballot[1..][i - 1].voter == voter;
    }
    if HasVoted(ballot[1..], voter) {
      var i :| 0 <= i < |ballot[1..]| && ballot[1..][i].voter == voter;
      assert ballot[i + 1].voter == voter;
    }
  }

  lemma CastHead(ballot: Ballot, v: Vote)
    requires ballot != [] && ballot[0].voter != v.voter && OneEach(ballot) && OneEach(Cast(ballot[1..], v))
    requires forall w :: w in Cast(ballot[1..], v) <==> if w.voter == v.voter then w == v else w in ballot[1..]
    ensures OneEach(Cast(ballot, v))
  {
    var rest := Cast(ballot[1..], v);
    forall j | 0 <= j < |rest| ensures rest[j].voter != ballot[0].voter {
      assert rest[j] in rest;
      if rest[j].voter != v.voter {
        assert rest[j] in ballot[1..];
      }
    }
  }

  lemma {:induction false} CastFacts(ballot: Ballot, v: Vote)
    requires OneEach(ballot)
    ensures OneEach(Cast(ballot, v))
    ensures forall w :: w in Cast(ballot, v) <==> if w.voter == v.voter then w == v else w in ballot
    ensures |Cast(ballot, v)| == |ballot| + if HasVoted(ballot, v.voter) then 0 else 1
  {
    if ballot == [] {
    } else if ballot[0].voter == v.voter {
      assert HasVoted(ballot, v.voter);
      assert Cast(ballot, v) == [v] + ballot[1..];
      forall w ensures w in Cast(ballot, v) <==> if w.voter == v.voter then w == v else w in ballot {
        assert w in ballot <==> w == ballot[0] || w in ballot[1..];
      }
    } else {
      CastFacts(ballot[1..], v);
      forall w ensures w in Cast(ballot, v) <==> if w.voter == v.voter then w == v else w in ballot {
        assert w in ballot <==> w == ballot[0] || w in ballot[1..];
      }
      VotedInTail(ballot, v.voter);
      CastHead(ballot, v);
    }
  }

  /** The ballot lists exactly every voter's last vote. */
  lemma {:induction false} UniqueIsLast(votes: seq<Vote>)
    ensures OneEach(Unique(votes))
    ensures forall v :: v in Unique(votes) <==> LastVote(votes, v.voter) == Some(v.decision)
  {
    if votes != [] {
      var n := |votes| - 1;
      UniqueIsLast(votes[..n]);
      CastFacts(Unique(votes[..n]), votes[n]);
    }
  }

  // --- Weights ---

  function WeightOf(rep: Reputation): Vote -> real {
    (v: Vote) => if rep.Some? then rep.value(v.voter) else 0.5
  }

  function ApprovalOf(rep: Reputation): Vote -> real {
    (v: Vote) => if v.decision == APPROVE then WeightOf(rep)(v) else 0.0
  }

  function TotalWeight(rep: Reputation, ballot: Ballot): real {
    Sum(Map(WeightOf(rep), ballot))
  }

  function ApproveWeight(rep: Reputation, ballot: Ballot): real {
    Sum(Map(ApprovalOf(rep), ballot))
  }

  function ApprovalRate(rep: Reputation, ballot: Ballot): real {
    if TotalWeight(rep, ballot) > 0.0 then ApproveWeight(rep, ballot) / TotalWeight(rep, ballot) else 0.0
  }

  predicate Accepts(rules: Rules, votes: seq<Vote>) {
    |Unique(votes)| >= rules.minVoters && ApprovalRate(rules.reputation, Unique(votes)) >= rules.quorum
  }

  // --- What the decision depends on ---

  predicate SameLastVotes(a: seq<Vote>, b: seq<Vote>, voter: string) {
    LastVote(a, voter) == LastVote(b, voter)
  }

  lemma OneEachDistinct(ballot: Ballot)
    requires OneEach(ballot)
    ensures Distinct(ballot)
  {
  }

  lemma SameBallots(a: seq<Vote>, b: seq<Vote>)
    requires forall voter: string :: SameLastVotes(a, b, voter)
    ensures multiset(Unique(a)) == multiset(Unique(b))
  {
    UniqueIsLast(a);
    UniqueIsLast(b);
    OneEachDistinct(Unique(a));
    OneEachDistinct(Unique(b));
    DistinctMultiset(Unique(a));
    DistinctMultiset(Unique(b));
    forall v: Vote ensures v in Unique(a) <==> v in Unique(b) {
      assert SameLastVotes(a, b, v.voter);
    }
  }

  lemma BallotOrder(rep: Reputation, a: Ballot, b: Ballot)
    requires multiset(a) == multiset(b)
    ensures |a| == |b| && TotalWeight(rep, a) == TotalWeight(rep, b) && ApproveWeight(rep, a) == ApproveWeight(rep, b)
  {
    assert |a| == |multiset(a)| == |multiset(b)| == |b|;
    MapPermutation(WeightOf(rep), a, b);
    MapPermutation(ApprovalOf(rep), a, b);
    SumPermutation(Map(WeightOf(rep), a), Map(WeightOf(rep), b));
    SumPermutation(Map(ApprovalOf(rep), a), Map(ApprovalOf(rep), b));
  }

  /** The decision depends on every voter's last vote and on nothing else: not on the order, not on earlier votes. */
  lemma LastVotesDecide(rules: Rules, a: seq<Vote>, b: seq<Vote>)
    requires forall voter: string :: SameLastVotes(a, b, voter)
    ensures Accepts(rules, a) <==> Accepts(rules, b)
    ensures ApprovalRate(rules.reputation, Unique(a)) == ApprovalRate(rules.reputation, Unique(b))
  {
    SameBallots(a, b);
    BallotOrder(rules.reputation, Unique(a), Unique(b));
  }

  lemma {:induction false} LastVoteConcat(a: seq<Vote>, b: seq<Vote>, voter: string)
    ensures LastVote(a + b, voter) == if LastVote(b, voter).Some? then LastVote(b, voter) else LastVote(a, voter)
    decreases |b|
  {
    if b == [] {
      assert a + b == a;
    } else {
      var n := |b| - 1;
      assert (a + b)[..|a + b| - 1] == a + b[..n] && (a + b)[|a + b| - 1] == b[n];
      LastVoteConcat(a, b[..n], voter);
    }
  }

  lemma LastVoteSingle(v: Vote, voter: string)
    ensures LastVote([v], voter) == if v.voter == voter then Some(v.decision) else None
  {
    assert [v][..0] == [];
  }

  /** Two votes of different voters may arrive in either order. */
  lemma OrderOfVotersIsFree(rules: Rules, before: seq<Vote>, x: Vote, y: Vote, after: seq<Vote>)
    requires x.voter != y.voter
    ensures Accepts(rules, before + ([x] + [y]) + after) <==> Accepts(rules, before + ([y] + [x]) + after)
  {
    var a, b := before + ([x] + [y]) + after, before + ([y] + [x]) + after;
    forall voter: string ensures SameLastVotes(a, b, voter) {
      LastVoteConcat(before + ([x] + [y]), after, voter);
      LastVoteConcat(before + ([y] + [x]), after, voter);
      LastVoteConcat(before, [x] + [y], voter);
      LastVoteConcat(before, [y] + [x], voter);
      LastVoteConcat([x], [y], voter);
      LastVoteConcat([y], [x], voter);
      LastVoteSingle(x, voter);
      LastVoteSingle(y, voter);
    }
    LastVotesDecide(rules, a, b);
  }

  // --- What is decided ---

  function Weighs(rep: Reputation, voter: string): real {
    if rep.Some? then rep.value(voter) else 0.5
  }

  /** The weights of those voters whose last vote is one of `sides`. */
  function WeightBy(rep: Reputation, votes: seq<Vote>, voters: seq<string>, sides: set<Decision>): real {
    if voters == [] then 0.0
    else
      (if LastVote(votes, voters[0]).Some? && LastVote(votes, voters[0]).value in sides then Weighs(rep, voters[0]) else 0.0)
      + WeightBy(rep, votes, voters[1..], sides)
  }

  /** The voters, each once. */
  ghost predicate AreVoters(votes: seq<Vote>, voters: seq<string>) {
    Distinct(voters) && forall voter :: voter in voters <==> LastVote(votes, voter).Some?
  }

  function BallotOf(votes: seq<Vote>, voters: seq<string>): (r: Ballot)
    requires forall voter | voter in voters :: LastVote(votes, voter).Some?
    ensures |r| == |voters|
    ensures forall i | 0 <= i < |voters| :: voters[i] in voters && r[i] == Vote(voters[i], LastVote(votes, voters[i]).value)
  {
    seq(|voters|, i requires 0 <= i < |voters| => assert voters[i] in voters; Vote(voters[i], LastVote(votes, voters[i]).value))
  }

  lemma BallotOfIsUnique(votes: seq<Vote>, voters: seq<string>)
    requires AreVoters(votes, voters)
    ensures multiset(BallotOf(votes, voters)) == multiset(Unique(votes))
  {
    var b := BallotOf(votes, voters);
    UniqueIsLast(votes);
    OneEachDistinct(Unique(votes));
    DistinctMultiset(Unique(votes));
    DistinctMultiset(b);
    forall v: Vote ensures v in b <==> v in Unique(votes) {
      if LastVote(votes, v.voter) == Some(v.decision) {
        assert v.voter in voters;
        var i :| 0 <= i < |voters| && voters[i] == v.voter;
        assert b[i] == v;
      }
    }
  }

  function EveryWeight(rep: Reputation, votes: seq<Vote>, voters: seq<string>): real {
    WeightBy(rep, votes, voters, {APPROVE, REJECT, ABSTAIN})
  }

  function Approving(rep: Reputation, votes: seq<Vote>, voters: seq<string>): real {
    WeightBy(rep, votes, voters, {APPROVE})
  }

  lemma {:induction false} BallotWeights(rep: Reputation, votes: seq<Vote>, voters: seq<string>)
    requires forall voter | voter in voters :: LastVote(votes, voter).Some?
    ensures TotalWeight(rep, BallotOf(votes, voters)) == EveryWeight(rep, votes, voters)
    ensures ApproveWeight(rep, BallotOf(votes, voters)) == Approving(rep, votes, voters)
  {
    var b := BallotOf(votes, voters);
    if voters == [] {
      assert Map(WeightOf(rep), b) == [] && Map(ApprovalOf(rep), b) == [];
    } else {
      assert voters[0] in voters;
      BallotWeights(rep, votes, voters[1..]);
      assert b == [b[0]] + BallotOf(votes, voters[1..]);
      assert Map(WeightOf(rep), b)[1..] == Map(WeightOf(rep), b[1..]);
      assert Map(ApprovalOf(rep), b)[1..] == Map(ApprovalOf(rep), b[1..]);
    }
  }

  /** The last of the votes of one voter counts. */
  lemma {:induction false} LastVoteIs(votes: seq<Vote>, voter: string, i: nat)
    requires i < |votes| && votes[i].voter == voter && forall k | i < k < |votes| :: votes[k].voter != voter
    ensures LastVote(votes, voter) == Some(votes[i].decision)
  {
    var n := |votes| - 1;
    if i < n { LastVoteIs(votes[..n], voter, i); }
  }

  lemma {:induction false} NoVoteIs(votes: seq<Vote>, voter: string)
    requires forall k | 0 <= k < |votes| :: votes[k].voter != voter
    ensures LastVote(votes, voter) == None
  {
    if votes != [] { NoVoteIs(votes[..|votes| - 1], voter); }
  }

  /** Enough voters, and of all their weight the quorum approves; without any weight nothing approves. */
  predicate Carries(rules: Rules, voters: nat, every: real, approving: real) {
    voters >= rules.minVoters && if every > 0.0 then approving >= Scaled(rules.quorum, every) else rules.quorum <= 0.0
  }

  lemma RatioAtLeast(a: real, t: real, q: real)
    ensures t > 0.0 ==> (a / t >= q <==> a >= Scaled(q, t))
  {
    if t > 0.0 { assert (a / t) * t == a; }
  }

  /** The rule of acceptance, told from the last votes alone; abstentions weigh as much as the other votes. */
  lemma AcceptsIff(rules: Rules, votes: seq<Vote>, voters: seq<string>)
    requires AreVoters(votes, voters)
    ensures Accepts(rules, votes) <==>
      Carries(rules, |voters|, EveryWeight(rules.reputation, votes, voters), Approving(rules.reputation, votes, voters))
  {
    BallotOfIsUnique(votes, voters);
    BallotOrder(rules.reputation, BallotOf(votes, voters), Unique(votes));
    BallotWeights(rules.reputation, votes, voters);
    RatioAtLeast(Approving(rules.reputation, votes, voters), EveryWeight(rules.reputation, votes, voters), rules.quorum);
  }

  lemma {:induction false} WeightElsewhere(rep: Reputation, a: seq<Vote>, b: seq<Vote>, voters: seq<string>, sides: set<Decision>)
    requires forall voter | voter in voters :: LastVote(a, voter) == LastVote(b, voter)
    ensures WeightBy(rep, a, voters, sides) == WeightBy(rep, b, voters, sides)
  {
    if voters != [] {
      assert voters[0] in voters;
      WeightElsewhere(rep, a, b, voters[1..], sides);
    }
  }

  lemma NewVoter(votes: seq<Vote>, voters: seq<string>, v: Vote)
    requires AreVoters(votes, voters) && LastVote(votes, v.voter).None?
    ensures AreVoters(votes + [v], [v.voter] + voters) && LastVote(votes + [v], v.voter) == Some(v.decision)
    ensures forall voter | voter in voters :: LastVote(votes + [v], voter) == LastVote(votes, voter)
  {
    forall voter ensures LastVote(votes + [v], voter) == if voter == v.voter then Some(v.decision) else LastVote(votes, voter) {
      LastVoteConcat(votes, [v], voter);
      LastVoteSingle(v, voter);
    }
  }

  lemma NewVoterWeighs(rep: Reputation, votes: seq<Vote>, voters: seq<string>, v: Vote, sides: set<Decision>)
    requires AreVoters(votes, voters) && LastVote(votes, v.voter).None?
    ensures WeightBy(rep, votes + [v], [v.voter] + voters, sides)
         == WeightBy(rep, votes, voters, sides) + if v.decision in sides then Weighs(rep, v.voter) else 0.0
  {
    NewVoter(votes, voters, v);
    WeightElsewhere(rep, votes + [v], votes, voters, sides);
    assert ([v.voter] + voters)[1..] == voters;
  }

  lemma NewVoterAgainst(rep: Reputation, votes: seq<Vote>, voters: seq<string>, v: Vote)
    requires AreVoters(votes, voters) && LastVote(votes, v.voter).None? && v.decision != APPROVE
    ensures EveryWeight(rep, votes + [v], [v.voter] + voters) == EveryWeight(rep, votes, voters) + Weighs(rep, v.voter)
    ensures Approving(rep, votes + [v], [v.voter] + voters) == Approving(rep, votes, voters)
  {
    NewVoterWeighs(rep, votes, voters, v, {APPROVE, REJECT, ABSTAIN});
    NewVoterWeighs(rep, votes, voters, v, {APPROVE});
  }

  lemma AgainstCounts(rules: Rules, votes: seq<Vote>, voters: seq<string>, v: Vote)
    requires AreVoters(votes, voters) && LastVote(votes, v.voter).None? && v.decision != APPROVE
    ensures Accepts(rules, votes + [v]) <==>
      Carries(rules, |voters| + 1, EveryWeight(rules.reputation, votes, voters) + Weighs(rules.reputation, v.voter),
              Approving(rules.reputation, votes, voters))
  {
    NewVoter(votes, voters, v);
    NewVoterAgainst(rules.reputation, votes, voters, v);
    AcceptsIff(rules, votes + [v], [v.voter] + voters);
  }

  /** An abstention counts against a proposal exactly as a rejection does: the new voter's weight raises what the quorum asks, and
      adds nothing to what approves. */
  lemma AbstentionCounts(rules: Rules, votes: seq<Vote>, voters: seq<string>, voter: string)
    requires AreVoters(votes, voters) && LastVote(votes, voter).None?
    ensures Accepts(rules, votes + [Vote(voter, ABSTAIN)]) <==>
      Carries(rules, |voters| + 1, EveryWeight(rules.reputation, votes, voters) + Weighs(rules.reputation, voter),
              Approving(rules.reputation, votes, voters))
    ensures Accepts(rules, votes + [Vote(voter, ABSTAIN)]) <==> Accepts(rules, votes + [Vote(voter, REJECT)])
  {
    AgainstCounts(rules, votes, voters, Vote(voter, ABSTAIN));
    AgainstCounts(rules, votes, voters, Vote(voter, REJECT));
  }

  // --- Approval never hurts ---

  ghost predicate NoNegativeWeights(rep: Reputation) {
    forall voter: string :: WeightOf(rep)(Vote(voter, APPROVE)) >= 0.0
  }

  lemma MapStep(f: Vote -> real, ballot: Ballot)
    requires ballot != []
    ensures Sum(Map(f, ballot)) == f(ballot[0]) + Sum(Map(f, ballot[1..]))
  {
    assert Map(f, ballot)[1..] == Map(f, ballot[1..]);
  }

  lemma MapFirst(f: Vote -> real, v: Vote, rest: Ballot)
    ensures Sum(Map(f, [v] + rest)) == f(v) + Sum(Map(f, rest))
  {
    MapStep(f, [v] + rest);
    assert ([v] + rest)[1..] == rest;
  }

  lemma MapEmpty(f: Vote -> real)
    ensures Sum(Map(f, [])) == 0.0
  {
    assert Map(f, []) == [];
  }

  /** Storing an approval: the approving weight grows at least as much as the total, and that does not shrink. */
  lemma {:induction false} CastApproval(rep: Reputation, ballot: Ballot, v: Vote)
    requires NoNegativeWeights(rep) && v.decision == APPROVE
    ensures TotalWeight(rep, ballot) <= TotalWeight(rep, Cast(ballot, v))
    ensures ApproveWeight(rep, Cast(ballot, v)) - ApproveWeight(rep, ballot)
         >= TotalWeight(rep, Cast(ballot, v)) - TotalWeight(rep, ballot)
  {
    assert WeightOf(rep)(v) == WeightOf(rep)(Vote(v.voter, APPROVE)) >= 0.0;
    if ballot == [] {
      MapEmpty(WeightOf(rep));
      MapEmpty(ApprovalOf(rep));
      MapStep(WeightOf(rep), [v]);
      MapStep(ApprovalOf(rep), [v]);
      assert [v][1..] == [];
    } else {
      MapStep(WeightOf(rep), ballot);
      MapStep(ApprovalOf(rep), ballot);
      if ballot[0].voter == v.voter {
        MapFirst(WeightOf(rep), v, ballot[1..]);
        MapFirst(ApprovalOf(rep), v, ballot[1..]);
      } else {
        CastApproval(rep, ballot[1..], v);
        MapFirst(WeightOf(rep), ballot[0], Cast(ballot[1..], v));
        MapFirst(ApprovalOf(rep), ballot[0], Cast(ballot[1..], v));
      }
    }
  }

  lemma {:induction false} ApproveWithinTotal(rep: Reputation, ballot: Ballot)
    requires NoNegativeWeights(rep)
    ensures 0.0 <= ApproveWeight(rep, ballot) <= TotalWeight(rep, ballot)
  {
    if ballot == [] {
      MapEmpty(WeightOf(rep));
      MapEmpty(ApprovalOf(rep));
    } else {
      ApproveWithinTotal(rep, ballot[1..]);
      MapStep(WeightOf(rep), ballot);
      MapStep(ApprovalOf(rep), ballot);
      assert WeightOf(rep)(ballot[0]) == WeightOf(rep)(Vote(ballot[0].voter, APPROVE)) >= 0.0;
    }
  }

  lemma Larger(r: real, t: real)
    requires r > 1.0 && t > 0.0
    ensures r * t > t
  {
  }

  lemma Scales(r: real, d: real)
    requires r <= 1.0 && d >= 0.0
    ensures r * d <= d
  {
  }

  lemma Quotient(a: real, t: real, r: real)
    requires t > 0.0 && r * t <= a
    ensures r <= a / t
  {
    assert (a - r * t) / t == a / t - r;
  }

  lemma RateGrows(a: real, t: real, a': real, t': real)
    requires 0.0 <= a <= t && 0.0 <= a' <= t' && t <= t' && a' - a >= t' - t
    ensures (if t > 0.0 then a / t else 0.0) <= (if t' > 0.0 then a' / t' else 0.0)
  {
    if t > 0.0 {
      var r := a / t;
      assert r * t == a;
      assert r <= 1.0 by { if r > 1.0 { Larger(r, t); } }
      Scales(r, t' - t);
      assert r * t' == r * t + r * (t' - t);
      assert r * t' <= a';
      Quotient(a', t', r);
    } else if t' > 0.0 {
      Quotient(a', t', 0.0);
    }
  }

  lemma CastKeepsVoters(ballot: Ballot, v: Vote)
    ensures |Cast(ballot, v)| >= |ballot|
  {
  }

  /** One more approval, or one instead of the voter's earlier vote, never turns acceptance into rejection. */
  lemma ApprovingNeverHurts(rules: Rules, votes: seq<Vote>, voter: string)
    requires NoNegativeWeights(rules.reputation)
    ensures Accepts(rules, votes) ==> Accepts(rules, votes + [Vote(voter, APPROVE)])
  {
    var v, rep := Vote(voter, APPROVE), rules.reputation;
    var old_, new_ := Unique(votes), Cast(Unique(votes), v);
    assert (votes + [v])[..|votes + [v]| - 1] == votes;
    assert Unique(votes + [v]) == new_;
    CastKeepsVoters(old_, v);
    CastApproval(rep, old_, v);
    ApproveWithinTotal(rep, old_);
    ApproveWithinTotal(rep, new_);
    RateGrows(ApproveWeight(rep, old_), TotalWeight(rep, old_), ApproveWeight(rep, new_), TotalWeight(rep, new_));
  }

  /** Switching any vote that was cast to an approval never turns acceptance into rejection. */
  lemma SwitchingToApprovalNeverHurts(rules: Rules, votes: seq<Vote>, i: nat)
    requires NoNegativeWeights(rules.reputation) && i < |votes|
    ensures Accepts(rules, votes) ==> Accepts(rules, votes[i := Vote(votes[i].voter, APPROVE)])
  {
    var x := votes[i];
    var v := Vote(x.voter, APPROVE);
    var before, after := votes[..i], votes[i + 1..];
    var switched := votes[i := v];
    assert votes == before + [x] + after && switched == before + [v] + after;
    var reference := if LastVote(after, x.voter).Some? then votes else votes + [v];
    forall voter: string ensures SameLastVotes(switched, reference, voter) {
      LastVoteConcat(before + [x], after, voter);
      LastVoteConcat(before + [v], after, voter);
      LastVoteConcat(before, [x], voter);
      LastVoteConcat(before, [v], voter);
      LastVoteSingle(x, voter);
      LastVoteSingle(v, voter);
      LastVoteConcat(votes, [v], voter);
    }
    LastVotesDecide(rules, switched, reference);
    ApprovingNeverHurts(rules, votes, x.voter);
  }

  // --- The program ---

  method CountWeights(rep: Reputation, ballot: Ballot) returns (approve: real, total: real)
    ensures approve == ApproveWeight(rep, ballot) && total == TotalWeight(rep, ballot)
  {
    approve, total := 0.0, 0.0;
    for i := 0 to |ballot|
      invariant approve + ApproveWeight(rep, ballot[i..]) == ApproveWeight(rep, ballot)
      invariant total + TotalWeight(rep, ballot[i..]) == TotalWeight(rep, ballot)
    {
      MapStep(WeightOf(rep), ballot[i..]);
      MapStep(ApprovalOf(rep), ballot[i..]);
      assert ballot[i..][1..] == ballot[i + 1..];
      var w := if rep.Some? then rep.value(ballot[i].voter) else 0.5;
      total := total + w;
      if ballot[i].decision == APPROVE {
        approve := approve + w;
      }
    }
    assert ballot[|ballot|..] == [];
    MapEmpty(WeightOf(rep));
    MapEmpty(ApprovalOf(rep));
  }

  method Deduplicate(votes: seq<Vote>) returns (ballot: Ballot)
    ensures ballot == Unique(votes)
  {
    ballot := [];
    for i := 0 to |votes|
      invariant ballot == Unique(votes[..i])
    {
      assert votes[..i + 1][..i] == votes[..i];
      ballot := Cast(ballot, votes[i]);
    }
    assert votes[..|votes|] == votes;
  }

  /** The decision part of `tally_votes`. */
  method Decide(rules: Rules, votes: seq<Vote>) returns (accepted: bool, ballot: Ballot)
    ensures accepted <==> Accepts(rules, votes)
    ensures ballot == Unique(votes)
  {
    ballot := Deduplicate(votes);
    if |ballot| < rules.minVoters {
      return false, ballot;
    }
    var approve, total := CountWeights(rules.reputation, ballot);
    var rate := if total > 0.0 then approve / total else 0.0;
    accepted := rate >= rules.quorum;
  }
}
