/** Who is paid what when the outcome of a proposal is known. */
module Settlement {
  import opened Credits
  import opened Tally
  import opened Evolution

  /** An account that `amount` was credited to, and nothing else of its money moved. */
  predicate IsPaid(a: Account, b: Account, amount: real) {
    b.raw == a.raw + amount && b.earned == a.earned + amount && b.spent == a.spent && b.decayed == a.decayed
  }

  function Positive(x: real): real {
    if x > 0.0 then x else 0.0
  }

  /** A voter at stake who approved what turned out well, or rejected what did not, is refunded as accurate; one who took
      the other side as inaccurate; who abstained, or has nothing at stake, not at all. */
  function RefundDue(cfg: Config, decision: Decision, good: bool, staked: bool): real {
    if !staked || decision == ABSTAIN then 0.0
    else if (decision == APPROVE) == good then Positive(cfg.refundAccurate)
    else Positive(cfg.refundInaccurate)
  }

  /** Place `i` of the ballot holds the vote of `voter`; there is none if `i` is past the end. */
  predicate IsVoteOf(ballot: Ballot, voter: string, i: nat) {
    && (i < |ballot| ==> ballot[i].voter == voter)
    && (i >= |ballot| ==> forall k | 0 <= k < |ballot| :: ballot[k].voter != voter)
  }

  lemma SettlePays(cfg: Config, s: State, v: Vote, proposalId: string, good: bool, now: real, voter: string)
    requires voter in s.accounts && v.decision != ABSTAIN
    ensures var t := AfterSettle(cfg, s, v.voter, proposalId, Accurate(v.decision, good), now);
      && voter in t.accounts
      && IsPaid(s.accounts[voter], t.accounts[voter],
                if v.voter == voter then RefundDue(cfg, v.decision, good, Staked(s, voter, proposalId)) else 0.0)
      && (v.voter != voter ==> Staked(t, voter, proposalId) == Staked(s, voter, proposalId))
  {
  }

  lemma {:induction false} NobodyPaid(cfg: Config, s: State, proposalId: string, ballot: Ballot, good: bool, now: real, voter: string)
    requires voter in s.accounts && forall k | 0 <= k < |ballot| :: ballot[k].voter != voter
    ensures var t := Credits.Run(cfg, s, BallotEvents(proposalId, ballot, good, now));
      voter in t.accounts && IsPaid(s.accounts[voter], t.accounts[voter], 0.0)
    decreases |ballot|
  {
    if ballot != [] {
      BallotStep(cfg, s, proposalId, ballot, good, now);
      if ballot[0].decision == ABSTAIN {
        NobodyPaid(cfg, s, proposalId, ballot[1..], good, now, voter);
      } else {
        SettlePays(cfg, s, ballot[0], proposalId, good, now, voter);
        NobodyPaid(cfg, AfterSettle(cfg, s, ballot[0].voter, proposalId, Accurate(ballot[0].decision, good), now),
                   proposalId, ballot[1..], good, now, voter);
      }
    }
  }

  lemma {:induction false} BallotPays(cfg: Config, s: State, proposalId: string, ballot: Ballot, good: bool, now: real, voter: string, i: nat)
    requires voter in s.accounts && OneEach(ballot) && IsVoteOf(ballot, voter, i)
    ensures var t := Credits.Run(cfg, s, BallotEvents(proposalId, ballot, good, now));
      voter in t.accounts && IsPaid(s.accounts[voter], t.accounts[voter],
        if i < |ballot| then RefundDue(cfg, ballot[i].decision, good, Staked(s, voter, proposalId)) else 0.0)
    decreases |ballot|
  {
    if ballot != [] {
      var v, rest := ballot[0], ballot[1..];
      BallotStep(cfg, s, proposalId, ballot, good, now);
      var t := if v.decision == ABSTAIN then s else AfterSettle(cfg, s, v.voter, proposalId, Accurate(v.decision, good), now);
      if v.decision != ABSTAIN { SettlePays(cfg, s, v, proposalId, good, now, voter); }
      if v.voter == voter {
        assert forall k | 0 <= k < |rest| :: rest[k] == ballot[k + 1];
        NobodyPaid(cfg, t, proposalId, rest, good, now, voter);
      } else {
        BallotPays(cfg, t, proposalId, rest, good, now, voter, i - 1);
      }
    }
  }

  lemma RewardPays(cfg: Config, terms: Terms, s: State, proposer: string, good: bool, now: real, voter: string, proposalId: string)
    requires voter in s.accounts
    ensures var t := Credits.Run(cfg, s, RewardEvents(terms, proposer, good, now));
      && voter in t.accounts
      && IsPaid(s.accounts[voter], t.accounts[voter], if good && proposer == voter then terms.reward else 0.0)
      && Staked(t, voter, proposalId) == Staked(s, voter, proposalId)
  {
    if good {
      assert [Event(RewardProposer(proposer, terms.reward), now)][1..] == [];
      assert Credits.Run(cfg, s, RewardEvents(terms, proposer, good, now)) == AfterReward(cfg, s, proposer, terms.reward, now);
    }
  }

  /** Settling an outcome, for everybody who has an account: the proposer gets the reward if fitness did not fall; who voted is
      refunded by whether the vote was right about that; and nobody else's money moves. */
  lemma OutcomePays(cfg: Config, terms: Terms, s: State, o: Outcome, fitness: real, now: real, voter: string, i: nat)
    requires voter in s.accounts && OneEach(o.ballot) && IsVoteOf(o.ballot, voter, i)
    ensures var t := Credits.Run(cfg, s, OutcomeEvents(terms, o, fitness, now));
      voter in t.accounts && IsPaid(s.accounts[voter], t.accounts[voter],
        (if fitness >= o.baseline && o.proposerId == voter then terms.reward else 0.0)
        + if i < |o.ballot| then RefundDue(cfg, o.ballot[i].decision, fitness >= o.baseline, Staked(s, voter, o.proposalId)) else 0.0)
  {
    var good := fitness >= o.baseline;
    var t := Credits.Run(cfg, s, RewardEvents(terms, o.proposerId, good, now));
    RewardPays(cfg, terms, s, o.proposerId, good, now, voter, o.proposalId);
    BallotPays(cfg, t, o.proposalId, o.ballot, good, now, voter, i);
    RunConcat(cfg, s, RewardEvents(terms, o.proposerId, good, now), BallotEvents(o.proposalId, o.ballot, good, now));
  }
}
