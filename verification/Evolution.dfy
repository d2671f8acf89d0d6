/** Accepted proposals awaiting their outcome, their settlement through the credit ledger, and the protocol that accepts them. */
module Evolution {
  import opened Wrappers
  import opened Credits
  import opened Tally
  import CreditLedger

  datatype Outcome = Outcome(
    proposalId: string, proposerId: string, ballot: Ballot, baseline: real, acceptedAt: nat, settled: bool)

  datatype Terms = Terms(roundsToSettle: int, reward: real)

  // --- What settling does to the ledger ---

  function Accurate(d: Decision, good: bool): bool {
    (d == APPROVE && good) || (d == REJECT && !good)
  }

  /** One settlement for every voter who did not abstain. */
  function BallotEvents(proposalId: string, ballot: Ballot, good: bool, now: real): seq<Event> {
    if ballot == [] then []
    else
      (if ballot[0].decision == ABSTAIN then []
       else [Event(SettleVote(ballot[0].voter, proposalId, Accurate(ballot[0].decision, good)), now)])
      + BallotEvents(proposalId, ballot[1..], good, now)
  }

  function RewardEvents(terms: Terms, proposer: string, good: bool, now: real): seq<Event> {
    if good then [Event(RewardProposer(proposer, terms.reward), now)] else []
  }

  /** `_settle_one`: the proposer is rewarded for an improvement, then the voters are settled. */
  function OutcomeEvents(terms: Terms, o: Outcome, fitness: real, now: real): seq<Event> {
    var good := fitness >= o.baseline;
    RewardEvents(terms, o.proposerId, good, now) + BallotEvents(o.proposalId, o.ballot, good, now)
  }

  predicate Matured(terms: Terms, o: Outcome, round: nat) {
    round - o.acceptedAt >= terms.roundsToSettle
  }

  predicate Due(terms: Terms, o: Outcome, round: nat) {
    !o.settled && Matured(terms, o, round)
  }

  /** The ledger operations of one tick; the fitness is measured anew for every outcome. */
  function TickEvents(terms: Terms, pending: seq<Outcome>, round: nat, fitness: nat -> real, now: real): seq<Event> {
    if pending == [] then []
    else
      var n := |pending| - 1;
      TickEvents(terms, pending[..n], round, fitness, now)
        + if Due(terms, pending[n], round) then OutcomeEvents(terms, pending[n], fitness(n), now) else []
  }

  function Settled(terms: Terms, o: Outcome, round: nat): Outcome {
    if Due(terms, o, round) then o.(settled := true) else o
  }

  /** What considering an outcome does to the credits. */
  function PaidOut(cfg: Config, terms: Terms, s: State, o: Outcome, round: nat, fitness: real, now: real): State {
    if Due(terms, o, round) then Credits.Run(cfg, s, OutcomeEvents(terms, o, fitness, now)) else s
  }

  function AllSettled(terms: Terms, pending: seq<Outcome>, round: nat): (r: seq<Outcome>)
    ensures |r| == |pending|
    ensures forall i | 0 <= i < |pending| :: r[i] == Settled(terms, pending[i], round)
  {
    seq(|pending|, i requires 0 <= i < |pending| => Settled(terms, pending[i], round))
  }

  // --- Runs of the tracker ---

  datatype Tracker = Tracker(pending: seq<Outcome>, round: nat, credits: State)

  datatype Move =
    | Register(proposalId: string, proposerId: string, ballot: Ballot, baseline: real)
    | Tick(fitness: nat -> real, now: real)
    | Other(event: Event)

  function Advance(cfg: Config, terms: Terms, t: Tracker, m: Move): Tracker {
    match m
    case Register(proposalId, proposerId, ballot, baseline) =>
      t.(pending := t.pending + [Outcome(proposalId, proposerId, ballot, baseline, t.round, false)])
    case Tick(fitness, now) =>
      Tracker(AllSettled(terms, t.pending, t.round + 1), t.round + 1,
              Credits.Run(cfg, t.credits, TickEvents(terms, t.pending, t.round + 1, fitness, now)))
    case Other(event) => t.(credits := Credits.Step(cfg, t.credits, event))
  }

  function Play(cfg: Config, terms: Terms, t: Tracker, moves: seq<Move>): Tracker
    decreases |moves|
  {
    if moves == [] then t else Play(cfg, terms, Advance(cfg, terms, t, moves[0]), moves[1..])
  }

  // --- Settled exactly once, and exactly when mature ---

  /** Nothing is settled before its time. */
  predicate NoneEarly(terms: Terms, t: Tracker) {
    forall i | 0 <= i < |t.pending| :: t.pending[i].settled ==> Matured(terms, t.pending[i], t.round)
  }

  /** Settled are exactly the outcomes that have matured. */
  predicate Exact(terms: Terms, t: Tracker) {
    forall i | 0 <= i < |t.pending| :: t.pending[i].settled <==> Matured(terms, t.pending[i], t.round)
  }

  lemma MovesKeepNoneEarly(cfg: Config, terms: Terms, t: Tracker, m: Move)
    requires NoneEarly(terms, t)
    ensures NoneEarly(terms, Advance(cfg, terms, t, m))
  {
  }

  /** Whatever happened before, after a tick the settled outcomes are exactly the matured ones. */
  lemma {:induction false} TickSettlesExactly(cfg: Config, terms: Terms, t: Tracker, moves: seq<Move>, tick: Move)
    requires NoneEarly(terms, t) && tick.Tick?
    ensures Exact(terms, Advance(cfg, terms, Play(cfg, terms, t, moves), tick))
    decreases |moves|
  {
    if moves == [] {
    } else {
      MovesKeepNoneEarly(cfg, terms, t, moves[0]);
      TickSettlesExactly(cfg, terms, Advance(cfg, terms, t, moves[0]), moves[1..], tick);
    }
  }

  /** With at least one round to wait, that holds at every moment of every run. */
  lemma {:induction false} AlwaysExact(cfg: Config, terms: Terms, t: Tracker, moves: seq<Move>)
    requires Exact(terms, t) && terms.roundsToSettle >= 1
    ensures Exact(terms, Play(cfg, terms, t, moves))
    decreases |moves|
  {
    if moves == [] {
    } else {
      AlwaysExact(cfg, terms, Advance(cfg, terms, t, moves[0]), moves[1..]);
    }
  }

  /** Without a waiting round, registering alone already breaks it. */
  lemma RegisteringBreaksExact(cfg: Config, terms: Terms, t: Tracker, m: Move)
    requires m.Register? && Exact(terms, t)
    ensures Exact(terms, Advance(cfg, terms, t, m)) <==> terms.roundsToSettle >= 1
  {
    var after := Advance(cfg, terms, t, m);
    assert after.pending[|t.pending|].acceptedAt == after.round && !after.pending[|t.pending|].settled;
  }

  predicate IsSettled(t: Tracker, i: nat) {
    i < |t.pending| && t.pending[i].settled
  }

  /** How many moves of a run pay out outcome `i`. */
  function TimesPaid(cfg: Config, terms: Terms, t: Tracker, moves: seq<Move>, i: nat): nat
    decreases |moves|
  {
    if moves == [] then 0
    else
      Bit(moves[0].Tick? && i < |t.pending| && Due(terms, t.pending[i], t.round + 1))
        + TimesPaid(cfg, terms, Advance(cfg, terms, t, moves[0]), moves[1..], i)
  }

  /** Over any run an outcome is paid out once if the run settles it, and never otherwise. */
  lemma {:induction false} PaidOnce(cfg: Config, terms: Terms, t: Tracker, moves: seq<Move>, i: nat)
    ensures TimesPaid(cfg, terms, t, moves, i) + Bit(IsSettled(t, i)) == Bit(IsSettled(Play(cfg, terms, t, moves), i))
    decreases |moves|
  {
    if moves == [] {
    } else {
      PaidOnce(cfg, terms, Advance(cfg, terms, t, moves[0]), moves[1..], i);
    }
  }

  // --- The money ---

  lemma {:induction false} RunConcat(cfg: Config, s: State, a: seq<Event>, b: seq<Event>)
    ensures Credits.Run(cfg, s, a + b) == Credits.Run(cfg, Credits.Run(cfg, s, a), b)
    decreases |a|
  {
    if a == [] {
      assert a + b == b;
    } else {
      assert (a + b)[0] == a[0] && (a + b)[1..] == a[1..] + b;
      RunConcat(cfg, Credits.Step(cfg, s, a[0]), a[1..], b);
    }
  }

  /** The ledger operations of one move. */
  function MoveEvents(terms: Terms, t: Tracker, m: Move): seq<Event> {
    match m
    case Register(_, _, _, _) => []
    case Tick(fitness, now) => TickEvents(terms, t.pending, t.round + 1, fitness, now)
    case Other(event) => [event]
  }

  /** The ledger operations of a whole run, in order. */
  function EventsOf(cfg: Config, terms: Terms, t: Tracker, moves: seq<Move>): seq<Event>
    decreases |moves|
  {
    if moves == [] then []
    else
      MoveEvents(terms, t, moves[0]) + EventsOf(cfg, terms, Advance(cfg, terms, t, moves[0]), moves[1..])
  }

  /** Every run of the tracker is a run of the credit ledger. */
  lemma {:induction false} PlayIsRun(cfg: Config, terms: Terms, t: Tracker, moves: seq<Move>)
    ensures Play(cfg, terms, t, moves).credits == Credits.Run(cfg, t.credits, EventsOf(cfg, terms, t, moves))
    decreases |moves|
  {
    if moves == [] {
    } else {
      var next := Advance(cfg, terms, t, moves[0]);
      PlayIsRun(cfg, terms, next, moves[1..]);
      match moves[0]
      case Register(_, _, _, _) =>
        RunConcat(cfg, t.credits, [], EventsOf(cfg, terms, next, moves[1..]));
      case Tick(fitness, now) =>
        RunConcat(cfg, t.credits, TickEvents(terms, t.pending, t.round + 1, fitness, now), EventsOf(cfg, terms, next, moves[1..]));
      case Other(event) =>
        RunConcat(cfg, t.credits, [event], EventsOf(cfg, terms, next, moves[1..]));
        assert [event][1..] == [];
    }
  }

  /** Conservation and the refund bound, for any interleaving of votes, deposits, spending, registration and ticks. */
  lemma PlayKeepsBooks(cfg: Config, terms: Terms, t: Tracker, moves: seq<Move>, voter: string, proposal: string)
    requires Balanced(t.credits)
    ensures Balanced(Play(cfg, terms, t, moves).credits)
    ensures var events := EventsOf(cfg, terms, t, moves);
      SettleCount(cfg, t.credits, events, voter, proposal) + Bit(Staked(Play(cfg, terms, t, moves).credits, voter, proposal))
      <= ChargeCount(cfg, t.credits, events, voter, proposal) + Bit(Staked(t.credits, voter, proposal))
  {
    var events := EventsOf(cfg, terms, t, moves);
    PlayIsRun(cfg, terms, t, moves);
    RunsKeepBalance(cfg, t.credits, events);
    RefundsWithinDeposits(cfg, t.credits, events, voter, proposal);
  }

  /** How often a list of operations settles a voter's stake on a proposal. */
  function SettleEvents(events: seq<Event>, voter: string, proposal: string): nat {
    if events == [] then 0
    else
      Bit(events[0].op.SettleVote? && events[0].op.peer == voter && events[0].op.proposal == proposal)
        + SettleEvents(events[1..], voter, proposal)
  }

  lemma {:induction false} SettleEventsConcat(a: seq<Event>, b: seq<Event>, voter: string, proposal: string)
    ensures SettleEvents(a + b, voter, proposal) == SettleEvents(a, voter, proposal) + SettleEvents(b, voter, proposal)
  {
    if a == [] {
      assert a + b == b;
    } else {
      assert (a + b)[0] == a[0] && (a + b)[1..] == a[1..] + b;
      SettleEventsConcat(a[1..], b, voter, proposal);
    }
  }

  lemma SettleEventSingle(e: Event, voter: string, proposal: string)
    ensures SettleEvents([e], voter, proposal) == Bit(e.op.SettleVote? && e.op.peer == voter && e.op.proposal == proposal)
  {
    assert [e][1..] == [];
  }

  predicate TookSides(ballot: Ballot, voter: string) {
    exists i :: 0 <= i < |ballot| && ballot[i].voter == voter && ballot[i].decision != ABSTAIN
  }

  lemma SidesInTail(ballot: Ballot, voter: string)
    requires ballot != [] && OneEach(ballot)
    ensures TookSides(ballot, voter) <==>
      if ballot[0].voter == voter then ballot[0].decision != ABSTAIN else TookSides(ballot[1..], voter)
    ensures ballot[0].voter == voter ==> !TookSides(ballot[1..], voter)
  {
    if TookSides(ballot, voter) && ballot[0].voter != voter {
      var i :| 0 <= i < |ballot| && ballot[i].voter == voter && ballot[i].decision != ABSTAIN;
      assert ballot[1..][i - 1] == ballot[i];
    }
    if TookSides(ballot[1..], voter) {
      var i :| 0 <= i < |ballot[1..]| && ballot[1..][i].voter == voter && ballot[1..][i].decision != ABSTAIN;
      assert ballot[i + 1] == ballot[1..][i];
    }
  }

  lemma {:induction false} BallotSettlesOnce(proposalId: string, ballot: Ballot, good: bool, now: real, voter: string)
    requires OneEach(ballot)
    ensures SettleEvents(BallotEvents(proposalId, ballot, good, now), voter, proposalId) == Bit(TookSides(ballot, voter))
  {
    if ballot == [] {
    } else {
      var v, rest := ballot[0], ballot[1..];
      BallotSettlesOnce(proposalId, rest, good, now, voter);
      SidesInTail(ballot, voter);
      var first := if v.decision == ABSTAIN then [] else [Event(SettleVote(v.voter, proposalId, Accurate(v.decision, good)), now)];
      SettleEventsConcat(first, BallotEvents(proposalId, rest, good, now), voter, proposalId);
      if v.decision != ABSTAIN {
        SettleEventSingle(first[0], voter, proposalId);
      }
    }
  }

  /** Paying out an outcome settles every voter who took sides once, and nobody else. */
  lemma OutcomeSettlesOnce(terms: Terms, o: Outcome, fitness: real, now: real, voter: string)
    requires OneEach(o.ballot)
    ensures SettleEvents(OutcomeEvents(terms, o, fitness, now), voter, o.proposalId) == Bit(TookSides(o.ballot, voter))
  {
    var good := fitness >= o.baseline;
    BallotSettlesOnce(o.proposalId, o.ballot, good, now, voter);
    SettleEventsConcat(RewardEvents(terms, o.proposerId, good, now), BallotEvents(o.proposalId, o.ballot, good, now),
                       voter, o.proposalId);
    SettleEventSingle(Event(RewardProposer(o.proposerId, terms.reward), now), voter, o.proposalId);
  }

  // --- Rewards for one proposal, or for one proposer ---

  /** What rewards are counted for. */
  datatype Key = OfProposal(id: string) | OfProposer(peer: string)

  predicate Has(key: Key, proposalId: string, proposerId: string) {
    match key
    case OfProposal(id) => proposalId == id
    case OfProposer(peer) => proposerId == peer
  }

  predicate Rewards(terms: Terms, o: Outcome, round: nat, fitness: real, key: Key) {
    Due(terms, o, round) && Has(key, o.proposalId, o.proposerId) && fitness >= o.baseline
  }

  /** How many rewards one tick pays. */
  function TickRewards(terms: Terms, pending: seq<Outcome>, round: nat, fitness: nat -> real, key: Key): nat {
    if pending == [] then 0
    else
      var n := |pending| - 1;
      TickRewards(terms, pending[..n], round, fitness, key) + Bit(Rewards(terms, pending[n], round, fitness(n), key))
  }

  /** The tracker without its ledger, which no settlement depends on. */
  datatype Agenda = Agenda(pending: seq<Outcome>, round: nat)

  function AgendaOf(t: Tracker): Agenda {
    Agenda(t.pending, t.round)
  }

  function Onward(terms: Terms, a: Agenda, m: Move): Agenda {
    match m
    case Register(proposalId, proposerId, ballot, baseline) =>
      a.(pending := a.pending + [Outcome(proposalId, proposerId, ballot, baseline, a.round, false)])
    case Tick(_, _) => Agenda(AllSettled(terms, a.pending, a.round + 1), a.round + 1)
    case Other(_) => a
  }

  function OnwardAll(terms: Terms, a: Agenda, moves: seq<Move>): Agenda
    decreases |moves|
  {
    if moves == [] then a else OnwardAll(terms, Onward(terms, a, moves[0]), moves[1..])
  }

  /** A run of the tracker, as far as its agenda goes. */
  lemma {:induction false} PlayIsOnward(cfg: Config, terms: Terms, t: Tracker, moves: seq<Move>)
    ensures AgendaOf(Play(cfg, terms, t, moves)) == OnwardAll(terms, AgendaOf(t), moves)
    decreases |moves|
  {
    if moves != [] {
      PlayIsOnward(cfg, terms, Advance(cfg, terms, t, moves[0]), moves[1..]);
    }
  }

  function RewardCount(terms: Terms, t: Agenda, moves: seq<Move>, key: Key): nat
    decreases |moves|
  {
    if moves == [] then 0
    else
      (if moves[0].Tick? then TickRewards(terms, t.pending, t.round + 1, moves[0].fitness, key) else 0)
        + RewardCount(terms, Onward(terms, t, moves[0]), moves[1..], key)
  }

  /** How many registered outcomes are not yet settled. */
  function Unsettled(pending: seq<Outcome>, key: Key): nat {
    if pending == [] then 0
    else
      var o := pending[|pending| - 1];
      Unsettled(pending[..|pending| - 1], key) + Bit(!o.settled && Has(key, o.proposalId, o.proposerId))
  }

  function Registrations(moves: seq<Move>, key: Key): nat {
    if moves == [] then 0
    else Bit(moves[0].Register? && Has(key, moves[0].proposalId, moves[0].proposerId)) + Registrations(moves[1..], key)
  }

  lemma {:induction false} TickRewardsUnsettled(terms: Terms, pending: seq<Outcome>, round: nat, fitness: nat -> real, key: Key)
    ensures TickRewards(terms, pending, round, fitness, key) + Unsettled(AllSettled(terms, pending, round), key) <= Unsettled(pending, key)
    ensures (forall i | 0 <= i < |pending| :: fitness(i) >= pending[i].baseline) ==>
      TickRewards(terms, pending, round, fitness, key) + Unsettled(AllSettled(terms, pending, round), key) == Unsettled(pending, key)
  {
    if pending != [] {
      var n := |pending| - 1;
      TickRewardsUnsettled(terms, pending[..n], round, fitness, key);
      var after := AllSettled(terms, pending, round);
      assert after[..n] == AllSettled(terms, pending[..n], round);
    }
  }

  lemma UnsettledAppend(pending: seq<Outcome>, o: Outcome, key: Key)
    ensures Unsettled(pending + [o], key) == Unsettled(pending, key) + Bit(!o.settled && Has(key, o.proposalId, o.proposerId))
  {
    assert (pending + [o])[..|pending|] == pending;
  }

  /** A proposal, or a proposer, is rewarded at most as often as registered. */
  lemma {:induction false} RewardsWithinRegistrations(terms: Terms, t: Agenda, moves: seq<Move>, key: Key)
    ensures RewardCount(terms, t, moves, key) + Unsettled(OnwardAll(terms, t, moves).pending, key)
         <= Unsettled(t.pending, key) + Registrations(moves, key)
    decreases |moves|
  {
    if moves != [] {
      var next := Onward(terms, t, moves[0]);
      RewardsWithinRegistrations(terms, next, moves[1..], key);
      match moves[0]
      case Register(proposalId, proposerId, ballot, baseline) =>
        UnsettledAppend(t.pending, Outcome(proposalId, proposerId, ballot, baseline, t.round, false), key);
      case Tick(fitness, now) => TickRewardsUnsettled(terms, t.pending, t.round + 1, fitness, key);
      case Other(_) =>
    }
  }

  function Ticks(k: nat, fitness: nat -> real, now: real): (r: seq<Move>)
    ensures |r| == k
  {
    if k == 0 then [] else [Tick(fitness, now)] + Ticks(k - 1, fitness, now)
  }

  /** Every outcome was accepted by now and would be an improvement. */
  ghost predicate AllGood(t: Agenda, fitness: nat -> real) {
    forall i | 0 <= i < |t.pending| :: t.pending[i].acceptedAt <= t.round && fitness(i) >= t.pending[i].baseline
  }

  lemma TickFirst(terms: Terms, t: Agenda, tick: Move, rest: seq<Move>, key: Key)
    requires tick.Tick?
    ensures OnwardAll(terms, t, [tick] + rest) == OnwardAll(terms, Onward(terms, t, tick), rest)
    ensures RewardCount(terms, t, [tick] + rest, key) ==
      TickRewards(terms, t.pending, t.round + 1, tick.fitness, key) + RewardCount(terms, Onward(terms, t, tick), rest, key)
  {
    assert ([tick] + rest)[1..] == rest;
  }

  lemma GoodTick(terms: Terms, t: Agenda, fitness: nat -> real, now: real, key: Key)
    requires AllGood(t, fitness)
    ensures AllGood(Onward(terms, t, Tick(fitness, now)), fitness)
    ensures TickRewards(terms, t.pending, t.round + 1, fitness, key)
          + Unsettled(Onward(terms, t, Tick(fitness, now)).pending, key) == Unsettled(t.pending, key)
  {
    TickRewardsUnsettled(terms, t.pending, t.round + 1, fitness, key);
  }

  lemma {:induction false} GoodTicksPay(terms: Terms, t: Agenda, k: nat, fitness: nat -> real, now: real, key: Key)
    requires AllGood(t, fitness)
    ensures RewardCount(terms, t, Ticks(k, fitness, now), key) + Unsettled(OnwardAll(terms, t, Ticks(k, fitness, now)).pending, key)
         == Unsettled(t.pending, key)
    decreases k
  {
    if k > 0 {
      GoodTick(terms, t, fitness, now, key);
      TickFirst(terms, t, Tick(fitness, now), Ticks(k - 1, fitness, now), key);
      GoodTicksPay(terms, Onward(terms, t, Tick(fitness, now)), k - 1, fitness, now, key);
    }
  }

  /** What has become of outcome `o` once its round has come. */
  predicate IsDealtWith(terms: Terms, after: Agenda, i: nat, o: Outcome) {
    i < |after.pending| && (after.pending[i].settled || after.round - o.acceptedAt < terms.roundsToSettle)
  }

  lemma {:induction false} TicksSettle(terms: Terms, t: Agenda, k: nat, fitness: nat -> real, now: real, i: nat)
    requires k > 0 && i < |t.pending|
    ensures var after := OnwardAll(terms, t, Ticks(k, fitness, now));
      after.round == t.round + k && |after.pending| == |t.pending| && IsDealtWith(terms, after, i, t.pending[i])
    decreases k
  {
    var next := Onward(terms, t, Tick(fitness, now));
    assert Ticks(k, fitness, now)[1..] == Ticks(k - 1, fitness, now);
    if k == 1 {
      assert OnwardAll(terms, next, []) == next;
    } else {
      TicksSettle(terms, next, k - 1, fitness, now, i);
    }
  }

  lemma {:induction false} AllSettledNoneLeft(pending: seq<Outcome>, key: Key)
    requires forall i | 0 <= i < |pending| :: pending[i].settled
    ensures Unsettled(pending, key) == 0
  {
    if pending != [] {
      AllSettledNoneLeft(pending[..|pending| - 1], key);
    }
  }

  function HighestBaseline(pending: seq<Outcome>): (r: real)
    ensures forall i | 0 <= i < |pending| :: pending[i].baseline <= r
  {
    if pending == [] then 0.0
    else
      var rest := HighestBaseline(pending[1..]);
      assert forall i | 0 < i < |pending| :: pending[i] == pending[1..][i - 1];
      if pending[0].baseline > rest then pending[0].baseline else rest
  }

  lemma {:induction false} TicksRegisterNothing(k: nat, fitness: nat -> real, now: real, key: Key)
    ensures Registrations(Ticks(k, fitness, now), key) == 0
  {
    if k > 0 {
      TicksRegisterNothing(k - 1, fitness, now, key);
      assert Ticks(k, fitness, now)[1..] == Ticks(k - 1, fitness, now);
    }
  }

  /** Rounds in which everything registered by now is settled. */
  function Patience(terms: Terms): nat {
    if terms.roundsToSettle < 1 then 1 else terms.roundsToSettle
  }

  lemma {:induction false} EmptyStaysEmpty(terms: Terms, t: Agenda, k: nat, fitness: nat -> real, now: real)
    requires t.pending == []
    ensures OnwardAll(terms, t, Ticks(k, fitness, now)).pending == []
    decreases k
  {
    if k > 0 {
      assert Ticks(k, fitness, now)[1..] == Ticks(k - 1, fitness, now);
      EmptyStaysEmpty(terms, Onward(terms, t, Tick(fitness, now)), k - 1, fitness, now);
    }
  }

  /** A fitness no baseline exceeds. */
  function AtBest(t: Agenda): nat -> real {
    var high := HighestBaseline(t.pending);
    (i: nat) => high
  }

  /** And as often, if only fitness stays high for long enough. */
  lemma EveryRegistrationPays(terms: Terms, t: Agenda, key: Key) returns (moves: seq<Move>)
    requires forall i | 0 <= i < |t.pending| :: t.pending[i].acceptedAt <= t.round
    ensures moves == Ticks(|moves|, AtBest(t), 0.0)
    ensures Registrations(moves, key) == 0 && RewardCount(terms, t, moves, key) == Unsettled(t.pending, key)
  {
    var fitness := AtBest(t);
    moves := Ticks(Patience(terms), fitness, 0.0);
    TicksRegisterNothing(Patience(terms), fitness, 0.0, key);
    GoodTicksPay(terms, t, Patience(terms), fitness, 0.0, key);
    ghost var after := OnwardAll(terms, t, moves);
    if t.pending == [] {
      EmptyStaysEmpty(terms, t, Patience(terms), fitness, 0.0);
    } else {
      TicksSettle(terms, t, Patience(terms), fitness, 0.0, 0);
    }
    forall i | 0 <= i < |after.pending| ensures after.pending[i].settled {
      TicksSettle(terms, t, Patience(terms), fitness, 0.0, i);
    }
    AllSettledNoneLeft(after.pending, key);
  }

  /** From here on, without another registration, there is at most one reward. */
  ghost predicate AtMostOneReward(terms: Terms, t: Agenda, key: Key) {
    forall moves: seq<Move> | Registrations(moves, key) == 0 :: RewardCount(terms, t, moves, key) <= 1
  }

  /** There is at most one reward if and only if no more than one outcome awaits settlement. */
  lemma OneRewardIff(terms: Terms, t: Agenda, key: Key)
    requires forall i | 0 <= i < |t.pending| :: t.pending[i].acceptedAt <= t.round
    ensures AtMostOneReward(terms, t, key) <==> Unsettled(t.pending, key) <= 1
  {
    forall moves: seq<Move> | Registrations(moves, key) == 0
      ensures RewardCount(terms, t, moves, key) <= Unsettled(t.pending, key)
    {
      RewardsWithinRegistrations(terms, t, moves, key);
    }
    var moves := EveryRegistrationPays(terms, t, key);
    assert Registrations(moves, key) == 0;
  }

  // --- The rewards the ledger runs ---

  predicate IsRewardOf(e: Event, peer: string) {
    e.op.RewardProposer? && e.op.peer == peer
  }

  /** How many operations reward the proposer. */
  function RewardOps(events: seq<Event>, peer: string): nat {
    if events == [] then 0 else Bit(IsRewardOf(events[0], peer)) + RewardOps(events[1..], peer)
  }

  lemma {:induction false} RewardOpsConcat(a: seq<Event>, b: seq<Event>, peer: string)
    ensures RewardOps(a + b, peer) == RewardOps(a, peer) + RewardOps(b, peer)
  {
    if a == [] {
      assert a + b == b;
    } else {
      assert (a + b)[0] == a[0] && (a + b)[1..] == a[1..] + b;
      RewardOpsConcat(a[1..], b, peer);
    }
  }

  lemma RewardOpSingle(e: Event, peer: string)
    ensures RewardOps([e], peer) == Bit(IsRewardOf(e, peer))
  {
    assert [e][1..] == [];
  }

  lemma {:induction false} BallotRewardsNobody(proposalId: string, ballot: Ballot, good: bool, now: real, peer: string)
    ensures RewardOps(BallotEvents(proposalId, ballot, good, now), peer) == 0
  {
    if ballot != [] {
      var v, rest := ballot[0], BallotEvents(proposalId, ballot[1..], good, now);
      BallotRewardsNobody(proposalId, ballot[1..], good, now, peer);
      var first := if v.decision == ABSTAIN then [] else [Event(SettleVote(v.voter, proposalId, Accurate(v.decision, good)), now)];
      RewardOpsConcat(first, rest, peer);
      if v.decision != ABSTAIN { RewardOpSingle(first[0], peer); }
    }
  }

  lemma OutcomeRewardOps(terms: Terms, o: Outcome, fitness: real, now: real, peer: string)
    ensures RewardOps(OutcomeEvents(terms, o, fitness, now), peer) == Bit(fitness >= o.baseline && o.proposerId == peer)
  {
    var good := fitness >= o.baseline;
    BallotRewardsNobody(o.proposalId, o.ballot, good, now, peer);
    RewardOpsConcat(RewardEvents(terms, o.proposerId, good, now), BallotEvents(o.proposalId, o.ballot, good, now), peer);
    RewardOpSingle(Event(RewardProposer(o.proposerId, terms.reward), now), peer);
  }

  lemma {:induction false} TickRewardOps(terms: Terms, pending: seq<Outcome>, round: nat, fitness: nat -> real, now: real, peer: string)
    ensures RewardOps(TickEvents(terms, pending, round, fitness, now), peer)
         == TickRewards(terms, pending, round, fitness, OfProposer(peer))
  {
    if pending != [] {
      var n := |pending| - 1;
      TickRewardOps(terms, pending[..n], round, fitness, now, peer);
      OutcomeRewardOps(terms, pending[n], fitness(n), now, peer);
      RewardOpsConcat(TickEvents(terms, pending[..n], round, fitness, now),
                      if Due(terms, pending[n], round) then OutcomeEvents(terms, pending[n], fitness(n), now) else [], peer);
    }
  }

  /** Rewards that reach the ledger past the tracker. */
  function OtherRewards(moves: seq<Move>, peer: string): nat {
    if moves == [] then 0
    else Bit(moves[0].Other? && IsRewardOf(moves[0].event, peer)) + OtherRewards(moves[1..], peer)
  }

  lemma MoveRewardOps(terms: Terms, t: Tracker, m: Move, peer: string)
    ensures RewardOps(MoveEvents(terms, t, m), peer) == Bit(m.Other? && IsRewardOf(m.event, peer))
      + if m.Tick? then TickRewards(terms, t.pending, t.round + 1, m.fitness, OfProposer(peer)) else 0
  {
    match m
    case Register(_, _, _, _) =>
    case Tick(fitness, now) => TickRewardOps(terms, t.pending, t.round + 1, fitness, now, peer);
    case Other(event) => RewardOpSingle(event, peer);
  }

  lemma AgendaStep(cfg: Config, terms: Terms, t: Tracker, m: Move)
    ensures AgendaOf(Advance(cfg, terms, t, m)) == Onward(terms, AgendaOf(t), m)
  {
  }

  lemma EventsStep(cfg: Config, terms: Terms, t: Tracker, moves: seq<Move>, peer: string)
    requires moves != []
    ensures RewardOps(EventsOf(cfg, terms, t, moves), peer)
         == RewardOps(MoveEvents(terms, t, moves[0]), peer)
          + RewardOps(EventsOf(cfg, terms, Advance(cfg, terms, t, moves[0]), moves[1..]), peer)
  {
    RewardOpsConcat(MoveEvents(terms, t, moves[0]), EventsOf(cfg, terms, Advance(cfg, terms, t, moves[0]), moves[1..]), peer);
  }

  /** The reward operations that the ledger runs over any run of the tracker are the rewards counted on its agenda, and those
      that come from elsewhere. */
  lemma {:induction false} RewardOpsOfRun(cfg: Config, terms: Terms, t: Tracker, moves: seq<Move>, peer: string)
    ensures RewardOps(EventsOf(cfg, terms, t, moves), peer)
         == RewardCount(terms, AgendaOf(t), moves, OfProposer(peer)) + OtherRewards(moves, peer)
    decreases |moves|
  {
    if moves != [] {
      RewardOpsOfRun(cfg, terms, Advance(cfg, terms, t, moves[0]), moves[1..], peer);
      AgendaStep(cfg, terms, t, moves[0]);
      EventsStep(cfg, terms, t, moves, peer);
      MoveRewardOps(terms, t, moves[0], peer);
    }
  }

  /** Over any run of the tracker the ledger rewards a proposer at most as often as the run registers an outcome of theirs. */
  lemma RewardOpsWithinRegistrations(cfg: Config, terms: Terms, t: Tracker, moves: seq<Move>, peer: string)
    ensures RewardOps(EventsOf(cfg, terms, t, moves), peer) + Unsettled(Play(cfg, terms, t, moves).pending, OfProposer(peer))
         <= Unsettled(t.pending, OfProposer(peer)) + Registrations(moves, OfProposer(peer)) + OtherRewards(moves, peer)
  {
    RewardOpsOfRun(cfg, terms, t, moves, peer);
    RewardsWithinRegistrations(terms, AgendaOf(t), moves, OfProposer(peer));
    PlayIsOnward(cfg, terms, t, moves);
  }

  lemma {:induction false} TicksRewardNothingElse(k: nat, fitness: nat -> real, now: real, peer: string)
    ensures OtherRewards(Ticks(k, fitness, now), peer) == 0
  {
    if k > 0 {
      TicksRewardNothingElse(k - 1, fitness, now, peer);
      assert Ticks(k, fitness, now)[1..] == Ticks(k - 1, fitness, now);
    }
  }

  /** From here on the ledger rewards the proposer at most once, unless something new is registered or paid from elsewhere. */
  ghost predicate AtMostOneRewardOp(cfg: Config, terms: Terms, t: Tracker, peer: string) {
    forall moves: seq<Move> | Registrations(moves, OfProposer(peer)) == 0 && OtherRewards(moves, peer) == 0 ::
      RewardOps(EventsOf(cfg, terms, t, moves), peer) <= 1
  }

  lemma EveryRegistrationRewarded(cfg: Config, terms: Terms, t: Tracker, peer: string) returns (moves: seq<Move>)
    requires forall i | 0 <= i < |t.pending| :: t.pending[i].acceptedAt <= t.round
    ensures Registrations(moves, OfProposer(peer)) == 0 && OtherRewards(moves, peer) == 0
    ensures RewardOps(EventsOf(cfg, terms, t, moves), peer) == Unsettled(t.pending, OfProposer(peer))
  {
    moves := EveryRegistrationPays(terms, AgendaOf(t), OfProposer(peer));
    TicksRewardNothingElse(|moves|, AtBest(AgendaOf(t)), 0.0, peer);
    RewardOpsOfRun(cfg, terms, t, moves, peer);
  }

  /** On the ledger, over all runs of the tracker: a proposer is rewarded at most once if and only if no more than one outcome
      of theirs awaits settlement. */
  lemma OneRewardOpIff(cfg: Config, terms: Terms, t: Tracker, peer: string)
    requires forall i | 0 <= i < |t.pending| :: t.pending[i].acceptedAt <= t.round
    ensures AtMostOneRewardOp(cfg, terms, t, peer) <==> Unsettled(t.pending, OfProposer(peer)) <= 1
  {
    forall moves: seq<Move> | Registrations(moves, OfProposer(peer)) == 0 && OtherRewards(moves, peer) == 0
      ensures RewardOps(EventsOf(cfg, terms, t, moves), peer) <= Unsettled(t.pending, OfProposer(peer))
    {
      RewardOpsWithinRegistrations(cfg, terms, t, moves, peer);
    }
    var moves := EveryRegistrationRewarded(cfg, terms, t, peer);
    assert Registrations(moves, OfProposer(peer)) == 0;
  }

  lemma {:induction false} SoleProposal(pending: seq<Outcome>, id: string, peer: string)
    requires forall i | 0 <= i < |pending| :: pending[i].proposalId == id <==> pending[i].proposerId == peer
    ensures Unsettled(pending, OfProposal(id)) == Unsettled(pending, OfProposer(peer))
  {
    if pending != [] {
      SoleProposal(pending[..|pending| - 1], id, peer);
    }
  }

  /** For a proposer with a single proposal: the ledger rewards it at most once if and only if it is not awaiting settlement
      more than once. */
  lemma OneProposalRewardIff(cfg: Config, terms: Terms, t: Tracker, id: string, peer: string)
    requires forall i | 0 <= i < |t.pending| :: t.pending[i].acceptedAt <= t.round
    requires forall i | 0 <= i < |t.pending| :: t.pending[i].proposalId == id <==> t.pending[i].proposerId == peer
    ensures AtMostOneRewardOp(cfg, terms, t, peer) <==> Unsettled(t.pending, OfProposal(id)) <= 1
  {
    OneRewardOpIff(cfg, terms, t, peer);
    SoleProposal(t.pending, id, peer);
  }

  // --- The program ---

  class PendingOutcome {
    const proposalId: string
    const proposerId: string
    const ballot: Ballot
    const baseline: real
    const acceptedAt: nat
    var settled: bool

    function Value(): Outcome
      reads this
    {
      Outcome(proposalId, proposerId, ballot, baseline, acceptedAt, settled)
    }

    constructor (proposalId: string, proposerId: string, ballot: Ballot, baseline: real, acceptedAt: nat)
      ensures Value() == Outcome(proposalId, proposerId, ballot, baseline, acceptedAt, false)
    {
      this.proposalId := proposalId;
      this.proposerId := proposerId;
      this.ballot := ballot;
      this.baseline := baseline;
      this.acceptedAt := acceptedAt;
      this.settled := false;
    }
  }

  function Values(pending: seq<PendingOutcome>): (r: seq<Outcome>)
    reads pending
    ensures |r| == |pending|
    ensures forall i | 0 <= i < |pending| :: r[i] == pending[i].Value()
  {
    if pending == [] then [] else [pending[0].Value()] + Values(pending[1..])
  }

  predicate NoAliases(pending: seq<PendingOutcome>) {
    forall i, j | 0 <= i < j < |pending| :: pending[i] != pending[j]
  }

  /** The first `i` outcomes considered, the others as they were. */
  ghost function SettledUpTo(terms: Terms, pending: seq<Outcome>, round: nat, i: nat): (r: seq<Outcome>)
    requires i <= |pending|
    ensures |r| == |pending|
    ensures forall j | 0 <= j < |pending| :: r[j] == if j < i then Settled(terms, pending[j], round) else pending[j]
  {
    AllSettled(terms, pending[..i], round) + pending[i..]
  }

  lemma NoneAndAllSettled(cfg: Config, terms: Terms, s: State, pending: seq<Outcome>, round: nat, fitness: nat -> real, now: real)
    ensures SettledUpTo(terms, pending, round, 0) == pending
    ensures SettledUpTo(terms, pending, round, |pending|) == AllSettled(terms, pending, round)
    ensures s == Credits.Run(cfg, s, TickEvents(terms, pending[..0], round, fitness, now))
    ensures pending[..|pending|] == pending
  {
  }

  lemma SettledStep(terms: Terms, pending: seq<Outcome>, round: nat, i: nat)
    requires i < |pending|
    ensures SettledUpTo(terms, pending, round, i)[i] == pending[i]
    ensures SettledUpTo(terms, pending, round, i + 1)
         == SettledUpTo(terms, pending, round, i)[i := Settled(terms, pending[i], round)]
  {
  }

  lemma BallotStep(cfg: Config, s: State, proposalId: string, ballot: Ballot, good: bool, now: real)
    requires ballot != []
    ensures var v := ballot[0];
      Credits.Run(cfg, s, BallotEvents(proposalId, ballot, good, now)) ==
      Credits.Run(cfg, if v.decision == ABSTAIN then s
                       else AfterSettle(cfg, s, v.voter, proposalId, Accurate(v.decision, good), now),
                  BallotEvents(proposalId, ballot[1..], good, now))
  {
    var v, rest := ballot[0], BallotEvents(proposalId, ballot[1..], good, now);
    if v.decision == ABSTAIN {
      assert [] + rest == rest;
    } else {
      var e := Event(SettleVote(v.voter, proposalId, Accurate(v.decision, good)), now);
      assert ([e] + rest)[0] == e && ([e] + rest)[1..] == rest;
    }
  }

  lemma TickStep(cfg: Config, terms: Terms, s: State, pending: seq<Outcome>, i: nat, round: nat, fitness: nat -> real, now: real)
    requires i < |pending|
    ensures Credits.Run(cfg, s, TickEvents(terms, pending[..i + 1], round, fitness, now)) ==
      PaidOut(cfg, terms, Credits.Run(cfg, s, TickEvents(terms, pending[..i], round, fitness, now)), pending[i], round, fitness(i), now)
  {
    assert pending[..i + 1][..i] == pending[..i];
    var before := TickEvents(terms, pending[..i], round, fitness, now);
    RunConcat(cfg, s, before, if Due(terms, pending[i], round) then OutcomeEvents(terms, pending[i], fitness(i), now) else []);
  }

  class ProposalOutcomeTracker {
    const ledger: CreditLedger.Ledger
    const terms: Terms
    var pending: seq<PendingOutcome>
    var round: nat

    ghost predicate Valid()
      reads this, ledger
    {
      ledger.Valid() && NoAliases(pending)
    }

    constructor (ledger: CreditLedger.Ledger, terms: Terms)
      requires ledger.Valid()
      ensures Valid() && this.ledger == ledger && this.terms == terms
      ensures pending == [] && round == 0
    {
      this.ledger := ledger;
      this.terms := terms;
      this.pending := [];
      this.round := 0;
    }

    method Push(outcome: PendingOutcome)
      requires Valid() && outcome !in pending
      modifies this`pending
      ensures Valid() && ledger.Contents() == old(ledger.Contents())
      ensures Values(pending) == old(Values(pending)) + [outcome.Value()]
    {
      pending := pending + [outcome];
      assert Values(pending) == old(Values(pending)) + [outcome.Value()];
    }

    method RegisterAccepted(proposalId: string, proposerId: string, ballot: Ballot, baseline: real)
      requires Valid()
      modifies this
      ensures Valid()
      ensures round == old(round) && ledger.Contents() == old(ledger.Contents())
      ensures Values(pending) == old(Values(pending)) + [Outcome(proposalId, proposerId, ballot, baseline, round, false)]
    {
      var outcome := new PendingOutcome(proposalId, proposerId, ballot, baseline, round);
      Push(outcome);
    }

    method SettleBallot(proposalId: string, ballot: Ballot, good: bool, now: real)
      requires ledger.Valid()
      modifies ledger, ledger.accounts.Values
      ensures ledger.Valid() && ledger.Grown()
      ensures ledger.Contents() == Credits.Run(ledger.cfg, old(ledger.Contents()), BallotEvents(proposalId, ballot, good, now))
    {
      ghost var goal := Credits.Run(ledger.cfg, ledger.Contents(), BallotEvents(proposalId, ballot, good, now));
      for i := 0 to |ballot|
        invariant ledger.Valid() && ledger.Grown()
        invariant Credits.Run(ledger.cfg, ledger.Contents(), BallotEvents(proposalId, ballot[i..], good, now)) == goal
      {
        BallotStep(ledger.cfg, ledger.Contents(), proposalId, ballot[i..], good, now);
        assert ballot[i..][1..] == ballot[i + 1..];
        var v := ballot[i];
        if v.decision != ABSTAIN {
          var refund := ledger.SettleVote(v.voter, proposalId, Accurate(v.decision, good), now);
        }
      }
      assert ballot[|ballot|..] == [];
    }

    method RewardIfGood(proposer: string, good: bool, now: real)
      requires ledger.Valid()
      modifies ledger, ledger.accounts.Values
      ensures ledger.Valid() && ledger.Grown()
      ensures ledger.Contents() == Credits.Run(ledger.cfg, old(ledger.Contents()), RewardEvents(terms, proposer, good, now))
    {
      if good {
        assert RewardEvents(terms, proposer, good, now)[1..] == [];
        ledger.RewardProposer(proposer, terms.reward, now);
      }
    }

    method PayOut(outcome: PendingOutcome, fitness: real, now: real)
      requires ledger.Valid()
      modifies ledger, ledger.accounts.Values
      ensures ledger.Valid() && ledger.Grown()
      ensures ledger.Contents()
           == Credits.Run(ledger.cfg, old(ledger.Contents()), OutcomeEvents(terms, outcome.Value(), fitness, now))
    {
      var good := fitness >= outcome.baseline;
      RunConcat(ledger.cfg, ledger.Contents(), RewardEvents(terms, outcome.proposerId, good, now),
                BallotEvents(outcome.proposalId, outcome.ballot, good, now));
      RewardIfGood(outcome.proposerId, good, now);
      SettleBallot(outcome.proposalId, outcome.ballot, good, now);
    }

    method SettleOne(outcome: PendingOutcome, fitness: real, now: real)
      requires ledger.Valid()
      modifies outcome, ledger, ledger.accounts.Values
      ensures ledger.Valid() && ledger.Grown()
      ensures outcome.Value() == old(outcome.Value()).(settled := true)
      ensures ledger.Contents()
           == Credits.Run(ledger.cfg, old(ledger.Contents()), OutcomeEvents(terms, outcome.Value(), fitness, now))
    {
      outcome.settled := true;
      PayOut(outcome, fitness, now);
    }

    method SettleIfDue(outcome: PendingOutcome, fitness: real, now: real)
      requires ledger.Valid()
      modifies outcome, ledger, ledger.accounts.Values
      ensures ledger.Valid() && ledger.Grown()
      ensures outcome.Value() == Settled(terms, old(outcome.Value()), round)
      ensures ledger.Contents() == PaidOut(ledger.cfg, terms, old(ledger.Contents()), old(outcome.Value()), round, fitness, now)
    {
      if outcome.settled {
        return;
      }
      if round - outcome.acceptedAt >= terms.roundsToSettle {
        ghost var o := outcome.Value();
        SettleOne(outcome, fitness, now);
        assert OutcomeEvents(terms, o.(settled := true), fitness, now) == OutcomeEvents(terms, o, fitness, now);
      }
    }

    twostate lemma OneSettled(i: nat)
      requires i < |pending| && pending == old(pending)
      requires forall j | 0 <= j < |pending| && j != i :: pending[j].Value() == old(pending[j].Value())
      ensures Values(pending) == old(Values(pending))[i := pending[i].Value()]
    {
    }

    method SettleAt(i: nat, fitness: real, now: real)
      requires Valid() && i < |pending|
      modifies pending[i], ledger, ledger.accounts.Values
      ensures Valid() && ledger.Grown()
      ensures Values(pending) == old(Values(pending))[i := Settled(terms, old(Values(pending))[i], round)]
      ensures ledger.Contents()
           == PaidOut(ledger.cfg, terms, old(ledger.Contents()), old(Values(pending))[i], round, fitness, now)
    {
      SettleIfDue(pending[i], fitness, now);
      OneSettled(i);
    }

    /** One more outcome considered. */
    method SettleNext(i: nat, fitness: nat -> real, now: real, ghost before: seq<Outcome>, ghost start: State)
      requires Valid() && i < |pending| == |before| && Values(pending) == SettledUpTo(terms, before, round, i)
      requires ledger.Contents() == Credits.Run(ledger.cfg, start, TickEvents(terms, before[..i], round, fitness, now))
      modifies pending[i], ledger, ledger.accounts.Values
      ensures Valid() && ledger.Grown()
      ensures Values(pending) == SettledUpTo(terms, before, round, i + 1)
      ensures ledger.Contents() == Credits.Run(ledger.cfg, start, TickEvents(terms, before[..i + 1], round, fitness, now))
    {
      TickStep(ledger.cfg, terms, start, before, i, round, fitness, now);
      SettledStep(terms, before, round, i);
      SettleAt(i, fitness(i), now);
    }

    method ConsiderAll(fitness: nat -> real, now: real, ghost before: seq<Outcome>, ghost start: State)
      requires Valid() && Values(pending) == before && ledger.Contents() == start
      modifies pending, ledger, ledger.accounts.Values
      ensures Valid() && Values(pending) == SettledUpTo(terms, before, round, |before|)
      ensures ledger.Contents() == Credits.Run(ledger.cfg, start, TickEvents(terms, before[..|before|], round, fitness, now))
    {
      NoneAndAllSettled(ledger.cfg, terms, start, before, round, fitness, now);
      for i := 0 to |pending|
        invariant Valid() && ledger.Grown()
        invariant Values(pending) == SettledUpTo(terms, before, round, i)
        invariant ledger.Contents() == Credits.Run(ledger.cfg, start, TickEvents(terms, before[..i], round, fitness, now))
      {
        SettleNext(i, fitness, now, before, start);
      }
    }

    method SettleMatured(fitness: nat -> real, now: real)
      requires Valid()
      modifies pending, ledger, ledger.accounts.Values
      ensures Valid()
      ensures Values(pending) == AllSettled(terms, old(Values(pending)), round)
      ensures ledger.Contents()
           == Credits.Run(ledger.cfg, old(ledger.Contents()), TickEvents(terms, old(Values(pending)), round, fitness, now))
    {
      NoneAndAllSettled(ledger.cfg, terms, ledger.Contents(), Values(pending), round, fitness, now);
      ConsiderAll(fitness, now, Values(pending), ledger.Contents());
    }

    method CountRound()
      modifies this`round
      ensures round == old(round) + 1
      ensures Valid() <==> old(Valid())
      ensures Values(pending) == old(Values(pending)) && ledger.Contents() == old(ledger.Contents())
    {
      round := round + 1;
    }

    /** `tick_round`. */
    method TickRound(fitness: nat -> real, now: real)
      requires Valid()
      modifies this, pending, ledger, ledger.accounts.Values
      ensures Valid()
      ensures round == old(round) + 1
      ensures Values(pending) == AllSettled(terms, old(Values(pending)), round)
      ensures ledger.Contents()
           == Credits.Run(ledger.cfg, old(ledger.Contents()), TickEvents(terms, old(Values(pending)), round, fitness, now))
    {
      CountRound();
      SettleMatured(fitness, now);
    }
  }

  // --- Accepting proposals ---

  datatype Proposal<G> = Proposal(proposerId: string, newGenome: G)

  /** The part of the protocol that decides: proposals, their votes, and the genomes accepted so far. */
  class EvolutionProtocol<G> {
    const rules: Rules
    const tracker: ProposalOutcomeTracker
    var proposals: map<string, Proposal<G>>
    var votes: map<string, seq<Vote>>
    var currentGenome: G
    var history: seq<G>

    constructor (rules: Rules, tracker: ProposalOutcomeTracker, genome: G)
      ensures this.rules == rules && this.tracker == tracker && proposals == map[] && votes == map[]
      ensures currentGenome == genome && history == [genome]
    {
      this.rules := rules;
      this.tracker := tracker;
      this.proposals := map[];
      this.votes := map[];
      this.currentGenome := genome;
      this.history := [genome];
    }

    function VotesOn(id: string): seq<Vote>
      reads this
    {
      if id in votes then votes[id] else []
    }

    method ReceiveVote(id: string, vote: Vote)
      modifies this`votes
      ensures VotesOn(id) == old(VotesOn(id)) + [vote]
      ensures forall other | other != id :: VotesOn(other) == old(VotesOn(other))
    {
      votes := votes[id := VotesOn(id) + [vote]];
    }

    method Accept(id: string, ballot: Ballot, baseline: real)
      requires tracker.Valid() && id in proposals
      modifies this`currentGenome, this`history, tracker
      ensures tracker.Valid()
      ensures currentGenome == proposals[id].newGenome && history == old(history) + [proposals[id].newGenome]
      ensures tracker.round == old(tracker.round) && tracker.ledger.Contents() == old(tracker.ledger.Contents())
      ensures Values(tracker.pending) == old(Values(tracker.pending)) +
        if old(history) != []
        then [Outcome(id, proposals[id].proposerId, ballot, baseline, tracker.round, false)] else []
    {
      var measured := history != [];
      currentGenome := proposals[id].newGenome;
      history := history + [currentGenome];
      if measured {
        tracker.RegisterAccepted(id, proposals[id].proposerId, ballot, baseline);
      }
    }

    /** `tally_votes`: an accepted proposal becomes the current genome and awaits its outcome. */
    method TallyVotes(id: string, baseline: real) returns (r: Option<G>)
      requires tracker.Valid()
      modifies this`currentGenome, this`history, tracker
      ensures tracker.Valid()
      ensures var accepted := id in proposals && Accepts(rules, VotesOn(id));
        && r == (if accepted then Some(proposals[id].newGenome) else None)
        && currentGenome == (if accepted then proposals[id].newGenome else old(currentGenome))
        && history == (if accepted then old(history) + [proposals[id].newGenome] else old(history))
        && Values(tracker.pending) == old(Values(tracker.pending)) +
           if accepted && old(history) != []
           then [Outcome(id, proposals[id].proposerId, Unique(VotesOn(id)), baseline, tracker.round, false)] else []
      ensures tracker.round == old(tracker.round) && tracker.ledger.Contents() == old(tracker.ledger.Contents())
    {
      if id !in proposals {
        return None;
      }
      var accepted, ballot := Decide(rules, VotesOn(id));
      if !accepted {
        return None;
      }
      Accept(id, ballot, baseline);
      r := Some(currentGenome);
    }
  }

  /** Tallying an accepted proposal a second time accepts it again and has it await settlement twice. */
  method TallyTwice<G>(protocol: EvolutionProtocol<G>, id: string, baseline: real, laterBaseline: real)
    requires protocol.tracker.Valid() && id in protocol.proposals && protocol.history != []
    requires Accepts(protocol.rules, protocol.VotesOn(id))
    modifies protocol`currentGenome, protocol`history, protocol.tracker
    ensures |protocol.history| == old(|protocol.history|) + 2
    ensures Unsettled(Values(protocol.tracker.pending), OfProposal(id)) == Unsettled(old(Values(protocol.tracker.pending)), OfProposal(id)) + 2
  {
    ghost var before := Values(protocol.tracker.pending);
    var first := protocol.TallyVotes(id, baseline);
    ghost var between := Values(protocol.tracker.pending);
    UnsettledAppend(before, between[|before|], OfProposal(id));
    var second := protocol.TallyVotes(id, laterBaseline);
    ghost var after := Values(protocol.tracker.pending);
    UnsettledAppend(between, after[|between|], OfProposal(id));
  }
}
