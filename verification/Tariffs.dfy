/** What every request takes from an account, told from the balance and the price list alone. */
module Tariffs {
  import opened Sums
  import opened Credits
  import opened LazyDecay

  /** The balance a request finds: that of the account, made if there is none, with the decay due taken off. */
  function Found(cfg: Config, s: State, peer: string, now: real): Account {
    Touched(cfg, s, peer, now).accounts[peer]
  }

  /** Priced inference: a balance that covers the price is charged it, priority or standard and the surcharge for a long
      generation, and the free places are left alone. */
  lemma PaidInference(cfg: Config, s: State, peer: string, priority: bool, long: bool, now: real, price: real)
    requires price == (if priority then cfg.costPriority else cfg.costStandard) + if long then cfg.costLong else 0.0
    requires Found(cfg, s, peer, now).raw >= price
    ensures var (t, r) := AfterSpend(cfg, s, peer, priority, long, now);
      var a := Found(cfg, s, peer, now);
      && r == SpendResult(true, if priority then PRIORITY else CONTRIBUTOR, price, a.raw - price, 0.0)
      && peer in t.accounts && t.accounts[peer] == a.(raw := a.raw - price, spent := a.spent + price)
      && t.spent == s.spent + price
  {
  }

  /** Priority inference is never free: a balance that does not cover it is refused and left as it is. */
  lemma PriorityRefused(cfg: Config, s: State, peer: string, long: bool, now: real)
    requires Found(cfg, s, peer, now).raw < cfg.costPriority + if long then cfg.costLong else 0.0
    ensures var (t, r) := AfterSpend(cfg, s, peer, true, long, now);
      !r.allowed && r.tier == PRIORITY && peer in t.accounts && t.accounts[peer] == Found(cfg, s, peer, now) && t.spent == s.spent
  {
  }

  /** The free places taken in the current hour, which begins anew once an hour has gone by. */
  predicate IsHour(a: Account, now: real, taken: int, start: real) {
    if now - a.freeHourStart >= 3600.0 then taken == 0 && start == now else taken == a.freeRequests && start == a.freeHourStart
  }

  /** Standard inference that the balance does not cover takes a free place, if one is left, and otherwise waits for the end of
      the hour; no credits move. */
  lemma FreeInference(cfg: Config, s: State, peer: string, long: bool, now: real, taken: int, start: real)
    requires Found(cfg, s, peer, now).raw < cfg.costStandard + if long then cfg.costLong else 0.0
    requires IsHour(Found(cfg, s, peer, now), now, taken, start)
    ensures var (t, r) := AfterSpend(cfg, s, peer, false, long, now);
      var a := Found(cfg, s, peer, now);
      && r.tier == FREE && r.creditsSpent == 0.0 && (r.allowed <==> taken < cfg.freePerHour)
      && (r.allowed ==> r.waitSecs == 0.0 && r.balanceAfter == a.raw)
      && (!r.allowed ==> r.waitSecs == if start + 3600.0 > now then start + 3600.0 - now else 0.0)
      && peer in t.accounts && t.spent == s.spent
      && t.accounts[peer] == a.(freeRequests := if r.allowed then taken + 1 else taken, freeHourStart := start)
  {
  }

  /** Asking gives the answer that spending would give, balance and all, and takes nothing. */
  lemma CheckingIsFree(cfg: Config, s: State, peer: string, priority: bool, long: bool, now: real)
    ensures var (t, r) := AfterCheck(cfg, s, peer, priority, long, now);
      && r == AfterSpend(cfg, s, peer, priority, long, now).1
      && peer in t.accounts && t.accounts[peer].raw == Found(cfg, s, peer, now).raw && t.spent == s.spent
  {
  }

  // --- The bill of a whole run ---

  /** How many requests of each kind were paid for, how many of them were long, and how many deposits were taken. */
  datatype Bill = Bill(standard: nat, priority: nat, long: nat, deposits: nat)

  function Plus(a: Bill, b: Bill): Bill {
    Bill(a.standard + b.standard, a.priority + b.priority, a.long + b.long, a.deposits + b.deposits)
  }

  function Amount(cfg: Config, b: Bill): real {
    Scaled(b.standard as real, cfg.costStandard) + Scaled(b.priority as real, cfg.costPriority)
    + Scaled(b.long as real, cfg.costLong) + Scaled(b.deposits as real, cfg.voteDeposit)
  }

  const NOTHING: Bill := Bill(0, 0, 0, 0)

  /** What one operation puts on the bill of a peer: a request or a deposit that the balance covers. */
  function StepBill(cfg: Config, s: State, e: Event, peer: string): Bill {
    if e.op.peer != peer then NOTHING
    else
      var balance := Found(cfg, s, peer, e.now).raw;
      match e.op
      case SpendInference(_, true, long) =>
        if balance >= cfg.costPriority + (if long then cfg.costLong else 0.0) then Bill(0, 1, Bit(long), 0) else NOTHING
      case SpendInference(_, false, long) =>
        if balance >= cfg.costStandard + (if long then cfg.costLong else 0.0) then Bill(1, 0, Bit(long), 0) else NOTHING
      case ChargeVoteDeposit(_, _) => Bill(0, 0, 0, Bit(balance >= cfg.voteDeposit))
      case EarnVote(_, proposal) => Bill(0, 0, 0, Bit(proposal != "" && balance + cfg.earnVote >= cfg.voteDeposit))
      case _ => NOTHING
  }

  function RunBill(cfg: Config, s: State, events: seq<Event>, peer: string): Bill
    decreases |events|
  {
    if events == [] then NOTHING
    else Plus(StepBill(cfg, s, events[0], peer), RunBill(cfg, Step(cfg, s, events[0]), events[1..], peer))
  }

  lemma UnitAmounts(cfg: Config)
    ensures Amount(cfg, NOTHING) == 0.0 && Amount(cfg, Bill(0, 0, 0, 1)) == cfg.voteDeposit
    ensures Amount(cfg, Bill(1, 0, 0, 0)) == cfg.costStandard && Amount(cfg, Bill(1, 0, 1, 0)) == cfg.costStandard + cfg.costLong
    ensures Amount(cfg, Bill(0, 1, 0, 0)) == cfg.costPriority && Amount(cfg, Bill(0, 1, 1, 0)) == cfg.costPriority + cfg.costLong
  {
  }

  lemma CountsAdd(a: nat, b: nat, price: real)
    ensures Scaled((a + b) as real, price) == Scaled(a as real, price) + Scaled(b as real, price)
  {
    Distribute(price, a as real, b as real);
    assert Scaled((a + b) as real, price) == Scaled(price, a as real + b as real);
  }

  lemma AmountsAdd(cfg: Config, a: Bill, b: Bill)
    ensures Amount(cfg, Plus(a, b)) == Amount(cfg, a) + Amount(cfg, b)
  {
    CountsAdd(a.standard, b.standard, cfg.costStandard);
    CountsAdd(a.priority, b.priority, cfg.costPriority);
    CountsAdd(a.long, b.long, cfg.costLong);
    CountsAdd(a.deposits, b.deposits, cfg.voteDeposit);
  }

  lemma VotingBill(cfg: Config, s: State, e: Event, peer: string)
    requires e.op.peer == peer && (e.op.EarnVote? || e.op.ChargeVoteDeposit?)
    ensures Held(Step(cfg, s, e), peer).spent == Held(s, peer).spent + Amount(cfg, StepBill(cfg, s, e, peer))
  {
    UnitAmounts(cfg);
  }

  lemma PriorityBill(cfg: Config, s: State, e: Event, peer: string)
    requires e.op.peer == peer && e.op.SpendInference? && e.op.priority
    ensures Held(Step(cfg, s, e), peer).spent == Held(s, peer).spent + Amount(cfg, StepBill(cfg, s, e, peer))
  {
    UnitAmounts(cfg);
    var price := cfg.costPriority + if e.op.long then cfg.costLong else 0.0;
    if Found(cfg, s, peer, e.now).raw >= price {
      PaidInference(cfg, s, peer, true, e.op.long, e.now, price);
    } else {
      PriorityRefused(cfg, s, peer, e.op.long, e.now);
    }
  }

  lemma StandardBill(cfg: Config, s: State, e: Event, peer: string)
    requires e.op.peer == peer && e.op.SpendInference? && !e.op.priority
    ensures Held(Step(cfg, s, e), peer).spent == Held(s, peer).spent + Amount(cfg, StepBill(cfg, s, e, peer))
  {
    UnitAmounts(cfg);
    var price := cfg.costStandard + if e.op.long then cfg.costLong else 0.0;
    var a := Found(cfg, s, peer, e.now);
    if a.raw >= price {
      PaidInference(cfg, s, peer, false, e.op.long, e.now, price);
    } else {
      var renewed := e.now - a.freeHourStart >= 3600.0;
      FreeInference(cfg, s, peer, e.op.long, e.now, if renewed then 0 else a.freeRequests, if renewed then e.now else a.freeHourStart);
    }
  }

  lemma OtherBill(cfg: Config, s: State, e: Event, peer: string)
    requires e.op.peer != peer || !(e.op.EarnVote? || e.op.ChargeVoteDeposit? || e.op.SpendInference?)
    ensures Held(Step(cfg, s, e), peer).spent == Held(s, peer).spent && StepBill(cfg, s, e, peer) == NOTHING
  {
    if e.op.peer != peer { OthersUntouched(cfg, s, e, peer); }
  }

  /** Over any run of any operations of any peers: what an account has spent is what the list prices and the deposit come to for
      the requests and deposits its balance covered, and nothing else. */
  lemma {:induction false} SpentIsTheBill(cfg: Config, s: State, events: seq<Event>, peer: string)
    ensures Held(Run(cfg, s, events), peer).spent == Held(s, peer).spent + Amount(cfg, RunBill(cfg, s, events, peer))
    decreases |events|
  {
    UnitAmounts(cfg);
    if events != [] {
      var e := events[0];
      if e.op.peer == peer && (e.op.EarnVote? || e.op.ChargeVoteDeposit?) { VotingBill(cfg, s, e, peer); }
      else if e.op.peer == peer && e.op.SpendInference? {
        if e.op.priority { PriorityBill(cfg, s, e, peer); } else { StandardBill(cfg, s, e, peer); }
      }
      else { OtherBill(cfg, s, e, peer); }
      SpentIsTheBill(cfg, Step(cfg, s, e), events[1..], peer);
      AmountsAdd(cfg, StepBill(cfg, s, e, peer), RunBill(cfg, Step(cfg, s, e), events[1..], peer));
    }
  }

  // --- What is earned ---

  /** An account that `amount` was added to, as earned. */
  predicate IsEarned(a: Account, b: Account, amount: real) {
    b.raw == a.raw + amount && b.earned == a.earned + amount && b.spent == a.spent && b.lastDecay == a.lastDecay
  }

  /** A peer that has been connected, now and before, for as many hours as a streak takes. */
  predicate HasStreak(cfg: Config, a: Account, now: real) {
    a.connectedSince > 0.0 && (now - a.connectedSince) + a.streakSecs >= cfg.streakHours * 3600.0
  }

  lemma StreakHours(cfg: Config, a: Account, now: real)
    ensures StreakMultiplier(cfg, a, now) == if HasStreak(cfg, a, now) then cfg.streakMultiplier else 1.0
  {
    var secs := now - a.connectedSince + a.streakSecs;
    assert secs / 3600.0 >= cfg.streakHours <==> secs >= cfg.streakHours * 3600.0;
  }

  /** A training round earns the base rate, weighted between the multipliers of the worst and the best reputation, and more for a
      streak. */
  lemma RoundEarns(cfg: Config, s: State, peer: string, reputation: real, now: real, weight: real)
    requires weight == Scaled(1.0 - reputation, cfg.reputationMin) + Scaled(reputation, cfg.reputationMax)
    ensures var t := AfterRound(cfg, s, peer, reputation, now);
      var a := Found(cfg, s, peer, now);
      && peer in t.accounts && t.accounts[peer].rounds == a.rounds + 1
      && IsEarned(a, t.accounts[peer],
           Scaled(Scaled(cfg.earnTrainingRound, weight), if HasStreak(cfg, a, now) then cfg.streakMultiplier else 1.0))
  {
    assert Scaled(cfg.reputationMax - cfg.reputationMin, reputation) + cfg.reputationMin == weight;
    StreakHours(cfg, Found(cfg, s, peer, now), now);
  }

  /** Data earns by the megabyte of 1024 times 1024 bytes. */
  lemma DataEarns(cfg: Config, s: State, peer: string, bytes: nat, now: real, mb: real)
    requires Scaled(mb, 1048576.0) == bytes as real
    ensures var t := AfterData(cfg, s, peer, bytes, now);
      var a := Found(cfg, s, peer, now);
      && peer in t.accounts && t.accounts[peer].dataMb == a.dataMb + mb
      && IsEarned(a, t.accounts[peer], Scaled(mb, cfg.earnDataPerMb))
  {
    assert bytes as real / 1048576.0 == mb;
  }

  /** A vote earns its rate; a vote on a proposal then stakes the deposit, if the balance covers it, and is noted as free
      otherwise. */
  lemma VoteEarns(cfg: Config, s: State, peer: string, proposal: string, now: real)
    ensures var t := AfterVote(cfg, s, peer, proposal, now);
      var a := Found(cfg, s, peer, now);
      var stakes := proposal != "" && a.raw + cfg.earnVote >= cfg.voteDeposit;
      && peer in t.accounts && t.accounts[peer].votes == a.votes + 1
      && t.accounts[peer].earned == a.earned + cfg.earnVote
      && t.accounts[peer].raw == a.raw + cfg.earnVote - (if stakes then cfg.voteDeposit else 0.0)
      && t.accounts[peer].deposits ==
         if proposal == "" then a.deposits else a.deposits[proposal := if stakes then cfg.voteDeposit else 0.0]
  {
  }

  /** A new peer is met with the welcome bonus, once, and has done nothing yet. */
  lemma WelcomedOnce(cfg: Config, s: State, peer: string, now: real, later: real)
    ensures var t := Created(cfg, s, peer, now);
      var a := t.accounts[peer];
      && (peer !in s.accounts ==>
            && a.raw == a.earned == cfg.welcomeBonus && t.minted == s.minted + cfg.welcomeBonus
            && a.spent == 0.0 && a.decayed == 0.0 && a.rounds == 0 && a.dataMb == 0.0 && a.votes == 0 && a.deposits == map[]
            && a.streakSecs == 0.0 && a.freeRequests == 0
            && a.lastDecay == now && a.connectedSince == now && a.freeHourStart == now)
      && Created(cfg, t, peer, later) == t
  {
  }

  /** The balance found: with decay switched on, a positive half-life and a minute gone by, it is halved once for every half-life
      since the last decay; otherwise it is as it was left. */
  lemma BalanceFound(cfg: Config, s: State, peer: string, now: real)
    requires peer in s.accounts
    ensures var a, b := s.accounts[peer], Found(cfg, s, peer, now);
      if cfg.decayEnabled && cfg.halfLifeSecs > 0.0 && now >= a.lastDecay + 60.0
      then b.raw == Scaled(a.raw, cfg.halfPow((now - a.lastDecay) / cfg.halfLifeSecs)) && b.decayed == a.decayed + a.raw - b.raw
           && b == a.(raw := b.raw, decayed := b.decayed, lastDecay := now)
      else b == a
  {
  }

  /** Time connected adds up over connections: what disconnecting keeps counts from the next connection on. */
  lemma StreakAddsUp(cfg: Config, s: State, peer: string, t1: real, t2: real, t3: real, t4: real)
    requires 0.0 < t1 <= t2 <= t3 <= t4
    ensures var u := AfterConnect(cfg, AfterDisconnect(cfg, AfterConnect(cfg, s, peer, t1), peer, t2), peer, t3);
      peer in u.accounts && (HasStreak(cfg, u.accounts[peer], t4) <==>
        (t4 - t3) + (t2 - t1) + Held(Created(cfg, s, peer, t1), peer).streakSecs >= cfg.streakHours * 3600.0)
  {
  }

  /** A peer that is not connected has no streak, and being disconnected again adds nothing to one. */
  lemma NoStreakOffline(cfg: Config, s: State, peer: string, t1: real, t2: real)
    ensures var u := AfterDisconnect(cfg, s, peer, t1);
      var v := AfterDisconnect(cfg, u, peer, t2);
      && peer in u.accounts && u.accounts[peer].connectedSince == 0.0 && !HasStreak(cfg, u.accounts[peer], t2)
      && peer in v.accounts && v.accounts[peer] == u.accounts[peer]
  {
  }
}
