/** The credit ledger as the program keeps it: account objects updated in place, against the state machine. */
module CreditLedger {
  import opened Sums
  import opened Credits

  class PeerCreditAccount {
    var rawBalance: real
    var lastDecayTime: real
    var totalEarned: real
    var totalSpent: real
    var totalDecayed: real
    var roundsContributed: nat
    var dataContributedMb: real
    var votesCast: nat
    var connectedSince: real
    var uptimeStreakSecs: real
    var freeRequestsThisHour: int
    var freeHourStart: real
    var pendingVoteDeposits: map<string, real>

    function Value(): Account
      reads this
    {
      Account(rawBalance, lastDecayTime, totalEarned, totalSpent, totalDecayed, roundsContributed, dataContributedMb,
              votesCast, connectedSince, uptimeStreakSecs, freeRequestsThisHour, freeHourStart, pendingVoteDeposits)
    }

    constructor (cfg: Config, now: real)
      ensures Value() == NewAccount(cfg, now)
    {
      rawBalance, lastDecayTime, totalEarned, totalSpent, totalDecayed := cfg.welcomeBonus, now, cfg.welcomeBonus, 0.0, 0.0;
      roundsContributed, dataContributedMb, votesCast := 0, 0.0, 0;
      connectedSince, uptimeStreakSecs := now, 0.0;
      freeRequestsThisHour, freeHourStart := 0, now;
      pendingVoteDeposits := map[];
    }

    method EarnCredits(amount: real)
      modifies this
      ensures Value() == Earn(old(Value()), amount)
    {
      rawBalance := rawBalance + amount;
      totalEarned := totalEarned + amount;
    }

    method SpendCredits(amount: real)
      modifies this
      ensures Value() == Spend(old(Value()), amount)
    {
      rawBalance := rawBalance - amount;
      totalSpent := totalSpent + amount;
    }

    method ApplyDecay(cfg: Config, now: real) returns (lost: real)
      modifies this
      ensures Value() == Decay(cfg, old(Value()), now) && lost == Loss(cfg, old(Value()), now)
    {
      if !cfg.decayEnabled || cfg.halfLifeSecs <= 0.0 {
        return 0.0;
      }
      var elapsed := now - lastDecayTime;
      if elapsed < 60.0 {
        return 0.0;
      }
      var oldBalance := rawBalance;
      rawBalance := Scaled(rawBalance, cfg.halfPow(elapsed / cfg.halfLifeSecs));
      lost := oldBalance - rawBalance;
      totalDecayed := totalDecayed + lost;
      lastDecayTime := now;
    }

    method CountRound()
      modifies this
      ensures Value() == old(Value()).(rounds := old(Value()).rounds + 1)
    {
      roundsContributed := roundsContributed + 1;
    }

    method CountData(mb: real)
      modifies this
      ensures Value() == old(Value()).(dataMb := old(Value()).dataMb + mb)
    {
      dataContributedMb := dataContributedMb + mb;
    }

    method CountVote()
      modifies this
      ensures Value() == old(Value()).(votes := old(Value()).votes + 1)
    {
      votesCast := votesCast + 1;
    }

    method Hold(proposal: string, amount: real)
      modifies this
      ensures Value() == old(Value()).(deposits := old(Value()).deposits[proposal := amount])
    {
      pendingVoteDeposits := pendingVoteDeposits[proposal := amount];
    }

    /** Removing a deposit; no deposit and a deposit of nothing are both settled for nothing. */
    method Pop(proposal: string) returns (deposit: real)
      modifies this
      ensures Value() == old(Value()).(deposits := old(Value()).deposits - {proposal})
      ensures deposit == if proposal in old(Value()).deposits then old(Value()).deposits[proposal] else 0.0
    {
      deposit := if proposal in pendingVoteDeposits then pendingVoteDeposits[proposal] else 0.0;
      pendingVoteDeposits := pendingVoteDeposits - {proposal};
    }

    method TakeFreePlace()
      modifies this
      ensures Value() == old(Value()).(freeRequests := old(Value()).freeRequests + 1)
    {
      freeRequestsThisHour := freeRequestsThisHour + 1;
    }

    method Connect(now: real)
      modifies this
      ensures Value() == old(Value()).(connectedSince := now)
    {
      connectedSince := now;
    }

    method Disconnect(now: real)
      modifies this
      ensures Value() == Disconnected(old(Value()), now)
    {
      if connectedSince > 0.0 {
        uptimeStreakSecs := uptimeStreakSecs + (now - connectedSince);
      }
      connectedSince := 0.0;
    }

    method CheckFreeTier(cfg: Config, now: real) returns (result: SpendResult)
      modifies this
      ensures (Value(), result) == FreeTier(cfg, old(Value()), now)
    {
      if now - freeHourStart >= 3600.0 {
        freeRequestsThisHour := 0;
        freeHourStart := now;
      }
      if freeRequestsThisHour < cfg.freePerHour {
        return SpendResult(true, FREE, 0.0, rawBalance, 0.0);
      }
      var wait := 3600.0 - (now - freeHourStart);
      result := SpendResult(false, FREE, 0.0, 0.0, if wait > 0.0 then wait else 0.0);
    }

    method CheckInference(cfg: Config, priority: bool, long: bool, now: real) returns (result: SpendResult)
      modifies this
      ensures (Value(), result) == Checked(cfg, old(Value()), priority, long, now)
    {
      var cost := if priority then cfg.costPriority else cfg.costStandard;
      if long {
        cost := cost + cfg.costLong;
      }
      if rawBalance >= cost {
        return SpendResult(true, if priority then PRIORITY else CONTRIBUTOR, cost, rawBalance - cost, 0.0);
      }
      if priority {
        return SpendResult(false, PRIORITY, 0.0, 0.0, 0.0);
      }
      result := CheckFreeTier(cfg, now);
    }

    method UptimeMultiplier(cfg: Config, now: real) returns (m: real)
      ensures m == StreakMultiplier(cfg, Value(), now)
    {
      if connectedSince <= 0.0 {
        return 1.0;
      }
      var streak := now - connectedSince + uptimeStreakSecs;
      m := if streak / 3600.0 >= cfg.streakHours then cfg.streakMultiplier else 1.0;
    }

    method ComputeRoundReward(cfg: Config, reputation: real, now: real) returns (earned: real)
      ensures earned == RoundReward(cfg, Value(), reputation, now)
    {
      var repMult := cfg.reputationMin + Scaled(cfg.reputationMax - cfg.reputationMin, reputation);
      var streakMult := UptimeMultiplier(cfg, now);
      earned := Scaled(Scaled(cfg.earnTrainingRound, repMult), streakMult);
    }
  }

  function Values(accounts: map<string, PeerCreditAccount>): (r: map<string, Account>)
    reads accounts.Values
    ensures r.Keys == accounts.Keys
    ensures forall p | p in accounts :: r[p] == accounts[p].Value()
  {
    map p | p in accounts :: accounts[p].Value()
  }

  predicate NoSharedAccounts(accounts: map<string, PeerCreditAccount>) {
    forall p, q | p in accounts && q in accounts && p != q :: accounts[p] != accounts[q]
  }

  class Ledger {
    const cfg: Config
    var accounts: map<string, PeerCreditAccount>
    var minted: real
    var spent: real
    var decayed: real

    ghost predicate Valid()
      reads this
    {
      NoSharedAccounts(accounts)
    }

    ghost function Contents(): State
      reads this, accounts.Values
    {
      State(Values(accounts), minted, spent, decayed)
    }

    constructor (cfg: Config)
      ensures Valid() && this.cfg == cfg && Contents() == EMPTY && accounts == map[]
    {
      this.cfg := cfg;
      this.accounts := map[];
      this.minted, this.spent, this.decayed := 0.0, 0.0, 0.0;
    }

    /** Old accounts stay where they are; others are new. */
    twostate predicate Grown()
      reads this
    {
      && (forall p | p in old(accounts) :: p in accounts && accounts[p] == old(accounts[p]))
      && (forall p | p in accounts :: p in old(accounts) || fresh(accounts[p]))
    }

    method Enter(peer: string, account: PeerCreditAccount)
      requires Valid() && peer !in accounts && account !in accounts.Values
      modifies this
      ensures Valid() && accounts == old(accounts)[peer := account]
      ensures Values(accounts) == old(Values(accounts))[peer := account.Value()]
      ensures minted == old(minted) + cfg.welcomeBonus && spent == old(spent) && decayed == old(decayed)
    {
      accounts := accounts[peer := account];
      minted := minted + cfg.welcomeBonus;
    }

    method GetOrCreate(peer: string, now: real) returns (account: PeerCreditAccount)
      requires Valid()
      modifies this
      ensures Valid() && Grown() && peer in accounts && account == accounts[peer]
      ensures Contents() == Created(cfg, old(Contents()), peer, now)
    {
      if peer !in accounts {
        account := new PeerCreditAccount(cfg, now);
        Enter(peer, account);
      }
      account := accounts[peer];
    }

    /** What a change to one account, and to nothing else in the ledger, does to its contents. */
    twostate lemma OneChanged(new account: PeerCreditAccount, peer: string)
      requires Valid() && accounts == old(accounts) && peer in accounts && account == accounts[peer]
      requires forall p | p in accounts && p != peer :: accounts[p].Value() == old(accounts[p].Value())
      ensures Values(accounts) == old(Values(accounts))[peer := account.Value()]
    {
    }

    method ApplyDecay(account: PeerCreditAccount, ghost peer: string, now: real)
      requires Valid() && peer in accounts && account == accounts[peer]
      modifies this`decayed, account
      ensures Contents() == Decayed(cfg, old(Contents()), peer, now)
    {
      var lost := account.ApplyDecay(cfg, now);
      decayed := decayed + lost;
      OneChanged(account, peer);
    }

    method Touch(peer: string, now: real) returns (account: PeerCreditAccount)
      requires Valid()
      modifies this, accounts.Values
      ensures Valid() && Grown() && peer in accounts && account == accounts[peer]
      ensures Contents() == Touched(cfg, old(Contents()), peer, now)
    {
      account := GetOrCreate(peer, now);
      ApplyDecay(account, peer, now);
    }

    method Credit(account: PeerCreditAccount, ghost peer: string, amount: real)
      requires Valid() && peer in accounts && account == accounts[peer]
      modifies this`minted, account
      ensures Contents() == Credited(old(Contents()), peer, amount)
    {
      account.EarnCredits(amount);
      minted := minted + amount;
      OneChanged(account, peer);
    }

    method Debit(account: PeerCreditAccount, ghost peer: string, amount: real)
      requires Valid() && peer in accounts && account == accounts[peer]
      modifies this`spent, account
      ensures Contents() == Debited(old(Contents()), peer, amount)
    {
      account.SpendCredits(amount);
      spent := spent + amount;
      OneChanged(account, peer);
    }

    method GetBalance(peer: string, now: real) returns (balance: real)
      requires Valid()
      modifies this, accounts.Values
      ensures Valid() && Grown()
      ensures Contents() == Touched(cfg, old(Contents()), peer, now) && balance == Contents().accounts[peer].raw
    {
      var account := Touch(peer, now);
      balance := account.rawBalance;
    }

    method CountRound(account: PeerCreditAccount, ghost peer: string)
      requires Valid() && peer in accounts && account == accounts[peer]
      modifies account
      ensures Contents() == RoundCounted(old(Contents()), peer)
    {
      account.CountRound();
      OneChanged(account, peer);
    }

    method CountData(account: PeerCreditAccount, ghost peer: string, mb: real)
      requires Valid() && peer in accounts && account == accounts[peer]
      modifies account
      ensures Contents() == DataCounted(old(Contents()), peer, mb)
    {
      account.CountData(mb);
      OneChanged(account, peer);
    }

    method CountVote(account: PeerCreditAccount, ghost peer: string)
      requires Valid() && peer in accounts && account == accounts[peer]
      modifies account
      ensures Contents() == VoteCounted(old(Contents()), peer)
    {
      account.CountVote();
      OneChanged(account, peer);
    }

    method EarnTrainingRound(peer: string, reputation: real, now: real) returns (earned: real)
      requires Valid()
      modifies this, accounts.Values
      ensures Valid() && Grown()
      ensures Contents() == AfterRound(cfg, old(Contents()), peer, reputation, now)
      ensures earned == RoundReward(cfg, Touched(cfg, old(Contents()), peer, now).accounts[peer], reputation, now)
    {
      var account := Touch(peer, now);
      earned := account.ComputeRoundReward(cfg, reputation, now);
      Credit(account, peer, earned);
      CountRound(account, peer);
    }

    method EarnDataContribution(peer: string, bytes: nat, now: real) returns (earned: real)
      requires Valid()
      modifies this, accounts.Values
      ensures Valid() && Grown()
      ensures Contents() == AfterData(cfg, old(Contents()), peer, bytes, now)
      ensures earned == Scaled(Megabytes(bytes), cfg.earnDataPerMb)
    {
      var account := Touch(peer, now);
      var mb := Megabytes(bytes);
      earned := Scaled(mb, cfg.earnDataPerMb);
      Credit(account, peer, earned);
      CountData(account, peer, mb);
    }

    method RewardVote(peer: string, now: real) returns (earned: real)
      requires Valid()
      modifies this, accounts.Values
      ensures Valid() && Grown()
      ensures Contents() == Voted(cfg, old(Contents()), peer, now) && earned == cfg.earnVote
    {
      var account := Touch(peer, now);
      earned := cfg.earnVote;
      Credit(account, peer, earned);
      CountVote(account, peer);
    }

    method ChargeVoteDeposit(peer: string, proposal: string, now: real) returns (deposit: real)
      requires Valid()
      modifies this, accounts.Values
      ensures Valid() && Grown()
      ensures Contents() == AfterDeposit(cfg, old(Contents()), peer, proposal, now)
      ensures deposit == if CanDeposit(cfg, old(Contents()), peer, now) then cfg.voteDeposit else 0.0
    {
      var account := Touch(peer, now);
      deposit := cfg.voteDeposit;
      if account.rawBalance >= deposit {
        Debit(account, peer, deposit);
      } else {
        deposit := 0.0;
      }
      label held:
      account.Hold(proposal, deposit);
      OneChanged@held(account, peer);
    }

    method EarnVote(peer: string, proposal: string, now: real) returns (earned: real)
      requires Valid()
      modifies this, accounts.Values
      ensures Valid() && Grown()
      ensures Contents() == AfterVote(cfg, old(Contents()), peer, proposal, now) && earned == cfg.earnVote
    {
      earned := RewardVote(peer, now);
      if proposal != "" {
        var deposit := ChargeVoteDeposit(peer, proposal, now);
      }
    }

    method PopDeposit(peer: string, proposal: string, now: real) returns (account: PeerCreditAccount, deposit: real)
      requires Valid()
      modifies this, accounts.Values
      ensures Valid() && Grown() && peer in accounts && account == accounts[peer]
      ensures Contents() == Popped(Created(cfg, old(Contents()), peer, now), peer, proposal)
      ensures deposit == Stake(old(Contents()), peer, proposal)
    {
      account := GetOrCreate(peer, now);
      label created:
      deposit := account.Pop(proposal);
      OneChanged@created(account, peer);
    }

    method RefundFor(deposit: real, accurate: bool) returns (refund: real)
      ensures refund == RefundOf(cfg, deposit, accurate)
    {
      if deposit == 0.0 {
        return 0.0;
      }
      refund := if accurate then cfg.refundAccurate else cfg.refundInaccurate;
    }

    method PayRefund(account: PeerCreditAccount, ghost peer: string, refund: real)
      requires Valid() && peer in accounts && account == accounts[peer]
      modifies this`minted, account
      ensures Contents() == Refunded(old(Contents()), peer, refund)
    {
      if refund > 0.0 {
        Credit(account, peer, refund);
      }
    }

    method SettleVote(peer: string, proposal: string, accurate: bool, now: real) returns (refund: real)
      requires Valid()
      modifies this, accounts.Values
      ensures Valid() && Grown()
      ensures Contents() == AfterSettle(cfg, old(Contents()), peer, proposal, accurate, now)
      ensures refund == RefundOf(cfg, Stake(old(Contents()), peer, proposal), accurate)
    {
      var account, deposit := PopDeposit(peer, proposal, now);
      refund := RefundFor(deposit, accurate);
      PayRefund(account, peer, refund);
    }

    method CheckInference(peer: string, priority: bool, long: bool, now: real) returns (result: SpendResult)
      requires Valid()
      modifies this, accounts.Values
      ensures Valid() && Grown() && peer in accounts
      ensures (Contents(), result) == AfterCheck(cfg, old(Contents()), peer, priority, long, now)
    {
      var account := Touch(peer, now);
      label touched:
      result := account.CheckInference(cfg, priority, long, now);
      OneChanged@touched(account, peer);
    }

    /** Paying for an allowed request. */
    method Pay(peer: string, checked: SpendResult) returns (result: SpendResult)
      requires Valid() && peer in accounts
      modifies this, accounts.Values
      ensures Valid() && accounts == old(accounts)
      ensures (Contents(), result) == Paid(old(Contents()), peer, checked)
    {
      result := checked;
      if !result.allowed {
        return;
      }
      var account := accounts[peer];
      if result.tier == FREE {
        account.TakeFreePlace();
        OneChanged(account, peer);
        return;
      }
      Debit(account, peer, result.creditsSpent);
      result := result.(balanceAfter := account.rawBalance);
    }

    method SpendInference(peer: string, priority: bool, long: bool, now: real) returns (result: SpendResult)
      requires Valid()
      modifies this, accounts.Values
      ensures Valid() && Grown()
      ensures (Contents(), result) == AfterSpend(cfg, old(Contents()), peer, priority, long, now)
    {
      result := CheckInference(peer, priority, long, now);
      result := Pay(peer, result);
    }

    method RecordConnect(peer: string, now: real)
      requires Valid()
      modifies this, accounts.Values
      ensures Valid() && Grown() && Contents() == AfterConnect(cfg, old(Contents()), peer, now)
    {
      var account := GetOrCreate(peer, now);
      label created:
      account.Connect(now);
      OneChanged@created(account, peer);
    }

    method RecordDisconnect(peer: string, now: real)
      requires Valid()
      modifies this, accounts.Values
      ensures Valid() && Grown() && Contents() == AfterDisconnect(cfg, old(Contents()), peer, now)
    {
      var account := GetOrCreate(peer, now);
      label created:
      account.Disconnect(now);
      OneChanged@created(account, peer);
    }

    /** How the outcome tracker pays a proposer: directly into the account, without decay. */
    method RewardProposer(peer: string, reward: real, now: real)
      requires Valid()
      modifies this, accounts.Values
      ensures Valid() && Grown() && Contents() == AfterReward(cfg, old(Contents()), peer, reward, now)
    {
      var account := GetOrCreate(peer, now);
      Credit(account, peer, reward);
    }
  }
}
