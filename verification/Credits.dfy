/** The credit ledger as a state machine: accounts, earning, deposits, spending and lazy decay. */
module Credits {
  import opened Sums

  /** Half-life decay `0.5 ^ x` is a parameter; `IsDecay` says what is used of it. */
  datatype Config = Config(
    earnTrainingRound: real, earnDataPerMb: real, earnVote: real,
    reputationMin: real, reputationMax: real, streakHours: real, streakMultiplier: real,
    costStandard: real, costPriority: real, costLong: real, freePerHour: int,
    halfLifeSecs: real, decayEnabled: bool, welcomeBonus: real,
    voteDeposit: real, refundAccurate: real, refundInaccurate: real,
    halfPow: real -> real)

  datatype Account = Account(
    raw: real, lastDecay: real, earned: real, spent: real, decayed: real,
    rounds: nat, dataMb: real, votes: nat, connectedSince: real, streakSecs: real,
    freeRequests: int, freeHourStart: real, deposits: map<string, real>)

  datatype State = State(accounts: map<string, Account>, minted: real, spent: real, decayed: real)

  datatype Tier = FREE | CONTRIBUTOR | PRIORITY

  datatype SpendResult = SpendResult(allowed: bool, tier: Tier, creditsSpent: real, balanceAfter: real, waitSecs: real)

  // --- Moves of credits ---

  function NewAccount(cfg: Config, now: real): Account {
    Account(cfg.welcomeBonus, now, cfg.welcomeBonus, 0.0, 0.0, 0, 0.0, 0, now, 0.0, 0, now, map[])
  }

  /** `_get_or_create`: a new peer is minted the welcome bonus. */
  function Created(cfg: Config, s: State, peer: string, now: real): (r: State)
    ensures peer in r.accounts
  {
    if peer in s.accounts then s
    else s.(accounts := s.accounts[peer := NewAccount(cfg, now)], minted := s.minted + cfg.welcomeBonus)
  }

  function WithAccount(s: State, peer: string, a: Account): (r: State)
    ensures peer in r.accounts
  {
    s.(accounts := s.accounts[peer := a])
  }

  function Earn(a: Account, amount: real): Account {
    a.(raw := a.raw + amount, earned := a.earned + amount)
  }

  function Spend(a: Account, amount: real): Account {
    a.(raw := a.raw - amount, spent := a.spent + amount)
  }

  function Credited(s: State, peer: string, amount: real): (r: State)
    requires peer in s.accounts
    ensures peer in r.accounts
  {
    WithAccount(s, peer, Earn(s.accounts[peer], amount)).(minted := s.minted + amount)
  }

  function Debited(s: State, peer: string, amount: real): (r: State)
    requires peer in s.accounts
    ensures peer in r.accounts
  {
    WithAccount(s, peer, Spend(s.accounts[peer], amount)).(spent := s.spent + amount)
  }

  predicate DecayDue(cfg: Config, a: Account, now: real) {
    cfg.decayEnabled && cfg.halfLifeSecs > 0.0 && now - a.lastDecay >= 60.0
  }

  function Factor(cfg: Config, a: Account, now: real): real
    requires DecayDue(cfg, a, now)
  {
    cfg.halfPow((now - a.lastDecay) / cfg.halfLifeSecs)
  }

  /** What decays at a reading; nothing within a minute of the last decay. */
  function Loss(cfg: Config, a: Account, now: real): real {
    if DecayDue(cfg, a, now) then a.raw - Scaled(a.raw, Factor(cfg, a, now)) else 0.0
  }

  function Decay(cfg: Config, a: Account, now: real): Account {
    if DecayDue(cfg, a, now)
    then a.(raw := a.raw - Loss(cfg, a, now), decayed := a.decayed + Loss(cfg, a, now), lastDecay := now)
    else a
  }

  /** `_apply_decay`. */
  function Decayed(cfg: Config, s: State, peer: string, now: real): (r: State)
    requires peer in s.accounts
    ensures peer in r.accounts
  {
    var a := s.accounts[peer];
    WithAccount(s, peer, Decay(cfg, a, now)).(decayed := s.decayed + Loss(cfg, a, now))
  }

  function Touched(cfg: Config, s: State, peer: string, now: real): (r: State)
    ensures peer in r.accounts
  {
    Decayed(cfg, Created(cfg, s, peer, now), peer, now)
  }

  // --- The operations ---

  function StreakMultiplier(cfg: Config, a: Account, now: real): real {
    if a.connectedSince <= 0.0 then 1.0
    else if (now - a.connectedSince + a.streakSecs) / 3600.0 >= cfg.streakHours then cfg.streakMultiplier
    else 1.0
  }

  function RoundCounted(s: State, peer: string): (r: State)
    requires peer in s.accounts
    ensures peer in r.accounts
  {
    WithAccount(s, peer, s.accounts[peer].(rounds := s.accounts[peer].rounds + 1))
  }

  function DataCounted(s: State, peer: string, mb: real): (r: State)
    requires peer in s.accounts
    ensures peer in r.accounts
  {
    WithAccount(s, peer, s.accounts[peer].(dataMb := s.accounts[peer].dataMb + mb))
  }

  function VoteCounted(s: State, peer: string): (r: State)
    requires peer in s.accounts
    ensures peer in r.accounts
  {
    WithAccount(s, peer, s.accounts[peer].(votes := s.accounts[peer].votes + 1))
  }

  function RoundReward(cfg: Config, a: Account, reputation: real, now: real): real {
    Scaled(Scaled(cfg.earnTrainingRound, cfg.reputationMin + Scaled(cfg.reputationMax - cfg.reputationMin, reputation)),
            StreakMultiplier(cfg, a, now))
  }

  function AfterRound(cfg: Config, s: State, peer: string, reputation: real, now: real): State {
    var t := Touched(cfg, s, peer, now);
    var c := Credited(t, peer, RoundReward(cfg, t.accounts[peer], reputation, now));
    RoundCounted(c, peer)
  }

  function Megabytes(bytes: nat): real {
    bytes as real / 1048576.0
  }

  function AfterData(cfg: Config, s: State, peer: string, bytes: nat, now: real): State {
    var c := Credited(Touched(cfg, s, peer, now), peer, Scaled(Megabytes(bytes), cfg.earnDataPerMb));
    DataCounted(c, peer, Megabytes(bytes))
  }

  /** The reward for voting, before any deposit. */
  function Voted(cfg: Config, s: State, peer: string, now: real): (r: State)
    ensures peer in r.accounts
  {
    var c := Credited(Touched(cfg, s, peer, now), peer, cfg.earnVote);
    VoteCounted(c, peer)
  }

  function Holding(s: State, peer: string, proposal: string, amount: real): (r: State)
    requires peer in s.accounts
    ensures peer in r.accounts
  {
    var a := s.accounts[peer];
    WithAccount(s, peer, a.(deposits := a.deposits[proposal := amount]))
  }

  predicate CanDeposit(cfg: Config, s: State, peer: string, now: real) {
    Touched(cfg, s, peer, now).accounts[peer].raw >= cfg.voteDeposit
  }

  /** `charge_vote_deposit`: who cannot afford it votes for free. */
  function AfterDeposit(cfg: Config, s: State, peer: string, proposal: string, now: real): State {
    var t := Touched(cfg, s, peer, now);
    if CanDeposit(cfg, s, peer, now) then Holding(Debited(t, peer, cfg.voteDeposit), peer, proposal, cfg.voteDeposit)
    else Holding(t, peer, proposal, 0.0)
  }

  function AfterVote(cfg: Config, s: State, peer: string, proposal: string, now: real): State {
    var v := Voted(cfg, s, peer, now);
    if proposal != "" then AfterDeposit(cfg, v, peer, proposal, now) else v
  }

  /** The deposit a voter has at stake on a proposal; zero when there is none. */
  function Stake(s: State, peer: string, proposal: string): real {
    if peer in s.accounts && proposal in s.accounts[peer].deposits then s.accounts[peer].deposits[proposal] else 0.0
  }

  function Popped(s: State, peer: string, proposal: string): (r: State)
    requires peer in s.accounts
    ensures peer in r.accounts
  {
    var a := s.accounts[peer];
    WithAccount(s, peer, a.(deposits := a.deposits - {proposal}))
  }

  function Refund(cfg: Config, accurate: bool): real {
    if accurate then cfg.refundAccurate else cfg.refundInaccurate
  }

  /** What a deposit entitles to: nothing for a free vote. */
  function RefundOf(cfg: Config, deposit: real, accurate: bool): real {
    if deposit == 0.0 then 0.0 else Refund(cfg, accurate)
  }

  function Refunded(s: State, peer: string, refund: real): (r: State)
    requires peer in s.accounts
    ensures peer in r.accounts
  {
    if refund > 0.0 then Credited(s, peer, refund) else s
  }

  /** `settle_vote`: only a stake is refunded, and only once. */
  function AfterSettle(cfg: Config, s: State, peer: string, proposal: string, accurate: bool, now: real): State {
    Refunded(Popped(Created(cfg, s, peer, now), peer, proposal), peer, RefundOf(cfg, Stake(s, peer, proposal), accurate))
  }

  function InferenceCost(cfg: Config, priority: bool, long: bool): real {
    (if priority then cfg.costPriority else cfg.costStandard) + if long then cfg.costLong else 0.0
  }

  /** `_check_free_tier`: the account with its hour renewed, and the verdict. */
  function FreeTier(cfg: Config, a: Account, now: real): (Account, SpendResult) {
    var b := if now - a.freeHourStart >= 3600.0 then a.(freeRequests := 0, freeHourStart := now) else a;
    if b.freeRequests < cfg.freePerHour then (b, SpendResult(true, FREE, 0.0, b.raw, 0.0))
    else
      var wait := 3600.0 - (now - b.freeHourStart);
      (b, SpendResult(false, FREE, 0.0, 0.0, if wait > 0.0 then wait else 0.0))
  }

  function Checked(cfg: Config, a: Account, priority: bool, long: bool, now: real): (Account, SpendResult) {
    var cost := InferenceCost(cfg, priority, long);
    if a.raw >= cost then (a, SpendResult(true, if priority then PRIORITY else CONTRIBUTOR, cost, a.raw - cost, 0.0))
    else if priority then (a, SpendResult(false, PRIORITY, 0.0, 0.0, 0.0))
    else FreeTier(cfg, a, now)
  }

  function AfterCheck(cfg: Config, s: State, peer: string, priority: bool, long: bool, now: real): (r: (State, SpendResult))
    ensures peer in r.0.accounts
  {
    var t := Touched(cfg, s, peer, now);
    var (a, result) := Checked(cfg, t.accounts[peer], priority, long, now);
    (WithAccount(t, peer, a), result)
  }

  /** What an allowed request costs: a free place or credits. */
  function Paid(s: State, peer: string, result: SpendResult): (State, SpendResult)
    requires peer in s.accounts
  {
    if !result.allowed then (s, result)
    else if result.tier == FREE then
      (WithAccount(s, peer, s.accounts[peer].(freeRequests := s.accounts[peer].freeRequests + 1)), result)
    else
      var d := Debited(s, peer, result.creditsSpent);
      (d, result.(balanceAfter := d.accounts[peer].raw))
  }

  function AfterSpend(cfg: Config, s: State, peer: string, priority: bool, long: bool, now: real): (State, SpendResult) {
    var (t, result) := AfterCheck(cfg, s, peer, priority, long, now);
    Paid(t, peer, result)
  }

  function AfterConnect(cfg: Config, s: State, peer: string, now: real): State {
    var c := Created(cfg, s, peer, now);
    WithAccount(c, peer, c.accounts[peer].(connectedSince := now))
  }

  function Disconnected(a: Account, now: real): Account {
    a.(streakSecs := if a.connectedSince > 0.0 then a.streakSecs + (now - a.connectedSince) else a.streakSecs,
       connectedSince := 0.0)
  }

  function AfterDisconnect(cfg: Config, s: State, peer: string, now: real): State {
    var c := Created(cfg, s, peer, now);
    WithAccount(c, peer, Disconnected(c.accounts[peer], now))
  }

  /** The proposer's reward, paid by the outcome tracker. */
  function AfterReward(cfg: Config, s: State, peer: string, reward: real, now: real): State {
    Credited(Created(cfg, s, peer, now), peer, reward)
  }

  // --- Runs ---

  datatype Op =
    | GetBalance(peer: string)
    | EarnTrainingRound(peer: string, reputation: real)
    | EarnDataContribution(peer: string, bytes: nat)
    | EarnVote(peer: string, proposal: string)
    | ChargeVoteDeposit(peer: string, proposal: string)
    | SettleVote(peer: string, proposal: string, accurate: bool)
    | CheckInference(peer: string, priority: bool, long: bool)
    | SpendInference(peer: string, priority: bool, long: bool)
    | RecordConnect(peer: string)
    | RecordDisconnect(peer: string)
    | RewardProposer(peer: string, reward: real)

  datatype Event = Event(op: Op, now: real)

  function Step(cfg: Config, s: State, e: Event): State {
    match e.op
    case GetBalance(peer) => Touched(cfg, s, peer, e.now)
    case EarnTrainingRound(peer, reputation) => AfterRound(cfg, s, peer, reputation, e.now)
    case EarnDataContribution(peer, bytes) => AfterData(cfg, s, peer, bytes, e.now)
    case EarnVote(peer, proposal) => AfterVote(cfg, s, peer, proposal, e.now)
    case ChargeVoteDeposit(peer, proposal) => AfterDeposit(cfg, s, peer, proposal, e.now)
    case SettleVote(peer, proposal, accurate) => AfterSettle(cfg, s, peer, proposal, accurate, e.now)
    case CheckInference(peer, priority, long) => AfterCheck(cfg, s, peer, priority, long, e.now).0
    case SpendInference(peer, priority, long) => AfterSpend(cfg, s, peer, priority, long, e.now).0
    case RecordConnect(peer) => AfterConnect(cfg, s, peer, e.now)
    case RecordDisconnect(peer) => AfterDisconnect(cfg, s, peer, e.now)
    case RewardProposer(peer, reward) => AfterReward(cfg, s, peer, reward, e.now)
  }

  function Run(cfg: Config, s: State, events: seq<Event>): State
    decreases |events|
  {
    if events == [] then s else Run(cfg, Step(cfg, s, events[0]), events[1..])
  }

  const EMPTY: State := State(map[], 0.0, 0.0, 0.0)

  // --- Sums over all accounts ---

  datatype Column = RAW | EARNED | SPENT | DECAYED

  function Cell(a: Account, c: Column): real {
    match c
    case RAW => a.raw
    case EARNED => a.earned
    case SPENT => a.spent
    case DECAYED => a.decayed
  }

  ghost function Total(m: map<string, Account>, c: Column): real
    decreases |m|
  {
    if m == map[] then 0.0
    else
      var k :| k in m;
      Cell(m[k], c) + Total(m - {k}, c)
  }

  lemma {:induction false} TotalWithout(m: map<string, Account>, k: string, c: Column)
    requires k in m
    ensures Total(m, c) == Cell(m[k], c) + Total(m - {k}, c)
    decreases |m|
  {
    var j :| j in m && Total(m, c) == Cell(m[j], c) + Total(m - {j}, c);
    if j != k {
      TotalWithout(m - {j}, k, c);
      TotalWithout(m - {k}, j, c);
      assert m - {j} - {k} == m - {k} - {j};
    }
  }

  /** Replacing one account moves a total by the difference of the two. */
  lemma TotalUpdate(m: map<string, Account>, k: string, a: Account, c: Column)
    ensures Total(m[k := a], c) == Total(m, c) + Cell(a, c) - if k in m then Cell(m[k], c) else 0.0
  {
    var n := m[k := a];
    TotalWithout(n, k, c);
    if k in m {
      TotalWithout(m, k, c);
      assert n - {k} == m - {k};
    } else {
      assert n - {k} == m;
    }
  }

  // --- Conservation ---

  /** What the ledger's own totals say a column adds up to. */
  function Booked(s: State, c: Column): real {
    match c
    case RAW => s.minted - s.spent - s.decayed
    case EARNED => s.minted
    case SPENT => s.spent
    case DECAYED => s.decayed
  }

  predicate InOrder(a: Account) {
    a.raw == a.earned - a.spent - a.decayed
  }

  /** The books balance: on every account, and over all of them. */
  ghost predicate Balanced(s: State) {
    && (forall p | p in s.accounts :: InOrder(s.accounts[p]))
    && (forall c: Column :: Total(s.accounts, c) == Booked(s, c))
  }

  /** Replacing an account keeps the books when the totals move along. */
  lemma PutKeepsBalance(s: State, peer: string, a: Account, t: State)
    requires Balanced(s) && InOrder(a) && t.accounts == s.accounts[peer := a]
    requires t.minted == s.minted + a.earned - (if peer in s.accounts then s.accounts[peer].earned else 0.0)
    requires t.spent == s.spent + a.spent - (if peer in s.accounts then s.accounts[peer].spent else 0.0)
    requires t.decayed == s.decayed + a.decayed - (if peer in s.accounts then s.accounts[peer].decayed else 0.0)
    ensures Balanced(t)
  {
    forall c: Column ensures Total(t.accounts, c) == Booked(t, c) {
      TotalUpdate(s.accounts, peer, a, c);
    }
  }

  predicate SameMoney(a: Account, b: Account) {
    a.raw == b.raw && a.earned == b.earned && a.spent == b.spent && a.decayed == b.decayed
  }

  lemma SideKeepsBalance(s: State, peer: string, a: Account)
    requires Balanced(s) && peer in s.accounts && SameMoney(a, s.accounts[peer])
    ensures Balanced(WithAccount(s, peer, a))
  {
    PutKeepsBalance(s, peer, a, WithAccount(s, peer, a));
  }

  lemma CreatedKeepsBalance(cfg: Config, s: State, peer: string, now: real)
    requires Balanced(s)
    ensures Balanced(Created(cfg, s, peer, now))
  {
    if peer !in s.accounts {
      PutKeepsBalance(s, peer, NewAccount(cfg, now), Created(cfg, s, peer, now));
    }
  }

  lemma MovesKeepBalance(s: State, peer: string, amount: real)
    requires Balanced(s) && peer in s.accounts
    ensures Balanced(Credited(s, peer, amount)) && Balanced(Debited(s, peer, amount))
  {
    PutKeepsBalance(s, peer, Credited(s, peer, amount).accounts[peer], Credited(s, peer, amount));
    PutKeepsBalance(s, peer, Debited(s, peer, amount).accounts[peer], Debited(s, peer, amount));
  }

  lemma TouchKeepsBalance(cfg: Config, s: State, peer: string, now: real)
    requires Balanced(s)
    ensures Balanced(Touched(cfg, s, peer, now))
  {
    var c := Created(cfg, s, peer, now);
    CreatedKeepsBalance(cfg, s, peer, now);
    PutKeepsBalance(c, peer, Decay(cfg, c.accounts[peer], now), Decayed(cfg, c, peer, now));
  }

  lemma DepositKeepsBalance(cfg: Config, s: State, peer: string, proposal: string, now: real)
    requires Balanced(s)
    ensures Balanced(AfterDeposit(cfg, s, peer, proposal, now))
  {
    var t := Touched(cfg, s, peer, now);
    TouchKeepsBalance(cfg, s, peer, now);
    MovesKeepBalance(t, peer, cfg.voteDeposit);
    var u := if CanDeposit(cfg, s, peer, now) then Debited(t, peer, cfg.voteDeposit) else t;
    SideKeepsBalance(u, peer, AfterDeposit(cfg, s, peer, proposal, now).accounts[peer]);
  }

  lemma EarningKeepsBalance(cfg: Config, s: State, peer: string, amount: real, now: real, a: Account)
    requires Balanced(s) && SameMoney(a, Credited(Touched(cfg, s, peer, now), peer, amount).accounts[peer])
    ensures Balanced(WithAccount(Credited(Touched(cfg, s, peer, now), peer, amount), peer, a))
  {
    TouchKeepsBalance(cfg, s, peer, now);
    MovesKeepBalance(Touched(cfg, s, peer, now), peer, amount);
    SideKeepsBalance(Credited(Touched(cfg, s, peer, now), peer, amount), peer, a);
  }

  lemma SettleKeepsBalance(cfg: Config, s: State, peer: string, proposal: string, accurate: bool, now: real)
    requires Balanced(s)
    ensures Balanced(AfterSettle(cfg, s, peer, proposal, accurate, now))
  {
    var c := Created(cfg, s, peer, now);
    CreatedKeepsBalance(cfg, s, peer, now);
    SideKeepsBalance(c, peer, Popped(c, peer, proposal).accounts[peer]);
    MovesKeepBalance(Popped(c, peer, proposal), peer, Refund(cfg, accurate));
  }

  lemma CheckedSameMoney(cfg: Config, a: Account, priority: bool, long: bool, now: real)
    ensures SameMoney(Checked(cfg, a, priority, long, now).0, a)
    ensures Checked(cfg, a, priority, long, now).0.deposits == a.deposits
  {
  }

  lemma CheckKeepsBalance(cfg: Config, s: State, peer: string, priority: bool, long: bool, now: real)
    requires Balanced(s)
    ensures Balanced(AfterCheck(cfg, s, peer, priority, long, now).0)
  {
    var t := Touched(cfg, s, peer, now);
    TouchKeepsBalance(cfg, s, peer, now);
    CheckedSameMoney(cfg, t.accounts[peer], priority, long, now);
    SideKeepsBalance(t, peer, Checked(cfg, t.accounts[peer], priority, long, now).0);
  }

  lemma PaidKeepsBalance(s: State, peer: string, result: SpendResult)
    requires Balanced(s) && peer in s.accounts
    ensures Balanced(Paid(s, peer, result).0)
  {
    MovesKeepBalance(s, peer, result.creditsSpent);
    SideKeepsBalance(s, peer, s.accounts[peer].(freeRequests := s.accounts[peer].freeRequests + 1));
  }

  lemma SpendKeepsBalance(cfg: Config, s: State, peer: string, priority: bool, long: bool, now: real)
    requires Balanced(s)
    ensures Balanced(AfterSpend(cfg, s, peer, priority, long, now).0)
  {
    var (t, result) := AfterCheck(cfg, s, peer, priority, long, now);
    CheckKeepsBalance(cfg, s, peer, priority, long, now);
    PaidKeepsBalance(t, peer, result);
  }

  lemma VoteKeepsBalance(cfg: Config, s: State, peer: string, proposal: string, now: real)
    requires Balanced(s)
    ensures Balanced(AfterVote(cfg, s, peer, proposal, now))
  {
    EarningKeepsBalance(cfg, s, peer, cfg.earnVote, now, Voted(cfg, s, peer, now).accounts[peer]);
    DepositKeepsBalance(cfg, Voted(cfg, s, peer, now), peer, proposal, now);
  }

  lemma RoundKeepsBalance(cfg: Config, s: State, peer: string, reputation: real, now: real)
    requires Balanced(s)
    ensures Balanced(AfterRound(cfg, s, peer, reputation, now))
  {
    var t := Touched(cfg, s, peer, now);
    EarningKeepsBalance(cfg, s, peer, RoundReward(cfg, t.accounts[peer], reputation, now), now,
                        AfterRound(cfg, s, peer, reputation, now).accounts[peer]);
  }

  lemma DataKeepsBalance(cfg: Config, s: State, peer: string, bytes: nat, now: real)
    requires Balanced(s)
    ensures Balanced(AfterData(cfg, s, peer, bytes, now))
  {
    EarningKeepsBalance(cfg, s, peer, Scaled(Megabytes(bytes), cfg.earnDataPerMb), now,
                        AfterData(cfg, s, peer, bytes, now).accounts[peer]);
  }

  lemma CreationKeepsBalance(cfg: Config, s: State, peer: string, reward: real, now: real)
    requires Balanced(s)
    ensures Balanced(AfterConnect(cfg, s, peer, now)) && Balanced(AfterDisconnect(cfg, s, peer, now))
    ensures Balanced(AfterReward(cfg, s, peer, reward, now))
  {
    var c := Created(cfg, s, peer, now);
    CreatedKeepsBalance(cfg, s, peer, now);
    SideKeepsBalance(c, peer, AfterConnect(cfg, s, peer, now).accounts[peer]);
    SideKeepsBalance(c, peer, AfterDisconnect(cfg, s, peer, now).accounts[peer]);
    MovesKeepBalance(c, peer, reward);
  }

  predicate IsEarning(op: Op) {
    op.EarnTrainingRound? || op.EarnDataContribution? || op.EarnVote? || op.ChargeVoteDeposit? || op.SettleVote?
  }

  lemma EarningStepKeepsBalance(cfg: Config, s: State, e: Event)
    requires Balanced(s) && IsEarning(e.op)
    ensures Balanced(Step(cfg, s, e))
  {
    match e.op
    case EarnTrainingRound(peer, reputation) => RoundKeepsBalance(cfg, s, peer, reputation, e.now);
    case EarnDataContribution(peer, bytes) => DataKeepsBalance(cfg, s, peer, bytes, e.now);
    case EarnVote(peer, proposal) => VoteKeepsBalance(cfg, s, peer, proposal, e.now);
    case ChargeVoteDeposit(peer, proposal) => DepositKeepsBalance(cfg, s, peer, proposal, e.now);
    case SettleVote(peer, proposal, accurate) => SettleKeepsBalance(cfg, s, peer, proposal, accurate, e.now);
  }

  lemma OtherStepKeepsBalance(cfg: Config, s: State, e: Event)
    requires Balanced(s) && !IsEarning(e.op)
    ensures Balanced(Step(cfg, s, e))
  {
    match e.op
    case GetBalance(peer) => TouchKeepsBalance(cfg, s, peer, e.now);
    case CheckInference(peer, priority, long) => CheckKeepsBalance(cfg, s, peer, priority, long, e.now);
    case SpendInference(peer, priority, long) => SpendKeepsBalance(cfg, s, peer, priority, long, e.now);
    case RecordConnect(peer) => CreationKeepsBalance(cfg, s, peer, 0.0, e.now);
    case RecordDisconnect(peer) => CreationKeepsBalance(cfg, s, peer, 0.0, e.now);
    case RewardProposer(peer, reward) => CreationKeepsBalance(cfg, s, peer, reward, e.now);
  }

  /** Every operation keeps the books, whatever its arguments, the clock and the decay factor. */
  lemma StepKeepsBalance(cfg: Config, s: State, e: Event)
    requires Balanced(s)
    ensures Balanced(Step(cfg, s, e))
  {
    if IsEarning(e.op) {
      EarningStepKeepsBalance(cfg, s, e);
    } else {
      OtherStepKeepsBalance(cfg, s, e);
    }
  }

  /** Credit conservation over every run. */
  lemma {:induction false} RunsKeepBalance(cfg: Config, s: State, events: seq<Event>)
    requires Balanced(s)
    ensures Balanced(Run(cfg, s, events))
    decreases |events|
  {
    if events != [] {
      StepKeepsBalance(cfg, s, events[0]);
      RunsKeepBalance(cfg, Step(cfg, s, events[0]), events[1..]);
    }
  }

  /** In particular the books of every ledger that was ever opened balance. */
  lemma OpenedLedgersBalance(cfg: Config, events: seq<Event>)
    ensures Balanced(Run(cfg, EMPTY, events))
  {
    RunsKeepBalance(cfg, EMPTY, events);
  }

  // --- No account goes below zero ---

  /** Nothing is paid out negative: no bonus, rate or multiplier is below zero. */
  predicate NoNegativeRates(cfg: Config) {
    && cfg.welcomeBonus >= 0.0 && cfg.earnTrainingRound >= 0.0 && cfg.earnDataPerMb >= 0.0 && cfg.earnVote >= 0.0
    && 0.0 <= cfg.reputationMin && 0.0 <= cfg.reputationMax && cfg.streakMultiplier >= 0.0
  }

  ghost predicate IsDecay(cfg: Config) {
    forall x: real | x >= 0.0 :: 0.0 < cfg.halfPow(x) <= 1.0
  }

  predicate NoNegativeGrant(op: Op) {
    match op
    case EarnTrainingRound(_, reputation) => 0.0 <= reputation <= 1.0
    case RewardProposer(_, reward) => reward >= 0.0
    case _ => true
  }

  predicate Solvent(s: State) {
    forall p | p in s.accounts :: s.accounts[p].raw >= 0.0
  }

  lemma TouchKeepsSolvent(cfg: Config, s: State, peer: string, now: real)
    requires Solvent(s) && IsDecay(cfg) && cfg.welcomeBonus >= 0.0
    ensures Solvent(Touched(cfg, s, peer, now)) && Solvent(Created(cfg, s, peer, now))
  {
    var c := Created(cfg, s, peer, now);
    var a := c.accounts[peer];
    if DecayDue(cfg, a, now) {
      assert (now - a.lastDecay) / cfg.halfLifeSecs >= 0.0;
      NonNegative(a.raw, Factor(cfg, a, now));
    }
  }

  lemma RewardNotNegative(cfg: Config, a: Account, reputation: real, now: real)
    requires NoNegativeRates(cfg) && 0.0 <= reputation <= 1.0
    ensures RoundReward(cfg, a, reputation, now) >= 0.0
  {
    var low, high := cfg.reputationMin, cfg.reputationMax;
    NonNegative(low, 1.0 - reputation);
    NonNegative(high, reputation);
    assert low + Scaled(high - low, reputation) == Scaled(low, 1.0 - reputation) + Scaled(high, reputation);
    NonNegative(cfg.earnTrainingRound, low + Scaled(high - low, reputation));
    NonNegative(Scaled(cfg.earnTrainingRound, low + Scaled(high - low, reputation)), StreakMultiplier(cfg, a, now));
  }

  lemma EarningKeepsSolvent(cfg: Config, s: State, peer: string, now: real, amount: real)
    requires Solvent(s) && IsDecay(cfg) && cfg.welcomeBonus >= 0.0 && amount >= 0.0
    ensures Solvent(Credited(Touched(cfg, s, peer, now), peer, amount))
  {
    TouchKeepsSolvent(cfg, s, peer, now);
  }

  lemma DepositKeepsSolvent(cfg: Config, s: State, peer: string, proposal: string, now: real)
    requires Solvent(s) && IsDecay(cfg) && cfg.welcomeBonus >= 0.0
    ensures Solvent(AfterDeposit(cfg, s, peer, proposal, now))
  {
    TouchKeepsSolvent(cfg, s, peer, now);
  }

  lemma VoteKeepsSolvent(cfg: Config, s: State, peer: string, proposal: string, now: real)
    requires Solvent(s) && IsDecay(cfg) && NoNegativeRates(cfg)
    ensures Solvent(AfterVote(cfg, s, peer, proposal, now))
  {
    EarningKeepsSolvent(cfg, s, peer, now, cfg.earnVote);
    DepositKeepsSolvent(cfg, Voted(cfg, s, peer, now), peer, proposal, now);
  }

  lemma SpendKeepsSolvent(cfg: Config, s: State, peer: string, priority: bool, long: bool, now: real)
    requires Solvent(s) && IsDecay(cfg) && cfg.welcomeBonus >= 0.0
    ensures Solvent(AfterCheck(cfg, s, peer, priority, long, now).0)
    ensures Solvent(AfterSpend(cfg, s, peer, priority, long, now).0)
  {
    var t := Touched(cfg, s, peer, now);
    TouchKeepsSolvent(cfg, s, peer, now);
    var (a, result) := Checked(cfg, t.accounts[peer], priority, long, now);
    assert a.raw == t.accounts[peer].raw;
    assert result.allowed && result.tier != FREE ==> result.creditsSpent <= a.raw;
    var c := WithAccount(t, peer, a);
    assert Solvent(c) && Solvent(Paid(c, peer, result).0);
  }

  lemma RewardsKeepSolvent(cfg: Config, s: State, peer: string, reputation: real, bytes: nat, now: real)
    requires Solvent(s) && IsDecay(cfg) && NoNegativeRates(cfg)
    ensures 0.0 <= reputation <= 1.0 ==> Solvent(AfterRound(cfg, s, peer, reputation, now))
    ensures Solvent(AfterData(cfg, s, peer, bytes, now))
  {
    var a := Touched(cfg, s, peer, now).accounts[peer];
    if 0.0 <= reputation <= 1.0 {
      RewardNotNegative(cfg, a, reputation, now);
      EarningKeepsSolvent(cfg, s, peer, now, RoundReward(cfg, a, reputation, now));
    }
    NonNegative(Megabytes(bytes), cfg.earnDataPerMb);
    EarningKeepsSolvent(cfg, s, peer, now, Scaled(Megabytes(bytes), cfg.earnDataPerMb));
  }

  lemma CreationKeepsSolvent(cfg: Config, s: State, peer: string, proposal: string, accurate: bool, reward: real, now: real)
    requires Solvent(s) && cfg.welcomeBonus >= 0.0 && reward >= 0.0
    ensures Solvent(AfterSettle(cfg, s, peer, proposal, accurate, now))
    ensures Solvent(AfterConnect(cfg, s, peer, now)) && Solvent(AfterDisconnect(cfg, s, peer, now))
    ensures Solvent(AfterReward(cfg, s, peer, reward, now))
  {
    assert Solvent(Created(cfg, s, peer, now));
  }

  lemma StepKeepsSolvent(cfg: Config, s: State, e: Event)
    requires Solvent(s) && IsDecay(cfg) && NoNegativeRates(cfg) && NoNegativeGrant(e.op)
    ensures Solvent(Step(cfg, s, e))
  {
    match e.op
    case GetBalance(peer) => TouchKeepsSolvent(cfg, s, peer, e.now);
    case EarnTrainingRound(peer, reputation) => RewardsKeepSolvent(cfg, s, peer, reputation, 0, e.now);
    case EarnDataContribution(peer, bytes) => RewardsKeepSolvent(cfg, s, peer, 0.0, bytes, e.now);
    case EarnVote(peer, proposal) => VoteKeepsSolvent(cfg, s, peer, proposal, e.now);
    case ChargeVoteDeposit(peer, proposal) => DepositKeepsSolvent(cfg, s, peer, proposal, e.now);
    case SettleVote(peer, proposal, accurate) => CreationKeepsSolvent(cfg, s, peer, proposal, accurate, 0.0, e.now);
    case CheckInference(peer, priority, long) => SpendKeepsSolvent(cfg, s, peer, priority, long, e.now);
    case SpendInference(peer, priority, long) => SpendKeepsSolvent(cfg, s, peer, priority, long, e.now);
    case RecordConnect(peer) => CreationKeepsSolvent(cfg, s, peer, "", true, 0.0, e.now);
    case RecordDisconnect(peer) => CreationKeepsSolvent(cfg, s, peer, "", true, 0.0, e.now);
    case RewardProposer(peer, reward) => CreationKeepsSolvent(cfg, s, peer, "", true, reward, e.now);
  }

  /** No run overdraws an account. */
  lemma {:induction false} RunsKeepSolvent(cfg: Config, s: State, events: seq<Event>)
    requires Solvent(s) && IsDecay(cfg) && NoNegativeRates(cfg)
    requires forall i | 0 <= i < |events| :: NoNegativeGrant(events[i].op)
    ensures Solvent(Run(cfg, s, events))
    decreases |events|
  {
    if events != [] {
      StepKeepsSolvent(cfg, s, events[0]);
      RunsKeepSolvent(cfg, Step(cfg, s, events[0]), events[1..]);
    }
  }

  // --- A deposit is refunded at most once ---

  function Bit(b: bool): nat {
    if b then 1 else 0
  }

  predicate Staked(s: State, peer: string, proposal: string) {
    Stake(s, peer, proposal) != 0.0
  }

  /** The step takes a deposit from the voter for the proposal. */
  predicate Charges(cfg: Config, s: State, e: Event, peer: string, proposal: string) {
    cfg.voteDeposit != 0.0 &&
    match e.op
    case ChargeVoteDeposit(p, q) => p == peer && q == proposal && CanDeposit(cfg, s, peer, e.now)
    case EarnVote(p, q) => p == peer && q == proposal && q != "" && CanDeposit(cfg, Voted(cfg, s, peer, e.now), peer, e.now)
    case _ => false
  }

  /** The step settles a stake of the voter on the proposal; only then may it pay. */
  predicate Settles(s: State, e: Event, peer: string, proposal: string) {
    match e.op
    case SettleVote(p, q, _) => p == peer && q == proposal && Staked(s, peer, proposal)
    case _ => false
  }

  function ChargeCount(cfg: Config, s: State, events: seq<Event>, peer: string, proposal: string): nat
    decreases |events|
  {
    if events == [] then 0
    else Bit(Charges(cfg, s, events[0], peer, proposal)) + ChargeCount(cfg, Step(cfg, s, events[0]), events[1..], peer, proposal)
  }

  function SettleCount(cfg: Config, s: State, events: seq<Event>, peer: string, proposal: string): nat
    decreases |events|
  {
    if events == [] then 0
    else Bit(Settles(s, events[0], peer, proposal)) + SettleCount(cfg, Step(cfg, s, events[0]), events[1..], peer, proposal)
  }

  /** The voter deposits again on the proposal, or votes on it again, and the stake held so far is dropped. */
  predicate Forfeits(s: State, e: Event, peer: string, proposal: string) {
    match e.op
    case ChargeVoteDeposit(p, q) => p == peer && q == proposal && Staked(s, peer, proposal)
    case EarnVote(p, q) => p == peer && q == proposal && q != "" && Staked(s, peer, proposal)
    case _ => false
  }

  function ForfeitCount(cfg: Config, s: State, events: seq<Event>, peer: string, proposal: string): nat
    decreases |events|
  {
    if events == [] then 0
    else Bit(Forfeits(s, events[0], peer, proposal)) + ForfeitCount(cfg, Step(cfg, s, events[0]), events[1..], peer, proposal)
  }

  lemma TouchKeepsStakes(cfg: Config, s: State, peer: string, now: real, p: string, q: string)
    ensures Stake(Touched(cfg, s, peer, now), p, q) == Stake(s, p, q) == Stake(Created(cfg, s, peer, now), p, q)
  {
  }

  lemma DepositStakes(cfg: Config, s: State, peer: string, proposal: string, now: real, p: string, q: string)
    ensures Stake(AfterDeposit(cfg, s, peer, proposal, now), p, q) ==
      if p == peer && q == proposal then (if CanDeposit(cfg, s, peer, now) then cfg.voteDeposit else 0.0) else Stake(s, p, q)
  {
    TouchKeepsStakes(cfg, s, peer, now, p, q);
  }

  lemma EarningKeepsStakes(cfg: Config, s: State, peer: string, reputation: real, bytes: nat, now: real, p: string, q: string)
    ensures Stake(AfterRound(cfg, s, peer, reputation, now), p, q) == Stake(s, p, q)
    ensures Stake(AfterData(cfg, s, peer, bytes, now), p, q) == Stake(s, p, q)
    ensures Stake(Voted(cfg, s, peer, now), p, q) == Stake(s, p, q)
  {
    TouchKeepsStakes(cfg, s, peer, now, p, q);
  }

  lemma SpendingKeepsStakes(cfg: Config, s: State, peer: string, priority: bool, long: bool, now: real, p: string, q: string)
    ensures Stake(AfterCheck(cfg, s, peer, priority, long, now).0, p, q) == Stake(s, p, q)
    ensures Stake(AfterSpend(cfg, s, peer, priority, long, now).0, p, q) == Stake(s, p, q)
  {
    var t := Touched(cfg, s, peer, now);
    TouchKeepsStakes(cfg, s, peer, now, p, q);
    var (a, result) := Checked(cfg, t.accounts[peer], priority, long, now);
    assert a.deposits == t.accounts[peer].deposits;
    var c := WithAccount(t, peer, a);
    assert Stake(c, p, q) == Stake(s, p, q) == Stake(Paid(c, peer, result).0, p, q);
  }

  lemma CreationKeepsStakes(cfg: Config, s: State, peer: string, reward: real, now: real, p: string, q: string)
    ensures Stake(AfterConnect(cfg, s, peer, now), p, q) == Stake(s, p, q)
    ensures Stake(AfterDisconnect(cfg, s, peer, now), p, q) == Stake(s, p, q)
    ensures Stake(AfterReward(cfg, s, peer, reward, now), p, q) == Stake(s, p, q)
  {
    TouchKeepsStakes(cfg, s, peer, now, p, q);
  }

  lemma SettleStakes(cfg: Config, s: State, peer: string, proposal: string, accurate: bool, now: real, p: string, q: string)
    ensures Stake(AfterSettle(cfg, s, peer, proposal, accurate, now), p, q) ==
      if p == peer && q == proposal then 0.0 else Stake(s, p, q)
  {
    TouchKeepsStakes(cfg, s, peer, now, p, q);
  }

  predicate StakeBooks(cfg: Config, s: State, e: Event, peer: string, proposal: string) {
    Bit(Settles(s, e, peer, proposal)) + Bit(Forfeits(s, e, peer, proposal)) + Bit(Staked(Step(cfg, s, e), peer, proposal))
    == Bit(Charges(cfg, s, e, peer, proposal)) + Bit(Staked(s, peer, proposal))
  }

  lemma VoteStakes(cfg: Config, s: State, e: Event, peer: string, proposal: string)
    requires e.op.EarnVote?
    ensures StakeBooks(cfg, s, e, peer, proposal)
  {
    EarningKeepsStakes(cfg, s, e.op.peer, 0.0, 0, e.now, peer, proposal);
    DepositStakes(cfg, Voted(cfg, s, e.op.peer, e.now), e.op.peer, e.op.proposal, e.now, peer, proposal);
  }

  lemma SettlingStakes(cfg: Config, s: State, e: Event, peer: string, proposal: string)
    requires e.op.ChargeVoteDeposit? || e.op.SettleVote?
    ensures StakeBooks(cfg, s, e, peer, proposal)
  {
    match e.op
    case ChargeVoteDeposit(p, q) => DepositStakes(cfg, s, p, q, e.now, peer, proposal);
    case SettleVote(p, q, accurate) => SettleStakes(cfg, s, p, q, accurate, e.now, peer, proposal);
  }

  predicate LeavesStakes(op: Op) {
    !op.EarnVote? && !op.ChargeVoteDeposit? && !op.SettleVote?
  }

  lemma OtherStakes(cfg: Config, s: State, e: Event, peer: string, proposal: string)
    requires LeavesStakes(e.op)
    ensures Stake(Step(cfg, s, e), peer, proposal) == Stake(s, peer, proposal)
  {
    match e.op
    case GetBalance(p) => TouchKeepsStakes(cfg, s, p, e.now, peer, proposal);
    case EarnTrainingRound(p, r) => EarningKeepsStakes(cfg, s, p, r, 0, e.now, peer, proposal);
    case EarnDataContribution(p, bytes) => EarningKeepsStakes(cfg, s, p, 0.0, bytes, e.now, peer, proposal);
    case CheckInference(p, priority, long) => SpendingKeepsStakes(cfg, s, p, priority, long, e.now, peer, proposal);
    case SpendInference(p, priority, long) => SpendingKeepsStakes(cfg, s, p, priority, long, e.now, peer, proposal);
    case RecordConnect(p) => CreationKeepsStakes(cfg, s, p, 0.0, e.now, peer, proposal);
    case RecordDisconnect(p) => CreationKeepsStakes(cfg, s, p, 0.0, e.now, peer, proposal);
    case RewardProposer(p, reward) => CreationKeepsStakes(cfg, s, p, reward, e.now, peer, proposal);
  }

  lemma StakeStep(cfg: Config, s: State, e: Event, peer: string, proposal: string)
    ensures StakeBooks(cfg, s, e, peer, proposal)
  {
    if e.op.EarnVote? {
      VoteStakes(cfg, s, e, peer, proposal);
    } else if LeavesStakes(e.op) {
      OtherStakes(cfg, s, e, peer, proposal);
    } else {
      SettlingStakes(cfg, s, e, peer, proposal);
    }
  }

  /** Over any run every deposit charged is settled, forfeited by depositing on the proposal again, or still held. */
  lemma {:induction false} StakesAccountedFor(cfg: Config, s: State, events: seq<Event>, peer: string, proposal: string)
    ensures SettleCount(cfg, s, events, peer, proposal) + ForfeitCount(cfg, s, events, peer, proposal)
            + Bit(Staked(Run(cfg, s, events), peer, proposal))
         == ChargeCount(cfg, s, events, peer, proposal) + Bit(Staked(s, peer, proposal))
    decreases |events|
  {
    if events != [] {
      StakeStep(cfg, s, events[0], peer, proposal);
      StakesAccountedFor(cfg, Step(cfg, s, events[0]), events[1..], peer, proposal);
    }
  }

  /** So settled stakes and the one still held never outnumber the deposits charged. */
  lemma RefundsWithinDeposits(cfg: Config, s: State, events: seq<Event>, peer: string, proposal: string)
    ensures SettleCount(cfg, s, events, peer, proposal) + Bit(Staked(Run(cfg, s, events), peer, proposal))
         <= ChargeCount(cfg, s, events, peer, proposal) + Bit(Staked(s, peer, proposal))
  {
    StakesAccountedFor(cfg, s, events, peer, proposal);
  }

  lemma CountsOfOne(cfg: Config, s: State, e: Event, peer: string, proposal: string)
    ensures ChargeCount(cfg, s, [e], peer, proposal) == Bit(Charges(cfg, s, e, peer, proposal))
    ensures ForfeitCount(cfg, s, [e], peer, proposal) == Bit(Forfeits(s, e, peer, proposal))
  {
    var rest := [e][1..];
    assert rest == [] && ChargeCount(cfg, Step(cfg, s, e), rest, peer, proposal) == 0;
    assert ForfeitCount(cfg, Step(cfg, s, e), rest, peer, proposal) == 0;
  }

  /** Depositing on a proposal twice takes two deposits, and settling it refunds one. */
  lemma SecondDepositForfeits(cfg: Config, s: State, peer: string, proposal: string, now: real)
    requires cfg.voteDeposit != 0.0 && !Staked(s, peer, proposal) && CanDeposit(cfg, s, peer, now)
    requires CanDeposit(cfg, AfterDeposit(cfg, s, peer, proposal, now), peer, now)
    ensures var twice := [Event(ChargeVoteDeposit(peer, proposal), now), Event(ChargeVoteDeposit(peer, proposal), now)];
      && ChargeCount(cfg, s, twice, peer, proposal) == 2 && ForfeitCount(cfg, s, twice, peer, proposal) == 1
      && forall later: seq<Event> :: ChargeCount(cfg, Run(cfg, s, twice), later, peer, proposal) == 0 ==>
           SettleCount(cfg, Run(cfg, s, twice), later, peer, proposal) <= 1
  {
    var e := Event(ChargeVoteDeposit(peer, proposal), now);
    var t := AfterDeposit(cfg, s, peer, proposal, now);
    DepositStakes(cfg, s, peer, proposal, now, peer, proposal);
    assert [e, e][1..] == [e] && [e][1..] == [];
    assert Staked(t, peer, proposal) && Forfeits(t, e, peer, proposal) && Charges(cfg, t, e, peer, proposal);
    CountsOfOne(cfg, t, e, peer, proposal);
    var u := Run(cfg, s, [e, e]);
    forall later: seq<Event> | ChargeCount(cfg, u, later, peer, proposal) == 0
      ensures SettleCount(cfg, u, later, peer, proposal) <= 1
    {
      StakesAccountedFor(cfg, u, later, peer, proposal);
    }
  }

  /** Settling mints nothing unless a stake was held, and a second settlement changes no balance. */
  lemma SettlingTwice(cfg: Config, s: State, peer: string, proposal: string, a: bool, b: bool, now: real, later: real)
    ensures !Staked(s, peer, proposal) ==> AfterSettle(cfg, s, peer, proposal, a, now).minted == Created(cfg, s, peer, now).minted
    ensures AfterSettle(cfg, AfterSettle(cfg, s, peer, proposal, a, now), peer, proposal, b, later)
         == AfterSettle(cfg, s, peer, proposal, a, now)
  {
    var t := AfterSettle(cfg, s, peer, proposal, a, now);
    assert t.accounts[peer].deposits - {proposal} == t.accounts[peer].deposits;
    assert AfterSettle(cfg, t, peer, proposal, b, later).accounts == t.accounts;
  }

  /** In a ledger that was opened empty no voter ever settles more stakes on a proposal than deposits were charged,
      and no account is overdrawn. */
  lemma OpenedLedgersKeepBounds(cfg: Config, events: seq<Event>, peer: string, proposal: string)
    ensures SettleCount(cfg, EMPTY, events, peer, proposal) <= ChargeCount(cfg, EMPTY, events, peer, proposal)
    ensures IsDecay(cfg) && NoNegativeRates(cfg) && (forall i | 0 <= i < |events| :: NoNegativeGrant(events[i].op))
            ==> Solvent(Run(cfg, EMPTY, events))
  {
    RefundsWithinDeposits(cfg, EMPTY, events, peer, proposal);
    if IsDecay(cfg) && NoNegativeRates(cfg) && forall i | 0 <= i < |events| :: NoNegativeGrant(events[i].op) {
      RunsKeepSolvent(cfg, EMPTY, events);
    }
  }
}
