/** What laziness does to decay: balances over any run of the ledger, against decay at every instant. */
module LazyDecay {
  import opened Sums
  import opened Credits

  // --- The half-life function ---

  ghost predicate IsExponential(cfg: Config) {
    forall x: real, y: real :: cfg.halfPow(x + y) == Scaled(cfg.halfPow(x), cfg.halfPow(y))
  }

  /** `0.5 ** x`, as far as the theorems use it. */
  ghost predicate IsHalving(cfg: Config) {
    IsExponential(cfg) && IsDecay(cfg) && cfg.halfPow(1.0) == 0.5
  }

  lemma Associative(x: real, y: real, z: real)
    ensures Scaled(Scaled(x, y), z) == Scaled(x, Scaled(y, z))
  {
  }

  lemma ZeroProduct(x: real, y: real)
    requires Scaled(x, y) == 0.0
    ensures x == 0.0 || y == 0.0
  {
    if x != 0.0 { assert y == (x * y) / x; }
  }

  lemma {:induction false} OnesMultiply(cfg: Config, x: real, n: nat)
    requires IsExponential(cfg) && cfg.halfPow(x) == 1.0
    ensures cfg.halfPow(x + Scaled(n as real, x)) == 1.0
  {
    if n == 0 {
      assert Scaled(0.0, x) == 0.0;
    } else {
      OnesMultiply(cfg, x, n - 1);
      assert Scaled(n as real, x) == x + Scaled((n - 1) as real, x);
      assert cfg.halfPow(x + Scaled(n as real, x)) == Scaled(cfg.halfPow(x), cfg.halfPow(x + Scaled((n - 1) as real, x)));
    }
  }

  lemma LongEnough(x: real, k: real)
    requires x > 0.0 && k > 1.0 / x
    ensures Scaled(k, x) > 1.0
  {
    assert (k - 1.0 / x) * x > 0.0;
    assert 1.0 / x * x == 1.0;
  }

  lemma LongTimesLose(cfg: Config, x: real)
    requires IsHalving(cfg) && x >= 1.0
    ensures cfg.halfPow(x) < 1.0
  {
    assert cfg.halfPow(1.0 + (x - 1.0)) == Scaled(cfg.halfPow(1.0), cfg.halfPow(x - 1.0));
  }

  lemma ShortTimesLose(cfg: Config, x: real)
    requires IsHalving(cfg) && x > 0.0
    ensures cfg.halfPow(x) != 1.0
  {
    var n := (1.0 / x).Floor;
    assert x + Scaled(n as real, x) == Scaled(n as real + 1.0, x);
    LongEnough(x, n as real + 1.0);
    LongTimesLose(cfg, Scaled(n as real + 1.0, x));
    if cfg.halfPow(x) == 1.0 { OnesMultiply(cfg, x, n); }
  }

  /** Every positive time counts, however short. */
  lemma OnlyZeroKeeps(cfg: Config, x: real)
    requires IsHalving(cfg) && x >= 0.0
    ensures cfg.halfPow(x) == 1.0 <==> x == 0.0
  {
    if x == 0.0 {
      var one := cfg.halfPow(0.0);
      assert one == Scaled(one, one);
      assert Scaled(one, one - 1.0) == 0.0;
      ZeroProduct(one, one - 1.0);
    } else {
      ShortTimesLose(cfg, x);
    }
  }

  // --- The worth of an account at a later time ---

  function Power(cfg: Config, secs: real): real
    requires cfg.halfLifeSecs > 0.0
  {
    cfg.halfPow(secs / cfg.halfLifeSecs)
  }

  lemma PowersCompose(cfg: Config, t0: real, t1: real, t2: real)
    requires IsExponential(cfg) && cfg.halfLifeSecs > 0.0
    ensures Power(cfg, t2 - t0) == Scaled(Power(cfg, t1 - t0), Power(cfg, t2 - t1))
  {
    var h := cfg.halfLifeSecs;
    assert (t1 - t0) / h + (t2 - t1) / h == (t2 - t0) / h;
  }

  lemma PowerIsOneIff(cfg: Config, secs: real)
    requires IsHalving(cfg) && cfg.halfLifeSecs > 0.0 && secs >= 0.0
    ensures 0.0 < Power(cfg, secs) <= 1.0
    ensures Power(cfg, secs) == 1.0 <==> secs == 0.0
  {
    var x := secs / cfg.halfLifeSecs;
    assert x * cfg.halfLifeSecs == secs;
    assert x >= 0.0;
    OnlyZeroKeeps(cfg, x);
  }

  /** What the balance comes to at time `at`, decayed from its last decay on: that is what a reading shows. */
  function Worth(cfg: Config, a: Account, at: real): real
    requires cfg.halfLifeSecs > 0.0
  {
    Scaled(a.raw, Power(cfg, at - a.lastDecay))
  }

  lemma ReadingShowsWorth(cfg: Config, a: Account, at: real)
    requires DecayDue(cfg, a, at)
    ensures Decay(cfg, a, at).raw == Worth(cfg, a, at)
  {
  }

  /** A decay at any time, due or not, leaves the worth at every other time as it was. */
  lemma DecayKeepsWorth(cfg: Config, a: Account, now: real, at: real)
    requires IsExponential(cfg) && cfg.halfLifeSecs > 0.0
    ensures Worth(cfg, Decay(cfg, a, now), at) == Worth(cfg, a, at)
  {
    if DecayDue(cfg, a, now) {
      PowersCompose(cfg, a.lastDecay, now, at);
      Associative(a.raw, Power(cfg, now - a.lastDecay), Power(cfg, at - now));
    }
  }

  lemma KeptIff(x: real, f: real)
    ensures Scaled(x, f) == x <==> x == 0.0 || f == 1.0
  {
    if Scaled(x, f) == x {
      assert Scaled(x, f - 1.0) == 0.0;
      ZeroProduct(x, f - 1.0);
    }
    if f == 1.0 {
      assert Scaled(x, 1.0) == x;
    }
  }

  lemma LossSign(x: real, y: real, z: real)
    requires y >= 0.0 && z >= 0.0
    ensures x >= 0.0 ==> Scaled(Scaled(x, y), z) >= 0.0
    ensures x <= 0.0 ==> Scaled(Scaled(x, y), z) <= 0.0
  {
    NonNegative(y, z);
    Associative(x, y, z);
    if x >= 0.0 { NonNegative(x, Scaled(y, z)); } else { NonNegative(-x, Scaled(y, z)); }
  }

  lemma Reordered(x: real, f: real, y: real)
    ensures Scaled(x, Scaled(f, y)) == Scaled(Scaled(x, y), f)
  {
    Associative(x, y, f);
    assert Scaled(f, y) == Scaled(y, f);
  }

  /** A further factor takes something off exactly when it is less than one and there is something. */
  lemma FactorIff(x: real, y: real, f: real)
    requires y > 0.0 && f <= 1.0
    ensures Scaled(Scaled(x, y), f) == Scaled(x, y) <==> x == 0.0 || f == 1.0
    ensures x >= 0.0 ==> Scaled(Scaled(x, y), f) <= Scaled(x, y)
    ensures x <= 0.0 ==> Scaled(Scaled(x, y), f) >= Scaled(x, y)
  {
    var z := Scaled(x, y);
    KeptIff(z, f);
    if z == 0.0 { ZeroProduct(x, y); }
    LossSign(x, y, 1.0 - f);
    assert Scaled(z, f) == z - Scaled(z, 1.0 - f);
  }

  /** An amount booked at time `t` decays from the last decay on, not from `t` on: that comes to the same exactly when
      nothing is booked, or at the very time of that decay. */
  lemma BookingLagsIff(cfg: Config, amount: real, last: real, t: real, at: real)
    requires IsHalving(cfg) && cfg.halfLifeSecs > 0.0 && last <= t <= at
    ensures Scaled(amount, Power(cfg, at - last)) == Scaled(amount, Power(cfg, at - t)) <==> amount == 0.0 || last == t
    ensures amount >= 0.0 ==> Scaled(amount, Power(cfg, at - last)) <= Scaled(amount, Power(cfg, at - t))
    ensures amount <= 0.0 ==> Scaled(amount, Power(cfg, at - last)) >= Scaled(amount, Power(cfg, at - t))
  {
    var y, f := Power(cfg, at - t), Power(cfg, t - last);
    PowersCompose(cfg, last, t, at);
    Reordered(amount, f, y);
    PowerIsOneIff(cfg, t - last);
    PowerIsOneIff(cfg, at - t);
    FactorIff(amount, y, f);
  }

  // --- One operation ---

  const NOBODY: Account := Account(0.0, 0.0, 0.0, 0.0, 0.0, 0, 0.0, 0, 0.0, 0.0, 0, 0.0, map[])

  /** The account of a peer; a peer who has none yet owns nothing. */
  function Held(s: State, peer: string): Account {
    if peer in s.accounts then s.accounts[peer] else NOBODY
  }

  /** What was booked between two states of an account: earned, less spent. */
  function Net(a: Account, b: Account): real {
    (b.earned - a.earned) - (b.spent - a.spent)
  }

  /** Only these operations leave the balance undecayed. */
  predicate Undecayed(op: Op) {
    op.SettleVote? || op.RecordConnect? || op.RecordDisconnect? || op.RewardProposer?
  }

  /** The account an operation books on. */
  function Base(cfg: Config, s: State, e: Event): Account {
    var c := Created(cfg, s, e.op.peer, e.now).accounts[e.op.peer];
    if Undecayed(e.op) then c else Decay(cfg, c, e.now)
  }

  predicate Earns(op: Op) {
    op.EarnTrainingRound? || op.EarnDataContribution? || op.EarnVote? || op.ChargeVoteDeposit?
  }

  predicate BooksOn(base: Account, b: Account) {
    b.lastDecay == base.lastDecay && b.raw == base.raw + Net(base, b)
  }

  lemma EarningBooks(cfg: Config, s: State, e: Event)
    requires Earns(e.op)
    ensures BooksOn(Base(cfg, s, e), Held(Step(cfg, s, e), e.op.peer))
  {
  }

  lemma SpendingBooks(cfg: Config, s: State, e: Event)
    requires e.op.CheckInference? || e.op.SpendInference?
    ensures BooksOn(Base(cfg, s, e), Held(Step(cfg, s, e), e.op.peer))
  {
    var t := Touched(cfg, s, e.op.peer, e.now);
    CheckedSameMoney(cfg, t.accounts[e.op.peer], e.op.priority, e.op.long, e.now);
  }

  lemma UndecayedBooks(cfg: Config, s: State, e: Event)
    requires Undecayed(e.op) || e.op.GetBalance?
    ensures BooksOn(Base(cfg, s, e), Held(Step(cfg, s, e), e.op.peer))
  {
  }

  lemma StepBooks(cfg: Config, s: State, e: Event)
    ensures BooksOn(Base(cfg, s, e), Held(Step(cfg, s, e), e.op.peer))
  {
    if e.op.CheckInference? || e.op.SpendInference? {
      SpendingBooks(cfg, s, e);
    } else if Undecayed(e.op) || e.op.GetBalance? {
      UndecayedBooks(cfg, s, e);
    } else {
      EarningBooks(cfg, s, e);
    }
  }

  lemma EarningTouchesOne(cfg: Config, s: State, e: Event, peer: string)
    requires peer != e.op.peer && Earns(e.op)
    ensures Held(Step(cfg, s, e), peer) == Held(s, peer)
  {
  }

  lemma OtherwiseTouchesOne(cfg: Config, s: State, e: Event, peer: string)
    requires peer != e.op.peer && !Earns(e.op)
    ensures Held(Step(cfg, s, e), peer) == Held(s, peer)
  {
  }

  lemma OthersUntouched(cfg: Config, s: State, e: Event, peer: string)
    requires peer != e.op.peer
    ensures Held(Step(cfg, s, e), peer) == Held(s, peer)
  {
    if Earns(e.op) { EarningTouchesOne(cfg, s, e, peer); } else { OtherwiseTouchesOne(cfg, s, e, peer); }
  }

  lemma BaseWorth(cfg: Config, s: State, e: Event, at: real)
    requires IsExponential(cfg) && cfg.halfLifeSecs > 0.0
    ensures var a, base := Held(s, e.op.peer), Base(cfg, s, e);
      Worth(cfg, base, at) == Worth(cfg, a, at) + Scaled(Net(a, base), Power(cfg, at - base.lastDecay))
  {
    var c := Created(cfg, s, e.op.peer, e.now).accounts[e.op.peer];
    DecayKeepsWorth(cfg, c, e.now, at);
  }

  lemma BookedWorth(cfg: Config, base: Account, b: Account, at: real)
    requires cfg.halfLifeSecs > 0.0 && BooksOn(base, b)
    ensures Worth(cfg, b, at) == Worth(cfg, base, at) + Scaled(Net(base, b), Power(cfg, at - b.lastDecay))
  {
  }

  lemma NetAdds(a: Account, base: Account, b: Account, f: real)
    ensures Scaled(Net(a, base), f) + Scaled(Net(base, b), f) == Scaled(Net(a, b), f)
  {
    assert Net(a, base) + Net(base, b) == Net(a, b);
  }

  lemma OwnStepWorth(cfg: Config, s: State, e: Event, at: real)
    requires IsExponential(cfg) && cfg.halfLifeSecs > 0.0
    ensures var a, b := Held(s, e.op.peer), Held(Step(cfg, s, e), e.op.peer);
      Worth(cfg, b, at) == Worth(cfg, a, at) + Scaled(Net(a, b), Power(cfg, at - b.lastDecay))
  {
    var base, b := Base(cfg, s, e), Held(Step(cfg, s, e), e.op.peer);
    StepBooks(cfg, s, e);
    BaseWorth(cfg, s, e, at);
    BookedWorth(cfg, base, b, at);
    NetAdds(Held(s, e.op.peer), base, b, Power(cfg, at - b.lastDecay));
  }

  /** What one operation does to the worth of an account at any time: what it books counts from the last decay on. */
  lemma StepWorth(cfg: Config, s: State, e: Event, peer: string, at: real)
    requires IsExponential(cfg) && cfg.halfLifeSecs > 0.0
    ensures var a, b := Held(s, peer), Held(Step(cfg, s, e), peer);
      Worth(cfg, b, at) == Worth(cfg, a, at) + Scaled(Net(a, b), Power(cfg, at - b.lastDecay))
  {
    if peer == e.op.peer {
      OwnStepWorth(cfg, s, e, at);
    } else {
      OthersUntouched(cfg, s, e, peer);
    }
  }

  lemma LastDecayStep(cfg: Config, s: State, e: Event, peer: string, since: real)
    requires peer in s.accounts ==> s.accounts[peer].lastDecay <= since
    requires since <= e.now
    ensures peer in Step(cfg, s, e).accounts ==> Held(Step(cfg, s, e), peer).lastDecay <= e.now
  {
    if peer != e.op.peer {
      OthersUntouched(cfg, s, e, peer);
    } else {
      StepBooks(cfg, s, e);
    }
  }

  // --- Whole runs ---

  /** An amount booked at `now`, when the last decay was at `last`. */
  datatype Booking = Booking(net: real, last: real, now: real)

  /** What one operation books on the account of a peer; nothing, while there is no such account. */
  function BookingOf(cfg: Config, s: State, e: Event, peer: string): Booking {
    var t := Step(cfg, s, e);
    if peer in t.accounts then Booking(Net(Held(s, peer), Held(t, peer)), Held(t, peer).lastDecay, e.now)
    else Booking(0.0, e.now, e.now)
  }

  function Bookings(cfg: Config, s: State, events: seq<Event>, peer: string): seq<Booking>
    decreases |events|
  {
    if events == [] then []
    else [BookingOf(cfg, s, events[0], peer)] + Bookings(cfg, Step(cfg, s, events[0]), events[1..], peer)
  }

  /** Everything booked, each amount decayed up to time `at` from the last decay before it. */
  function LazySum(cfg: Config, bookings: seq<Booking>, at: real): real
    requires cfg.halfLifeSecs > 0.0
  {
    if bookings == [] then 0.0
    else Scaled(bookings[0].net, Power(cfg, at - bookings[0].last)) + LazySum(cfg, bookings[1..], at)
  }

  /** The same amounts under continuous decay, each from the time it is booked. */
  function ContinuousSum(cfg: Config, bookings: seq<Booking>, at: real): real
    requires cfg.halfLifeSecs > 0.0
  {
    if bookings == [] then 0.0
    else Scaled(bookings[0].net, Power(cfg, at - bookings[0].now)) + ContinuousSum(cfg, bookings[1..], at)
  }

  lemma StaysAbsent(cfg: Config, s: State, e: Event, peer: string)
    ensures peer !in Step(cfg, s, e).accounts ==> peer !in s.accounts
    ensures e.op.peer in Step(cfg, s, e).accounts
  {
  }

  lemma LazySumSingle(cfg: Config, k: Booking, at: real)
    requires cfg.halfLifeSecs > 0.0
    ensures LazySum(cfg, [k], at) == Scaled(k.net, Power(cfg, at - k.last))
  {
    assert [k][1..] == [];
  }

  lemma LazySumFirst(cfg: Config, bookings: seq<Booking>, at: real)
    requires cfg.halfLifeSecs > 0.0 && bookings != []
    ensures LazySum(cfg, bookings, at) == LazySum(cfg, [bookings[0]], at) + LazySum(cfg, bookings[1..], at)
  {
    LazySumSingle(cfg, bookings[0], at);
  }

  lemma StepBooking(cfg: Config, s: State, e: Event, peer: string, at: real)
    requires IsExponential(cfg) && cfg.halfLifeSecs > 0.0
    ensures Worth(cfg, Held(Step(cfg, s, e), peer), at)
         == Worth(cfg, Held(s, peer), at) + LazySum(cfg, [BookingOf(cfg, s, e, peer)], at)
  {
    LazySumSingle(cfg, BookingOf(cfg, s, e, peer), at);
    StepWorth(cfg, s, e, peer, at);
    StaysAbsent(cfg, s, e, peer);
  }

  lemma FirstBooking(cfg: Config, s: State, events: seq<Event>, peer: string)
    requires events != []
    ensures var rest := Bookings(cfg, Step(cfg, s, events[0]), events[1..], peer);
      Bookings(cfg, s, events, peer) == [BookingOf(cfg, s, events[0], peer)] + rest
    ensures Bookings(cfg, s, events, peer)[1..] == Bookings(cfg, Step(cfg, s, events[0]), events[1..], peer)
  {
  }

  /** Over any run, whatever is read, earned, spent, held and refunded in between. */
  lemma {:induction false} RunWorth(cfg: Config, s: State, events: seq<Event>, peer: string, at: real)
    requires IsExponential(cfg) && cfg.halfLifeSecs > 0.0
    ensures Worth(cfg, Held(Run(cfg, s, events), peer), at)
         == Worth(cfg, Held(s, peer), at) + LazySum(cfg, Bookings(cfg, s, events, peer), at)
    decreases |events|
  {
    if events != [] {
      StepBooking(cfg, s, events[0], peer, at);
      RunWorth(cfg, Step(cfg, s, events[0]), events[1..], peer, at);
      FirstBooking(cfg, s, events, peer);
      LazySumFirst(cfg, Bookings(cfg, s, events, peer), at);
    }
  }

  /** The balance a reading shows after the run. */
  function ReadingAfter(cfg: Config, s: State, events: seq<Event>, peer: string, at: real): real {
    Touched(cfg, Run(cfg, s, events), peer, at).accounts[peer].raw
  }

  predicate ReadingDue(cfg: Config, s: State, events: seq<Event>, peer: string, at: real) {
    var t := Run(cfg, s, events);
    peer in t.accounts && DecayDue(cfg, t.accounts[peer], at)
  }

  lemma ReadingAfterRun(cfg: Config, s: State, events: seq<Event>, peer: string, at: real)
    requires IsExponential(cfg) && ReadingDue(cfg, s, events, peer, at)
    ensures ReadingAfter(cfg, s, events, peer, at)
         == Worth(cfg, Held(s, peer), at) + LazySum(cfg, Bookings(cfg, s, events, peer), at)
  {
    RunWorth(cfg, s, events, peer, at);
    ReadingShowsWorth(cfg, Run(cfg, s, events).accounts[peer], at);
  }

  /** Whatever is booked is booked at the time of a decay. */
  predicate AtDecays(bookings: seq<Booking>) {
    forall i | 0 <= i < |bookings| :: bookings[i].net == 0.0 || bookings[i].last == bookings[i].now
  }

  predicate NothingSpent(bookings: seq<Booking>) {
    forall i | 0 <= i < |bookings| :: bookings[i].net >= 0.0
  }

  predicate NothingEarned(bookings: seq<Booking>) {
    forall i | 0 <= i < |bookings| :: bookings[i].net <= 0.0
  }

  predicate InTime(bookings: seq<Booking>, at: real) {
    forall i | 0 <= i < |bookings| :: bookings[i].last <= bookings[i].now <= at
  }

  lemma AtDecaysTail(bookings: seq<Booking>)
    requires bookings != []
    ensures AtDecays(bookings) <==> (bookings[0].net == 0.0 || bookings[0].last == bookings[0].now) && AtDecays(bookings[1..])
  {
    assert bookings == [bookings[0]] + bookings[1..];
  }

  lemma {:induction false} DecaysAgree(cfg: Config, bookings: seq<Booking>, at: real)
    requires IsHalving(cfg) && cfg.halfLifeSecs > 0.0 && InTime(bookings, at) && AtDecays(bookings)
    ensures LazySum(cfg, bookings, at) == ContinuousSum(cfg, bookings, at)
  {
    if bookings != [] {
      AtDecaysTail(bookings);
      BookingLagsIff(cfg, bookings[0].net, bookings[0].last, bookings[0].now, at);
      DecaysAgree(cfg, bookings[1..], at);
    }
  }

  lemma {:induction false} EarningsCompare(cfg: Config, bookings: seq<Booking>, at: real)
    requires IsHalving(cfg) && cfg.halfLifeSecs > 0.0 && InTime(bookings, at) && NothingSpent(bookings)
    ensures LazySum(cfg, bookings, at) <= ContinuousSum(cfg, bookings, at)
    ensures LazySum(cfg, bookings, at) == ContinuousSum(cfg, bookings, at) <==> AtDecays(bookings)
  {
    if bookings != [] {
      AtDecaysTail(bookings);
      BookingLagsIff(cfg, bookings[0].net, bookings[0].last, bookings[0].now, at);
      EarningsCompare(cfg, bookings[1..], at);
    }
  }

  lemma {:induction false} SpendingsCompare(cfg: Config, bookings: seq<Booking>, at: real)
    requires IsHalving(cfg) && cfg.halfLifeSecs > 0.0 && InTime(bookings, at) && NothingEarned(bookings)
    ensures LazySum(cfg, bookings, at) >= ContinuousSum(cfg, bookings, at)
    ensures LazySum(cfg, bookings, at) == ContinuousSum(cfg, bookings, at) <==> AtDecays(bookings)
  {
    if bookings != [] {
      AtDecaysTail(bookings);
      BookingLagsIff(cfg, bookings[0].net, bookings[0].last, bookings[0].now, at);
      SpendingsCompare(cfg, bookings[1..], at);
    }
  }

  /** The clock does not run backwards, neither before the run nor in it nor up to `at`. */
  predicate ClockRuns(s: State, events: seq<Event>, peer: string, at: real) {
    && (forall i, j | 0 <= i < j < |events| :: events[i].now <= events[j].now)
    && (forall i | 0 <= i < |events| :: events[i].now <= at)
    && (peer in s.accounts ==> forall i | 0 <= i < |events| :: s.accounts[peer].lastDecay <= events[i].now)
  }

  lemma ClockRunsOn(cfg: Config, s: State, events: seq<Event>, peer: string, at: real)
    requires events != [] && ClockRuns(s, events, peer, at)
    ensures ClockRuns(Step(cfg, s, events[0]), events[1..], peer, at)
    ensures InTime([BookingOf(cfg, s, events[0], peer)], at)
  {
    var since := if peer in s.accounts then s.accounts[peer].lastDecay else events[0].now;
    LastDecayStep(cfg, s, events[0], peer, since);
  }

  lemma ConcatInTime(a: seq<Booking>, b: seq<Booking>, at: real)
    requires InTime(a, at) && InTime(b, at)
    ensures InTime(a + b, at)
  {
  }

  lemma {:induction false} BookingsInTime(cfg: Config, s: State, events: seq<Event>, peer: string, at: real)
    requires ClockRuns(s, events, peer, at)
    ensures InTime(Bookings(cfg, s, events, peer), at)
    decreases |events|
  {
    if events != [] {
      ClockRunsOn(cfg, s, events, peer, at);
      BookingsInTime(cfg, Step(cfg, s, events[0]), events[1..], peer, at);
      ConcatInTime([BookingOf(cfg, s, events[0], peer)], Bookings(cfg, Step(cfg, s, events[0]), events[1..], peer), at);
    }
  }

  /** The balance that continuous decay gives for the same bookings. */
  function ContinuousBalance(cfg: Config, s: State, events: seq<Event>, peer: string, at: real): real
    requires cfg.halfLifeSecs > 0.0
  {
    Worth(cfg, Held(s, peer), at) + ContinuousSum(cfg, Bookings(cfg, s, events, peer), at)
  }

  /** Lazy decay against continuous decay: after any run that books only at the times of decays the two agree; a run that
      only earns never shows more than continuous decay, one that only spends never less, and either shows as much only if
      it books in that way. */
  lemma LazyIsContinuousIff(cfg: Config, s: State, events: seq<Event>, peer: string, at: real)
    requires IsHalving(cfg) && ReadingDue(cfg, s, events, peer, at) && ClockRuns(s, events, peer, at)
    ensures var bookings := Bookings(cfg, s, events, peer);
      var shown, continuous := ReadingAfter(cfg, s, events, peer, at), ContinuousBalance(cfg, s, events, peer, at);
      && (AtDecays(bookings) ==> shown == continuous)
      && (NothingSpent(bookings) ==> shown <= continuous && (shown == continuous <==> AtDecays(bookings)))
      && (NothingEarned(bookings) ==> shown >= continuous && (shown == continuous <==> AtDecays(bookings)))
  {
    ReadingAfterRun(cfg, s, events, peer, at);
    BookingsInTime(cfg, s, events, peer, at);
    var bookings := Bookings(cfg, s, events, peer);
    if AtDecays(bookings) { DecaysAgree(cfg, bookings, at); }
    if NothingSpent(bookings) { EarningsCompare(cfg, bookings, at); }
    if NothingEarned(bookings) { SpendingsCompare(cfg, bookings, at); }
  }

  lemma OneBooking(cfg: Config, s: State, e: Event, peer: string)
    ensures Bookings(cfg, s, [e], peer) == [BookingOf(cfg, s, e, peer)]
  {
    assert [e][1..] == [];
    assert Bookings(cfg, Step(cfg, s, e), [], peer) == [];
  }

  lemma OneSign(k: Booking)
    ensures NothingSpent([k]) || NothingEarned([k])
  {
  }

  /** One operation, earning or spending: a later reading shows what continuous decay gives exactly when the operation
      books nothing or finds the account decayed at that very time. */
  lemma OperationKeepsPaceIff(cfg: Config, s: State, e: Event, peer: string, at: real)
    requires IsHalving(cfg) && ReadingDue(cfg, s, [e], peer, at) && ClockRuns(s, [e], peer, at)
    ensures ReadingAfter(cfg, s, [e], peer, at) == ContinuousBalance(cfg, s, [e], peer, at)
       <==> AtDecays([BookingOf(cfg, s, e, peer)])
  {
    OneBooking(cfg, s, e, peer);
    LazyIsContinuousIff(cfg, s, [e], peer, at);
    OneSign(BookingOf(cfg, s, e, peer));
  }

  /** A reward at second 59 and a reading at second 119, a minute later and two after the last decay. */
  lemma MinuteLost(cfg: Config, s: State, reward: real)
    requires IsHalving(cfg) && cfg.decayEnabled && cfg.halfLifeSecs == 3600.0 && reward > 0.0
    requires "p" in s.accounts && s.accounts["p"].raw == 0.0 && s.accounts["p"].lastDecay == 0.0
    ensures Touched(cfg, AfterReward(cfg, s, "p", reward, 59.0), "p", 119.0).accounts["p"].raw
         == Scaled(reward, cfg.halfPow(119.0 / 3600.0)) < Scaled(reward, cfg.halfPow(60.0 / 3600.0))
    ensures cfg.earnVote > 0.0 ==>
      Touched(cfg, Voted(cfg, s, "p", 59.0), "p", 119.0).accounts["p"].raw
      == Scaled(cfg.earnVote, cfg.halfPow(119.0 / 3600.0)) < Scaled(cfg.earnVote, cfg.halfPow(60.0 / 3600.0))
  {
    BookingLagsIff(cfg, reward, 0.0, 59.0, 119.0);
    BookingLagsIff(cfg, cfg.earnVote, 0.0, 59.0, 119.0);
  }

  // --- Readings ---

  lemma LaterWorthIff(cfg: Config, b: Account, at: real)
    requires IsHalving(cfg) && cfg.halfLifeSecs > 0.0 && b.lastDecay <= at
    ensures b.raw == Worth(cfg, b, at) <==> b.lastDecay == at || b.raw == 0.0
  {
    KeptIff(b.raw, Power(cfg, at - b.lastDecay));
    PowerIsOneIff(cfg, at - b.lastDecay);
  }

  /** A reading within a minute of the last decay shows the balance undecayed: a reading shows what the balance is worth exactly
      when decay is due, or no time has passed, or there is nothing to decay. */
  lemma ReadingIsExactIff(cfg: Config, a: Account, at: real)
    requires IsHalving(cfg) && cfg.decayEnabled && cfg.halfLifeSecs > 0.0 && a.lastDecay <= at
    ensures Decay(cfg, a, at).raw == Worth(cfg, a, at) <==> DecayDue(cfg, a, at) || at == a.lastDecay || a.raw == 0.0
  {
    LaterWorthIff(cfg, a, at);
  }

  lemma DecayedToZeroIff(cfg: Config, a: Account, now: real)
    requires IsHalving(cfg) && DecayDue(cfg, a, now)
    ensures Decay(cfg, a, now).raw == 0.0 <==> a.raw == 0.0
  {
    ReadingShowsWorth(cfg, a, now);
    PowerIsOneIff(cfg, now - a.lastDecay);
    if Worth(cfg, a, now) == 0.0 { ZeroProduct(a.raw, Power(cfg, now - a.lastDecay)); }
  }

  lemma EarlierDecayKept(cfg: Config, a: Account, t1: real, t2: real)
    requires IsHalving(cfg) && DecayDue(cfg, a, t1) && t1 <= t2
    ensures Decay(cfg, a, t1).raw == Worth(cfg, a, t2) <==> t1 == t2 || a.raw == 0.0
  {
    DecayKeepsWorth(cfg, a, t1, t2);
    LaterWorthIff(cfg, Decay(cfg, a, t1), t2);
    DecayedToZeroIff(cfg, a, t1);
  }

  lemma TwoDecaysIff(cfg: Config, a: Account, t1: real, t2: real)
    requires IsHalving(cfg) && a.lastDecay <= t1 <= t2
    ensures Decay(cfg, Decay(cfg, a, t1), t2).raw == Decay(cfg, a, t2).raw
       <==> !DecayDue(cfg, a, t1) || t1 + 60.0 <= t2 || t1 == t2 || a.raw == 0.0
  {
    if DecayDue(cfg, a, t1) {
      ReadingShowsWorth(cfg, a, t2);
      if t1 + 60.0 <= t2 {
        DecayKeepsWorth(cfg, a, t1, t2);
        ReadingShowsWorth(cfg, Decay(cfg, a, t1), t2);
      } else {
        EarlierDecayKept(cfg, a, t1, t2);
      }
    }
  }

  /** Of two readings the first changes what the second one shows exactly when it decays, the second follows within a minute
      but not at once, and there is something to decay. */
  lemma ReadingsAreHarmlessIff(cfg: Config, s: State, peer: string, t1: real, t2: real)
    requires IsHalving(cfg) && peer in s.accounts && s.accounts[peer].lastDecay <= t1 <= t2
    ensures Touched(cfg, Touched(cfg, s, peer, t1), peer, t2).accounts[peer].raw == Touched(cfg, s, peer, t2).accounts[peer].raw
       <==> !DecayDue(cfg, s.accounts[peer], t1) || t1 + 60.0 <= t2 || t1 == t2 || s.accounts[peer].raw == 0.0
  {
    TwoDecaysIff(cfg, s.accounts[peer], t1, t2);
  }

  // --- Decay before or after a credit ---

  lemma SumKeptIff(x: real, r: real, f: real)
    ensures Scaled(x + r, f) == Scaled(x, f) + r <==> r == 0.0 || f == 1.0
  {
    assert Scaled(x + r, f) == Scaled(x, f) + Scaled(r, f);
    KeptIff(r, f);
  }

  /** A credit booked before the decay that is due, against the decay booked first: the balances agree exactly when
      nothing is due, nothing is credited or the factor is one. */
  lemma CreditBeforeDecayIff(cfg: Config, a: Account, amount: real, now: real)
    ensures Decay(cfg, Earn(a, amount), now).raw == Earn(Decay(cfg, a, now), amount).raw
       <==> (!DecayDue(cfg, a, now) || amount == 0.0 || Factor(cfg, a, now) == 1.0)
  {
    if DecayDue(cfg, a, now) {
      SumKeptIff(a.raw, amount, Factor(cfg, a, now));
    }
  }

  /** Decaying before the credit and decaying after it come to the same. */
  predicate InEitherOrder(cfg: Config, s: State, peer: string, amount: real, now: real) {
    var a := Created(cfg, s, peer, now).accounts[peer];
    !DecayDue(cfg, a, now) || amount == 0.0 || Factor(cfg, a, now) == 1.0
  }

  /** What settling pays: a positive refund of a stake, or nothing. */
  function Payout(cfg: Config, s: State, peer: string, proposal: string, accurate: bool): real {
    var refund := RefundOf(cfg, Stake(s, peer, proposal), accurate);
    if refund > 0.0 then refund else 0.0
  }

  lemma SettledAccount(cfg: Config, s: State, peer: string, proposal: string, accurate: bool, now: real)
    ensures var a, b := Created(cfg, s, peer, now).accounts[peer], AfterSettle(cfg, s, peer, proposal, accurate, now).accounts[peer];
      b.raw == Earn(a, Payout(cfg, s, peer, proposal, accurate)).raw && b.lastDecay == a.lastDecay
  {
  }

  /** A refund is credited without decaying the balance first, so a decay due at that moment takes its share of the refund
      as well: a reading right after shows what decaying first would have left exactly when no decay is due, no stake is
      held, no refund is paid, or the factor is one. */
  lemma RefundDecaysWithTheRest(cfg: Config, s: State, peer: string, proposal: string, accurate: bool, now: real)
    ensures Touched(cfg, AfterSettle(cfg, s, peer, proposal, accurate, now), peer, now).accounts[peer].raw
         == AfterSettle(cfg, Touched(cfg, s, peer, now), peer, proposal, accurate, now).accounts[peer].raw
       <==> InEitherOrder(cfg, s, peer, Payout(cfg, s, peer, proposal, accurate), now)
  {
    var a := Created(cfg, s, peer, now).accounts[peer];
    TouchKeepsStakes(cfg, s, peer, now, peer, proposal);
    CreditBeforeDecayIff(cfg, a, Payout(cfg, s, peer, proposal, accurate), now);
    SettledAccount(cfg, s, peer, proposal, accurate, now);
    SettledAccount(cfg, Touched(cfg, s, peer, now), peer, proposal, accurate, now);
  }

  /** The proposer's reward is credited in the same way. */
  lemma RewardDecaysWithTheRest(cfg: Config, s: State, peer: string, reward: real, now: real)
    ensures Touched(cfg, AfterReward(cfg, s, peer, reward, now), peer, now).accounts[peer].raw
         == AfterReward(cfg, Touched(cfg, s, peer, now), peer, reward, now).accounts[peer].raw
       <==> InEitherOrder(cfg, s, peer, reward, now)
  {
    CreditBeforeDecayIff(cfg, Created(cfg, s, peer, now).accounts[peer], reward, now);
  }

  /** An account of 10 credits, half of which are due to decay, with a stake on one proposal. */
  function HalfDueState(): State {
    State(map["v" := Account(10.0, 0.0, 10.5, 0.5, 0.0, 0, 0.0, 1, 0.0, 0.0, 0, 0.0, map["p" := 0.5])], 10.5, 0.5, 0.0)
  }

  /** One half-life after the last decay a refund of 1.5 and a reward of 5 lose half of what they pay. */
  lemma CreditsLoseHalf(cfg: Config)
    requires cfg.decayEnabled && cfg.halfLifeSecs == 3600.0 && cfg.halfPow(1.0) == 0.5 && cfg.refundAccurate == 1.5
    ensures var s := HalfDueState();
      && Touched(cfg, AfterSettle(cfg, s, "v", "p", true, 3600.0), "v", 3600.0).accounts["v"].raw == 5.75
      && AfterSettle(cfg, Touched(cfg, s, "v", 3600.0), "v", "p", true, 3600.0).accounts["v"].raw == 6.5
      && Touched(cfg, AfterReward(cfg, s, "v", 5.0, 3600.0), "v", 3600.0).accounts["v"].raw == 7.5
      && AfterReward(cfg, Touched(cfg, s, "v", 3600.0), "v", 5.0, 3600.0).accounts["v"].raw == 10.0
  {
    var a := HalfDueState().accounts["v"];
    assert DecayDue(cfg, a, 3600.0) && Factor(cfg, a, 3600.0) == 0.5;
  }
}
