/** Sliding-window limits: histories that are pruned lazily, and what the window then guarantees. */
module RateLimit {

  /** Something recorded: a request counts one, a generation its tokens. */
  datatype Rec = Rec(time: real, amount: nat)

  /** What lies after the cutoff. */
  function Recent(h: seq<Rec>, cutoff: real): seq<Rec> {
    if h == [] then [] else (if h[0].time > cutoff then [h[0]] else []) + Recent(h[1..], cutoff)
  }

  function Total(h: seq<Rec>): nat {
    if h == [] then 0 else h[0].amount + Total(h[1..])
  }

  /** A check: a limit of zero or less is none. */
  predicate Passes(limit: int, window: real, h: seq<Rec>, now: real) {
    limit > 0 ==> Total(Recent(h, now - window)) < limit
  }

  lemma {:induction false} RecentConcat(a: seq<Rec>, b: seq<Rec>, cutoff: real)
    ensures Recent(a + b, cutoff) == Recent(a, cutoff) + Recent(b, cutoff)
  {
    if a == [] {
      assert a + b == b;
    } else {
      assert (a + b)[1..] == a[1..] + b;
      RecentConcat(a[1..], b, cutoff);
    }
  }

  lemma {:induction false} TotalConcat(a: seq<Rec>, b: seq<Rec>)
    ensures Total(a + b) == Total(a) + Total(b)
  {
    if a == [] {
      assert a + b == b;
    } else {
      assert (a + b)[1..] == a[1..] + b;
      TotalConcat(a[1..], b);
    }
  }

  lemma RecentSingle(x: Rec, cutoff: real)
    ensures Recent([x], cutoff) == if x.time > cutoff then [x] else []
  {
    assert [x][1..] == [];
  }

  /** Pruning loses nothing a later cutoff would keep. */
  lemma {:induction false} PruningIsHarmless(h: seq<Rec>, earlier: real, later: real)
    requires earlier <= later
    ensures Recent(Recent(h, earlier), later) == Recent(h, later)
  {
    if h != [] {
      PruningIsHarmless(h[1..], earlier, later);
      var first := if h[0].time > earlier then [h[0]] else [];
      RecentConcat(first, Recent(h[1..], earlier), later);
      RecentSingle(h[0], later);
    }
  }

  // --- The limit over every window ---

  datatype Ends = OpenLeft | OpenRight | Closed

  datatype Window = Window(from: real, length: real, ends: Ends)

  predicate Inside(w: Window, t: real) {
    match w.ends
    case OpenLeft => w.from < t <= w.from + w.length
    case OpenRight => w.from <= t < w.from + w.length
    case Closed => w.from <= t <= w.from + w.length
  }

  /** A half-open window of the length. */
  predicate IsHalfOpen(w: Window, window: real) {
    w.length == window && w.ends != Closed
  }

  function Within(h: seq<Rec>, w: Window): seq<Rec> {
    if h == [] then [] else (if Inside(w, h[0].time) then [h[0]] else []) + Within(h[1..], w)
  }

  lemma {:induction false} WithinConcat(a: seq<Rec>, b: seq<Rec>, w: Window)
    ensures Within(a + b, w) == Within(a, w) + Within(b, w)
  {
    if a == [] {
      assert a + b == b;
    } else {
      assert (a + b)[1..] == a[1..] + b;
      WithinConcat(a[1..], b, w);
    }
  }

  lemma WithinSingle(x: Rec, w: Window)
    ensures Within([x], w) == if Inside(w, x.time) then [x] else []
  {
    assert [x][1..] == [];
  }

  lemma {:induction false} WithinRecent(h: seq<Rec>, w: Window, cutoff: real)
    requires forall t | Inside(w, t) :: t > cutoff
    ensures Total(Within(h, w)) <= Total(Recent(h, cutoff))
  {
    if h != [] {
      WithinRecent(h[1..], w, cutoff);
      TotalConcat(if Inside(w, h[0].time) then [h[0]] else [], Within(h[1..], w));
      TotalConcat(if h[0].time > cutoff then [h[0]] else [], Recent(h[1..], cutoff));
    }
  }

  /** A request is checked, and if it passes it is served and recorded. */
  datatype Request = Request(check: real, record: real, amount: nat)

  function Served(limit: int, window: real, h: seq<Rec>, r: Request): seq<Rec> {
    if Passes(limit, window, h, r.check) then h + [Rec(r.record, r.amount)] else h
  }

  function ServeAll(limit: int, window: real, h: seq<Rec>, rs: seq<Request>): seq<Rec>
    decreases |rs|
  {
    if rs == [] then h else ServeAll(limit, window, Served(limit, window, h, rs[0]), rs[1..])
  }

  function ButLast(s: seq<Rec>): seq<Rec> {
    if s == [] then [] else s[..|s| - 1]
  }

  /** In every window of the length, what was recorded before the last record stays under the limit. */
  ghost predicate Limited(limit: int, window: real, h: seq<Rec>) {
    forall w: Window | IsHalfOpen(w, window) :: Total(ButLast(Within(h, w))) < limit
  }

  lemma ServedLimited(limit: int, window: real, h: seq<Rec>, r: Request)
    requires limit > 0 && Limited(limit, window, h) && r.check <= r.record
    ensures Limited(limit, window, Served(limit, window, h, r))
  {
    if Passes(limit, window, h, r.check) {
      var x := Rec(r.record, r.amount);
      forall w: Window | IsHalfOpen(w, window) ensures Total(ButLast(Within(h + [x], w))) < limit {
        WithinConcat(h, [x], w);
        WithinSingle(x, w);
        if Inside(w, x.time) {
          assert ButLast(Within(h, w) + [x]) == Within(h, w);
          WithinRecent(h, w, r.check - window);
        } else {
          assert Within(h, w) + [] == Within(h, w);
        }
      }
    }
  }

  /** When every record follows its own passing check, no window ever exceeds the limit by more than its last record. */
  lemma {:induction false} EveryWindowLimited(limit: int, window: real, h: seq<Rec>, rs: seq<Request>)
    requires limit > 0 && Limited(limit, window, h)
    requires forall i | 0 <= i < |rs| :: rs[i].check <= rs[i].record
    ensures Limited(limit, window, ServeAll(limit, window, h, rs))
    decreases |rs|
  {
    if rs != [] {
      ServedLimited(limit, window, h, rs[0]);
      EveryWindowLimited(limit, window, Served(limit, window, h, rs[0]), rs[1..]);
    }
  }

  // --- Any amounts: exactly when the windows hold ---

  predicate UpTo(h: seq<Rec>, t: real) {
    forall i | 0 <= i < |h| :: h[i].time <= t
  }

  /** The window that ends with a record counts what a check at that moment counts, and the record. */
  lemma {:induction false} WithinIsRecent(h: seq<Rec>, t: real, window: real)
    requires UpTo(h, t)
    ensures Within(h, Window(t - window, window, OpenLeft)) == Recent(h, t - window)
  {
    if h != [] {
      WithinIsRecent(h[1..], t, window);
    }
  }

  /** Recorded on a clock that never runs backwards. */
  predicate InOrder(h: seq<Rec>) {
    forall i, j | 0 <= i < j < |h| :: h[i].time <= h[j].time
  }

  /** The window that ends with record `i`: what a check there and then would count, the record, and what follows at once. */
  lemma WindowAt(h: seq<Rec>, i: nat, window: real)
    requires window > 0.0 && InOrder(h) && i < |h|
    ensures var w := Window(h[i].time - window, window, OpenLeft);
      IsHalfOpen(w, window) && Within(h, w) == Recent(h[..i], h[i].time - window) + ([h[i]] + Within(h[i + 1..], w))
  {
    var w := Window(h[i].time - window, window, OpenLeft);
    WithinIsRecent(h[..i], h[i].time, window);
    assert h == h[..i] + ([h[i]] + h[i + 1..]);
    WithinConcat(h[..i], [h[i]] + h[i + 1..], w);
    WithinConcat([h[i]], h[i + 1..], w);
    WithinSingle(h[i], w);
  }

  /** At every record a check made there and then would have passed. */
  predicate AllWouldPass(limit: int, window: real, h: seq<Rec>) {
    forall i | 0 <= i < |h| :: Passes(limit, window, h[..i], h[i].time)
  }

  lemma PassesWithin(limit: int, window: real, h: seq<Rec>, i: nat)
    requires limit > 0 && window > 0.0 && InOrder(h) && i < |h| && Limited(limit, window, h)
    ensures Passes(limit, window, h[..i], h[i].time)
  {
    var w := Window(h[i].time - window, window, OpenLeft);
    WindowAt(h, i, window);
    var before, rest := Recent(h[..i], h[i].time - window), [h[i]] + Within(h[i + 1..], w);
    assert ButLast(before + rest) == before + ButLast(rest);
    TotalConcat(before, ButLast(rest));
  }

  lemma {:induction false} PassingLimited(limit: int, window: real, h: seq<Rec>)
    requires limit > 0 && AllWouldPass(limit, window, h)
    ensures Limited(limit, window, h)
  {
    if h != [] {
      var n := |h| - 1;
      assert forall i | 0 <= i < n :: h[..n][..i] == h[..i];
      PassingLimited(limit, window, h[..n]);
      ServedLimited(limit, window, h[..n], Request(h[n].time, h[n].time, h[n].amount));
      assert h == h[..n] + [h[n]];
    }
  }

  /** For any amounts recorded on a monotone clock: in every half-open window of the length, what comes before the last record
      stays under the limit if and only if at every record a check made there and then would have passed. */
  lemma LimitedIff(limit: int, window: real, h: seq<Rec>)
    requires limit > 0 && window > 0.0 && InOrder(h)
    ensures Limited(limit, window, h) <==> AllWouldPass(limit, window, h)
  {
    if Limited(limit, window, h) {
      forall i | 0 <= i < |h| ensures Passes(limit, window, h[..i], h[i].time) { PassesWithin(limit, window, h, i); }
    }
    if AllWouldPass(limit, window, h) { PassingLimited(limit, window, h); }
  }

  /** No half-open window of the length exceeds the limit, its last record included. */
  ghost predicate InBudget(limit: int, window: real, h: seq<Rec>) {
    forall w: Window | IsHalfOpen(w, window) :: Total(Within(h, w)) <= limit
  }

  /** Every record still fits into what its window leaves. */
  predicate AllFit(limit: int, window: real, h: seq<Rec>) {
    forall i | 0 <= i < |h| :: Total(Recent(h[..i], h[i].time - window)) + h[i].amount <= limit
  }

  lemma FitsWithin(limit: int, window: real, h: seq<Rec>, i: nat)
    requires window > 0.0 && InOrder(h) && i < |h| && InBudget(limit, window, h)
    ensures Total(Recent(h[..i], h[i].time - window)) + h[i].amount <= limit
  {
    var w := Window(h[i].time - window, window, OpenLeft);
    WindowAt(h, i, window);
    TotalConcat(Recent(h[..i], h[i].time - window), [h[i]] + Within(h[i + 1..], w));
    TotalConcat([h[i]], Within(h[i + 1..], w));
    assert [h[i]][1..] == [];
  }

  lemma FittingStep(limit: int, window: real, h: seq<Rec>, x: Rec)
    requires InBudget(limit, window, h) && Total(Recent(h, x.time - window)) + x.amount <= limit
    ensures InBudget(limit, window, h + [x])
  {
    forall w: Window | IsHalfOpen(w, window) ensures Total(Within(h + [x], w)) <= limit {
      WithinConcat(h, [x], w);
      WithinSingle(x, w);
      if Inside(w, x.time) {
        WithinRecent(h, w, x.time - window);
        TotalConcat(Within(h, w), [x]);
        assert [x][1..] == [];
      } else {
        assert Within(h, w) + [] == Within(h, w);
      }
    }
  }

  lemma {:induction false} FittingInBudget(limit: int, window: real, h: seq<Rec>)
    requires limit >= 0 && AllFit(limit, window, h)
    ensures InBudget(limit, window, h)
  {
    if h != [] {
      var n := |h| - 1;
      assert forall i | 0 <= i < n :: h[..n][..i] == h[..i];
      FittingInBudget(limit, window, h[..n]);
      FittingStep(limit, window, h[..n], h[n]);
      assert h == h[..n] + [h[n]];
    }
  }

  /** The last record is what the check leaves out: no half-open window exceeds the limit if and only if every record fits into
      what is left at its time. */
  lemma InBudgetIff(limit: int, window: real, h: seq<Rec>)
    requires limit >= 0 && window > 0.0 && InOrder(h)
    ensures InBudget(limit, window, h) <==> AllFit(limit, window, h)
  {
    if InBudget(limit, window, h) {
      forall i | 0 <= i < |h| ensures Total(Recent(h[..i], h[i].time - window)) + h[i].amount <= limit {
        FitsWithin(limit, window, h, i);
      }
    }
    if AllFit(limit, window, h) { FittingInBudget(limit, window, h); }
  }

  // --- Requests: exactly when the limit holds ---

  predicate Units(h: seq<Rec>) {
    forall i | 0 <= i < |h| :: h[i].amount == 1
  }

  lemma {:induction false} UnitTotal(h: seq<Rec>)
    requires Units(h)
    ensures Total(h) == |h|
  {
    if h != [] {
      UnitTotal(h[1..]);
    }
  }

  lemma {:induction false} UnitsWithin(h: seq<Rec>, w: Window)
    requires Units(h)
    ensures Units(Within(h, w))
  {
    if h != [] {
      UnitsWithin(h[1..], w);
    }
  }

  /** Checks and records as they come, in whatever order; a check changes no history. */
  datatype Event = CheckAt(time: real) | RecordAt(time: real)

  function WithEvent(h: seq<Rec>, e: Event): seq<Rec> {
    if e.RecordAt? then h + [Rec(e.time, 1)] else h
  }

  function Recorded(h: seq<Rec>, events: seq<Event>): seq<Rec>
    decreases |events|
  {
    if events == [] then h else Recorded(WithEvent(h, events[0]), events[1..])
  }

  /** The clock never runs backwards. */
  predicate Monotone(clock: real, events: seq<Event>)
    decreases |events|
  {
    events != [] ==> clock <= events[0].time && Monotone(events[0].time, events[1..])
  }

  /** At every record a check made there and then would have passed. */
  predicate RecordsWouldPass(limit: int, window: real, h: seq<Rec>, events: seq<Event>)
    decreases |events|
  {
    events != [] ==>
      && (events[0].RecordAt? ==> Passes(limit, window, h, events[0].time))
      && RecordsWouldPass(limit, window, WithEvent(h, events[0]), events[1..])
  }

  /** Every record uses up a passing check that was made since the record before it. */
  predicate ChecksFirst(limit: int, window: real, h: seq<Rec>, cleared: bool, events: seq<Event>)
    decreases |events|
  {
    events != [] ==>
      if events[0].CheckAt?
      then ChecksFirst(limit, window, h, Passes(limit, window, h, events[0].time), events[1..])
      else cleared && ChecksFirst(limit, window, WithEvent(h, events[0]), false, events[1..])
  }

  /** At most the limit in every half-open window of the length. */
  ghost predicate Holds(limit: int, window: real, h: seq<Rec>) {
    forall w: Window | IsHalfOpen(w, window) :: |Within(h, w)| <= limit
  }

  lemma HoldsIffLimited(limit: int, window: real, h: seq<Rec>)
    requires limit > 0 && Units(h)
    ensures Holds(limit, window, h) <==> Limited(limit, window, h)
  {
    forall w: Window | IsHalfOpen(w, window) ensures |Within(h, w)| <= limit <==> Total(ButLast(Within(h, w))) < limit {
      UnitsWithin(h, w);
      UnitTotal(ButLast(Within(h, w)));
    }
  }

  lemma {:induction false} RecordedExtends(h: seq<Rec>, events: seq<Event>) returns (more: seq<Rec>)
    ensures Recorded(h, events) == h + more && Units(more)
    decreases |events|
  {
    if events == [] {
      more := [];
    } else {
      more := RecordedExtends(WithEvent(h, events[0]), events[1..]);
      if events[0].RecordAt? {
        assert h + [Rec(events[0].time, 1)] + more == h + ([Rec(events[0].time, 1)] + more);
        more := [Rec(events[0].time, 1)] + more;
      }
    }
  }

  /** A record whose check would have failed leaves a window over the limit, whatever follows. */
  lemma FailingRecordOverfills(limit: int, window: real, h: seq<Rec>, t: real, events: seq<Event>)
    requires limit > 0 && window > 0.0 && Units(h) && UpTo(h, t) && !Passes(limit, window, h, t)
    ensures !Holds(limit, window, Recorded(h + [Rec(t, 1)], events))
  {
    var w, x := Window(t - window, window, OpenLeft), Rec(t, 1);
    var more := RecordedExtends(h + [x], events);
    WithinConcat(h + [x], more, w);
    WithinConcat(h, [x], w);
    WithinSingle(x, w);
    WithinIsRecent(h, t, window);
    UnitsWithin(h, w);
    UnitTotal(Within(h, w));
    assert IsHalfOpen(w, window);
  }

  lemma {:induction false} LimitHoldsIffFrom(limit: int, window: real, clock: real, h: seq<Rec>, events: seq<Event>)
    requires limit > 0 && window > 0.0 && Units(h) && UpTo(h, clock) && Monotone(clock, events) && Limited(limit, window, h)
    ensures Holds(limit, window, Recorded(h, events)) <==> RecordsWouldPass(limit, window, h, events)
    decreases |events|
  {
    if events == [] {
      HoldsIffLimited(limit, window, h);
    } else {
      var t := events[0].time;
      if events[0].CheckAt? {
        LimitHoldsIffFrom(limit, window, t, h, events[1..]);
      } else if Passes(limit, window, h, t) {
        ServedLimited(limit, window, h, Request(t, t, 1));
        LimitHoldsIffFrom(limit, window, t, h + [Rec(t, 1)], events[1..]);
      } else {
        FailingRecordOverfills(limit, window, h, t, events[1..]);
      }
    }
  }

  /** Over every interleaving of checks and records on a monotone clock: no half-open window of the length ever holds
      more than the limit if and only if at every record a check made there and then would have passed. */
  lemma LimitHoldsIff(limit: int, window: real, clock: real, events: seq<Event>)
    requires limit > 0 && window > 0.0 && Monotone(clock, events)
    ensures Holds(limit, window, Recorded([], events)) <==> RecordsWouldPass(limit, window, [], events)
  {
    LimitHoldsIffFrom(limit, window, clock, [], events);
  }

  lemma {:induction false} RecentShrinks(h: seq<Rec>, earlier: real, later: real)
    requires earlier <= later
    ensures Total(Recent(h, later)) <= Total(Recent(h, earlier))
  {
    if h != [] {
      RecentShrinks(h[1..], earlier, later);
      TotalConcat(if h[0].time > later then [h[0]] else [], Recent(h[1..], later));
      TotalConcat(if h[0].time > earlier then [h[0]] else [], Recent(h[1..], earlier));
    }
  }

  /** A check for every record is one way to ensure that: what passes earlier passes later, with nothing recorded between. */
  lemma {:induction false} ChecksFirstSuffices(limit: int, window: real, h: seq<Rec>, cleared: bool, clock: real, events: seq<Event>)
    requires Monotone(clock, events) && ChecksFirst(limit, window, h, cleared, events)
    requires cleared ==> Passes(limit, window, h, clock)
    ensures RecordsWouldPass(limit, window, h, events)
    decreases |events|
  {
    if events != [] {
      var t := events[0].time;
      if events[0].CheckAt? {
        ChecksFirstSuffices(limit, window, h, Passes(limit, window, h, t), t, events[1..]);
      } else {
        RecentShrinks(h, clock - window, t - window);
        ChecksFirstSuffices(limit, window, WithEvent(h, events[0]), false, t, events[1..]);
      }
    }
  }

  /** When each record follows its own passing check, every half-open window of the length holds at most the limit. */
  lemma RequestsLimited(limit: int, window: real, clock: real, events: seq<Event>, w: Window)
    requires limit > 0 && window > 0.0 && IsHalfOpen(w, window)
    requires Monotone(clock, events) && ChecksFirst(limit, window, [], false, events)
    ensures |Within(Recorded([], events), w)| <= limit
  {
    ChecksFirstSuffices(limit, window, [], false, clock, events);
    LimitHoldsIff(limit, window, clock, events);
  }

  // --- Closed windows ---

  /** A closed window is a half-open one and its first instant. */
  lemma {:induction false} ClosedSplits(h: seq<Rec>, from: real, window: real)
    requires window > 0.0
    ensures |Within(h, Window(from, window, Closed))|
         == |Within(h, Window(from, window, OpenLeft))| + |Within(h, Window(from, 0.0, Closed))|
  {
    if h != [] {
      ClosedSplits(h[1..], from, window);
    }
  }

  lemma {:induction false} InstantWithin(h: seq<Rec>, from: real, window: real)
    requires window > 0.0
    ensures |Within(h, Window(from, 0.0, Closed))| <= |Within(h, Window(from, window, OpenRight))|
  {
    if h != [] {
      InstantWithin(h[1..], from, window);
    }
  }

  /** With both ends closed, a window may hold up to twice the limit, and no more. */
  lemma ClosedWindowsTwice(limit: int, window: real, clock: real, events: seq<Event>, from: real)
    requires limit > 0 && window > 0.0 && Monotone(clock, events) && RecordsWouldPass(limit, window, [], events)
    ensures |Within(Recorded([], events), Window(from, window, Closed))| <= 2 * limit
  {
    var h := Recorded([], events);
    LimitHoldsIff(limit, window, clock, events);
    ClosedSplits(h, from, window);
    InstantWithin(h, from, window);
    assert IsHalfOpen(Window(from, window, OpenLeft), window) && IsHalfOpen(Window(from, window, OpenRight), window);
  }

  /** The same checks, with a record exactly a window old still counted. */
  predicate PassesClosed(limit: int, window: real, h: seq<Rec>, now: real) {
    |Within(h, Window(now - window, window, Closed))| < limit
  }

  predicate RecordsWouldPassClosed(limit: int, window: real, h: seq<Rec>, events: seq<Event>)
    decreases |events|
  {
    events != [] ==>
      && (events[0].RecordAt? ==> PassesClosed(limit, window, h, events[0].time))
      && RecordsWouldPassClosed(limit, window, WithEvent(h, events[0]), events[1..])
  }

  ghost predicate HoldsClosed(limit: int, window: real, h: seq<Rec>) {
    forall from: real :: |Within(h, Window(from, window, Closed))| <= limit
  }

  /** A later closed window that still reaches the last record holds no earlier records that its own window misses. */
  lemma {:induction false} ClosedWithin(h: seq<Rec>, from: real, t: real, window: real)
    requires from <= t <= from + window && UpTo(h, t)
    ensures |Within(h, Window(from, window, Closed))| <= |Within(h, Window(t - window, window, Closed))|
  {
    if h != [] {
      ClosedWithin(h[1..], from, t, window);
    }
  }

  lemma ClosedStep(limit: int, window: real, h: seq<Rec>, t: real)
    requires window > 0.0 && UpTo(h, t) && HoldsClosed(limit, window, h)
    ensures HoldsClosed(limit, window, h + [Rec(t, 1)]) <==> PassesClosed(limit, window, h, t)
  {
    var x := Rec(t, 1);
    forall from: real
      ensures |Within(h + [x], Window(from, window, Closed))|
           == |Within(h, Window(from, window, Closed))| + if from <= t <= from + window then 1 else 0
    {
      WithinConcat(h, [x], Window(from, window, Closed));
      WithinSingle(x, Window(from, window, Closed));
    }
    if PassesClosed(limit, window, h, t) {
      forall from: real ensures |Within(h + [x], Window(from, window, Closed))| <= limit {
        if from <= t <= from + window { ClosedWithin(h, from, t, window); }
      }
    } else {
      assert |Within(h + [x], Window(t - window, window, Closed))| > limit;
    }
  }

  lemma ClosedOnlyGrows(limit: int, window: real, h: seq<Rec>, events: seq<Event>)
    requires !HoldsClosed(limit, window, h)
    ensures !HoldsClosed(limit, window, Recorded(h, events))
  {
    var from: real :| |Within(h, Window(from, window, Closed))| > limit;
    var more := RecordedExtends(h, events);
    WithinConcat(h, more, Window(from, window, Closed));
    assert |Within(Recorded(h, events), Window(from, window, Closed))| > limit;
  }

  /** Closed windows keep to the limit if and only if every record passes a check that still counts what is exactly
      a window old. */
  lemma {:induction false} ClosedLimitHoldsIff(limit: int, window: real, clock: real, h: seq<Rec>, events: seq<Event>)
    requires window > 0.0 && UpTo(h, clock) && Monotone(clock, events) && HoldsClosed(limit, window, h)
    ensures HoldsClosed(limit, window, Recorded(h, events)) <==> RecordsWouldPassClosed(limit, window, h, events)
    decreases |events|
  {
    if events != [] {
      var t := events[0].time;
      if events[0].CheckAt? {
        ClosedLimitHoldsIff(limit, window, t, h, events[1..]);
      } else {
        ClosedStep(limit, window, h, t);
        if PassesClosed(limit, window, h, t) {
          ClosedLimitHoldsIff(limit, window, t, h + [Rec(t, 1)], events[1..]);
        } else {
          ClosedOnlyGrows(limit, window, h + [Rec(t, 1)], events[1..]);
        }
      }
    }
  }

  // --- The buckets ---

  function After(times: seq<real>, cutoff: real): seq<real> {
    if times == [] then [] else (if times[0] > cutoff then [times[0]] else []) + After(times[1..], cutoff)
  }

  /** A list of times as records that count one each. */
  function Ones(times: seq<real>): (r: seq<Rec>)
    ensures |r| == |times| && Units(r)
  {
    seq(|times|, i requires 0 <= i < |times| => Rec(times[i], 1))
  }

  lemma {:induction false} AfterIsRecent(times: seq<real>, cutoff: real)
    ensures Ones(After(times, cutoff)) == Recent(Ones(times), cutoff)
  {
    if times == [] {
    } else {
      AfterIsRecent(times[1..], cutoff);
      assert Ones(times)[1..] == Ones(times[1..]);
      var first := if times[0] > cutoff then [times[0]] else [];
      assert Ones(first + After(times[1..], cutoff)) == Ones(first) + Ones(After(times[1..], cutoff));
    }
  }

  lemma CountIsTotal(times: seq<real>, cutoff: real)
    ensures |After(times, cutoff)| == Total(Recent(Ones(times), cutoff))
  {
    AfterIsRecent(times, cutoff);
    UnitTotal(Ones(After(times, cutoff)));
  }

  lemma {:induction false} AfterAgain(times: seq<real>, earlier: real, later: real)
    requires earlier <= later
    ensures After(After(times, earlier), later) == After(times, later)
  {
    if times != [] {
      AfterAgain(times[1..], earlier, later);
      var rest := After(times[1..], earlier);
      assert ([times[0]] + rest)[1..] == rest && [] + rest == rest;
    }
  }

  lemma {:induction false} AfterAppend(times: seq<real>, t: real, cutoff: real)
    ensures After(times + [t], cutoff) == After(times, cutoff) + if t > cutoff then [t] else []
  {
    if times == [] {
      assert times + [t] == [t] && [t][1..] == [];
    } else {
      assert (times + [t])[1..] == times[1..] + [t];
      AfterAppend(times[1..], t, cutoff);
    }
  }

  /** The timestamps of one peer: what is left of its history after the last cutoff. */
  class BucketState {
    var timestamps: seq<real>
    ghost var history: seq<real>
    ghost var cutoff: real

    ghost predicate Valid()
      reads this
    {
      timestamps == After(history, cutoff)
    }

    constructor (ghost cutoff: real)
      ensures Valid() && history == [] && this.cutoff == cutoff
    {
      this.timestamps := [];
      this.history := [];
      this.cutoff := cutoff;
    }

    /** The lazily pruned list gives the count over the whole history. */
    method CountInWindow(window: real, now: real) returns (count: nat)
      requires Valid() && cutoff <= now - window
      modifies this
      ensures Valid() && history == old(history) && cutoff == now - window
      ensures count == Total(Recent(Ones(history), now - window))
    {
      AfterAgain(history, cutoff, now - window);
      CountIsTotal(history, now - window);
      timestamps := After(timestamps, now - window);
      cutoff := now - window;
      count := |timestamps|;
    }

    method Record(now: real)
      requires Valid() && cutoff < now
      modifies this
      ensures Valid() && history == old(history) + [now] && cutoff == old(cutoff)
    {
      AfterAppend(history, now, cutoff);
      timestamps := timestamps + [now];
      history := history + [now];
    }
  }

  /** One limited resource of the limiter: inference requests, training rounds, proposals or data submissions,
      each with its own window, limit and buckets; `clock` is the last reading of the clock. */
  class Resource {
    const window: real
    const limit: int
    var buckets: map<string, BucketState>
    ghost var clock: real

    ghost predicate Valid()
      reads this, buckets.Values
    {
      && window > 0.0
      && (forall p, q | p in buckets && q in buckets && p != q :: buckets[p] != buckets[q])
      && (forall p | p in buckets :: buckets[p].Valid() && buckets[p].cutoff <= clock - window)
    }

    /** Old buckets stay where they are; others are new. */
    twostate predicate Grown()
      reads this
    {
      && (forall p | p in old(buckets) :: p in buckets && buckets[p] == old(buckets[p]))
      && (forall p | p in buckets :: p in old(buckets) || fresh(buckets[p]))
    }

    ghost function History(peer: string): seq<real>
      reads this, buckets.Values
    {
      if peer in buckets then buckets[peer].history else []
    }

    constructor (window: real, limit: int, ghost now: real)
      requires window > 0.0
      ensures Valid() && this.window == window && this.limit == limit && clock == now
      ensures forall p :: History(p) == []
    {
      this.window := window;
      this.limit := limit;
      this.buckets := map[];
      this.clock := now;
    }

    /** `_get_bucket`: made on demand. */
    method GetBucket(peer: string, now: real) returns (bucket: BucketState)
      requires Valid() && clock <= now
      modifies this
      ensures Valid() && clock == now && peer in buckets && bucket == buckets[peer]
      ensures Grown() && forall p :: History(p) == old(History(p))
    {
      if peer !in buckets {
        bucket := new BucketState(now - window);
        buckets := buckets[peer := bucket];
      }
      clock := now;
      bucket := buckets[peer];
    }

    method Count(bucket: BucketState, ghost peer: string, now: real) returns (count: nat)
      requires Valid() && clock == now && peer in buckets && bucket == buckets[peer]
      modifies bucket
      ensures Valid() && forall p :: History(p) == old(History(p))
      ensures count == Total(Recent(Ones(History(peer)), now - window))
    {
      count := bucket.CountInWindow(window, now);
    }

    /** `check_inference` and its siblings: contributors are never refused. */
    method Check(peer: string, contributor: bool, now: real) returns (allowed: bool)
      requires Valid() && clock <= now
      modifies this, buckets.Values
      ensures Valid() && clock <= now
      ensures allowed <==> contributor || Passes(limit, window, Ones(old(History(peer))), now)
      ensures Grown() && forall p :: History(p) == old(History(p))
    {
      if contributor {
        return true;
      }
      var bucket := GetBucket(peer, now);
      var count := Count(bucket, peer, now);
      allowed := !(limit > 0 && count >= limit);
    }

    /** `record_inference` and its siblings. */
    method Record(peer: string, now: real)
      requires Valid() && clock <= now
      modifies this, buckets.Values
      ensures Valid() && Grown() && clock == now
      ensures forall p :: History(p) == old(History(p)) + if p == peer then [now] else []
    {
      var bucket := GetBucket(peer, now);
      bucket.Record(now);
    }

    /** A limited request as the documentation prescribes it: check, serve, record. */
    method Serve(peer: string, checkTime: real, recordTime: real) returns (served: bool)
      requires Valid() && clock <= checkTime <= recordTime
      modifies this, buckets.Values
      ensures Valid() && Grown() && clock <= recordTime
      ensures served <==> Passes(limit, window, Ones(old(History(peer))), checkTime)
      ensures History(peer) == old(History(peer)) + if served then [recordTime] else []
      ensures Ones(History(peer)) == Served(limit, window, Ones(old(History(peer))), Request(checkTime, recordTime, 1))
      ensures forall p | p != peer :: History(p) == old(History(p))
    {
      ghost var before := History(peer);
      served := Check(peer, false, checkTime);
      if served {
        Record(peer, recordTime);
        assert Ones(before + [recordTime]) == Ones(before) + [Rec(recordTime, 1)];
      }
    }
  }

  /** A check passes without a limit, and otherwise if what was recorded within the window up to now stays below it. */
  lemma PassesIff(limit: int, window: real, h: seq<Rec>, now: real)
    requires UpTo(h, now)
    ensures Passes(limit, window, h, now) <==> limit <= 0 || Total(Within(h, Window(now - window, window, OpenLeft))) < limit
  {
    WithinIsRecent(h, now, window);
  }

  // --- Two runs of the program that overfill a window ---

  function Copies(t: real, n: nat): (r: seq<real>)
    ensures |r| == n
  {
    seq(n, _ => t)
  }

  lemma {:induction false} CopiesWithin(t: real, n: nat, w: Window)
    ensures |Within(Ones(Copies(t, n)), w)| == if Inside(w, t) then n else 0
  {
    if n > 0 {
      CopiesWithin(t, n - 1, w);
      assert Ones(Copies(t, n))[1..] == Ones(Copies(t, n - 1));
    }
  }

  lemma {:induction false} CopiesRecent(t: real, n: nat, cutoff: real)
    ensures Total(Recent(Ones(Copies(t, n)), cutoff)) == if t > cutoff then n else 0
  {
    if n > 0 {
      CopiesRecent(t, n - 1, cutoff);
      assert Ones(Copies(t, n))[1..] == Ones(Copies(t, n - 1));
      TotalConcat(if t > cutoff then [Rec(t, 1)] else [], Recent(Ones(Copies(t, n - 1)), cutoff));
    }
  }

  /** Checking ahead: one check more than the limit allows passes before the first record, and the records
      then put one request too many into a half-open window. */
  method OverfillByCheckingAhead(r: Resource, peer: string, now: real) returns (passed: nat)
    requires r.Valid() && r.clock <= now && r.limit > 0 && r.History(peer) == []
    modifies r, r.buckets.Values
    ensures passed == r.limit + 1
    ensures |Within(Ones(r.History(peer)), Window(now, r.window, OpenRight))| == r.limit + 1
  {
    passed := 0;
    for i := 0 to r.limit + 1
      invariant r.Valid() && r.Grown() && r.clock <= now && r.History(peer) == [] && passed == i
    {
      var allowed := r.Check(peer, false, now);
      if allowed {
        passed := passed + 1;
      }
    }
    for i := 0 to passed
      invariant r.Valid() && r.Grown() && r.clock <= now && r.History(peer) == Copies(now, i)
    {
      assert Copies(now, i + 1) == Copies(now, i) + [now];
      r.Record(peer, now);
    }
    CopiesWithin(now, passed, Window(now, r.window, OpenRight));
  }

  lemma CopiesTotal(before: seq<real>, t: real, n: nat, cutoff: real)
    requires t > cutoff
    ensures Total(Recent(Ones(before + Copies(t, n)), cutoff)) == Total(Recent(Ones(before), cutoff)) + n
  {
    assert Ones(before + Copies(t, n)) == Ones(before) + Ones(Copies(t, n));
    RecentConcat(Ones(before), Ones(Copies(t, n)), cutoff);
    TotalConcat(Recent(Ones(before), cutoff), Recent(Ones(Copies(t, n)), cutoff));
    CopiesRecent(t, n, cutoff);
  }

  lemma CopiesPass(limit: int, window: real, before: seq<real>, now: real, i: nat)
    requires i < limit && window > 0.0 && Total(Recent(Ones(before), now - window)) == 0
    ensures Passes(limit, window, Ones(before + Copies(now, i)), now)
    ensures before + Copies(now, i) + [now] == before + Copies(now, i + 1)
  {
    CopiesTotal(before, now, i, now - window);
    assert Copies(now, i) + [now] == Copies(now, i + 1);
  }

  method ServeCopies(r: Resource, peer: string, now: real, ghost before: seq<real>)
    requires r.Valid() && r.clock <= now && r.limit > 0 && r.History(peer) == before
    requires Total(Recent(Ones(before), now - r.window)) == 0
    modifies r, r.buckets.Values
    ensures r.Valid() && r.Grown() && r.clock <= now && r.History(peer) == before + Copies(now, r.limit)
  {
    for i := 0 to r.limit
      invariant r.Valid() && r.Grown() && r.clock <= now && r.History(peer) == before + Copies(now, i)
    {
      CopiesPass(r.limit, r.window, before, now, i);
      var served := r.Serve(peer, now, now);
    }
  }

  lemma BurstsWithin(first: real, second: real, n: nat, w: Window)
    requires Inside(w, first) && Inside(w, second)
    ensures |Within(Ones(Copies(first, n) + Copies(second, n)), w)| == 2 * n
  {
    assert Ones(Copies(first, n) + Copies(second, n)) == Ones(Copies(first, n)) + Ones(Copies(second, n));
    WithinConcat(Ones(Copies(first, n)), Ones(Copies(second, n)), w);
    CopiesWithin(first, n, w);
    CopiesWithin(second, n, w);
  }

  /** Two bursts exactly a window apart, every record after its own passing check: the closed window holds twice the limit. */
  method FillClosedWindow(r: Resource, peer: string, now: real)
    requires r.Valid() && r.clock <= now && r.limit > 0 && r.History(peer) == []
    modifies r, r.buckets.Values
    ensures |Within(Ones(r.History(peer)), Window(now, r.window, Closed))| == 2 * r.limit
  {
    var n, later, w := r.limit, now + r.window, Window(now, r.window, Closed);
    ServeCopies(r, peer, now, []);
    assert [] + Copies(now, n) == Copies(now, n);
    CopiesRecent(now, n, later - r.window);
    ServeCopies(r, peer, later, Copies(now, n));
    BurstsWithin(now, later, n, w);
  }

  /** The list is what some cutoff, no later than `latest`, has left of the history. */
  ghost predicate Pruned(list: seq<Rec>, history: seq<Rec>, latest: real) {
    exists c :: c <= latest && list == Recent(history, c)
  }

  lemma PrunedAgain(list: seq<Rec>, history: seq<Rec>, latest: real, cutoff: real)
    requires list == history || Pruned(list, history, latest)
    requires latest <= cutoff
    ensures Recent(list, cutoff) == Recent(history, cutoff) && Pruned(Recent(list, cutoff), history, cutoff)
  {
    if list != history {
      var c :| c <= latest && list == Recent(history, c);
      PruningIsHarmless(history, c, cutoff);
    }
  }

  lemma PrunedLater(counts: map<string, seq<Rec>>, histories: map<string, seq<Rec>>, latest: real, later: real)
    requires counts.Keys == histories.Keys && latest <= later
    requires forall p | p in counts :: Pruned(counts[p], histories[p], latest)
    ensures forall p | p in counts :: Pruned(counts[p], histories[p], later)
  {
  }

  lemma PrunedAppend(list: seq<Rec>, history: seq<Rec>, latest: real, x: Rec)
    requires (list == [] && history == []) || Pruned(list, history, latest)
    requires x.time > latest
    ensures Pruned(list + [x], history + [x], latest)
  {
    var c: real;
    if list == [] && history == [] {
      c := latest;
    } else {
      c :| c <= latest && list == Recent(history, c);
    }
    RecentConcat(history, [x], c);
    RecentSingle(x, c);
    assert list + [x] == Recent(history + [x], c);
  }

  /** The hourly token budget: pairs of time and count, pruned at every check. */
  class TokenBudget {
    const limit: int
    var counts: map<string, seq<Rec>>
    ghost var histories: map<string, seq<Rec>>
    ghost var clock: real

    ghost predicate Valid()
      reads this
    {
      && counts.Keys == histories.Keys
      && forall p | p in counts :: Pruned(counts[p], histories[p], clock - 3600.0)
    }

    ghost function History(peer: string): seq<Rec>
      reads this
    {
      if peer in histories then histories[peer] else []
    }

    constructor (limit: int, ghost now: real)
      ensures Valid() && this.limit == limit && clock == now && histories == map[]
    {
      this.limit := limit;
      this.counts := map[];
      this.histories := map[];
      this.clock := now;
    }

    method Prune(peer: string, now: real) returns (pairs: seq<Rec>)
      requires Valid() && clock <= now
      modifies this
      ensures Valid() && clock == now && forall p :: History(p) == old(History(p))
      ensures pairs == Recent(old(History(peer)), now - 3600.0)
    {
      var cutoff := now - 3600.0;
      var kept := if peer in counts then counts[peer] else [];
      PrunedAgain(kept, History(peer), clock - 3600.0, cutoff);
      PrunedLater(counts, histories, clock - 3600.0, cutoff);
      pairs := Recent(kept, cutoff);
      histories := histories[peer := History(peer)];
      counts := counts[peer := pairs];
      clock := now;
    }

    method CheckTokens(peer: string, contributor: bool, now: real) returns (allowed: bool)
      requires Valid() && clock <= now
      modifies this
      ensures Valid() && clock <= now
      ensures allowed <==> contributor || Passes(limit, 3600.0, old(History(peer)), now)
      ensures forall p :: History(p) == old(History(p))
    {
      if contributor {
        return true;
      }
      var pairs := Prune(peer, now);
      allowed := !(limit > 0 && Total(pairs) >= limit);
    }

    /** The token part of `record_inference`: nothing is recorded for no tokens. */
    method RecordTokens(peer: string, tokens: nat, now: real)
      requires Valid() && clock <= now
      modifies this
      ensures Valid() && clock == now
      ensures forall p :: History(p) == old(History(p)) + if p == peer && tokens > 0 then [Rec(now, tokens)] else []
    {
      PrunedLater(counts, histories, clock - 3600.0, now - 3600.0);
      clock := now;
      if tokens > 0 {
        var kept := if peer in counts then counts[peer] else [];
        PrunedAppend(kept, History(peer), now - 3600.0, Rec(now, tokens));
        histories := histories[peer := History(peer) + [Rec(now, tokens)]];
        counts := counts[peer := kept + [Rec(now, tokens)]];
      }
    }
  }

  /** A run that overspends: one check passes, and its record alone exceeds the limit by any amount. */
  method OverspendTokens(b: TokenBudget, peer: string, excess: nat, now: real) returns (allowed: bool)
    requires b.Valid() && b.clock <= now && b.limit > 0 && b.History(peer) == [] && excess > 0
    modifies b
    ensures allowed && b.Valid() && b.History(peer) == [Rec(now, b.limit + excess)]
    ensures Limited(b.limit, 3600.0, b.History(peer)) && !InBudget(b.limit, 3600.0, b.History(peer))
  {
    allowed := b.CheckTokens(peer, false, now);
    b.RecordTokens(peer, b.limit + excess, now);
    ghost var h := b.History(peer);
    assert h[..0] == [] && Total(Recent(h[..0], now - 3600.0)) == 0;
    LimitedIff(b.limit, 3600.0, h);
    InBudgetIff(b.limit, 3600.0, h);
  }

  /** A run that checks ahead: two checks pass before the first record, and then a window reaches the limit before its last. */
  method OverspendByCheckingAhead(b: TokenBudget, peer: string, now: real) returns (first: bool, second: bool)
    requires b.Valid() && b.clock <= now && b.limit > 0 && b.History(peer) == []
    modifies b
    ensures first && second && b.Valid() && b.History(peer) == [Rec(now, b.limit), Rec(now, b.limit)]
    ensures !Limited(b.limit, 3600.0, b.History(peer))
  {
    first := b.CheckTokens(peer, false, now);
    second := b.CheckTokens(peer, false, now);
    b.RecordTokens(peer, b.limit, now);
    b.RecordTokens(peer, b.limit, now);
    ghost var h := b.History(peer);
    assert h[..1] == [Rec(now, b.limit)];
    RecentSingle(h[0], now - 3600.0);
    assert Total(Recent(h[..1], now - 3600.0)) == b.limit;
    LimitedIff(b.limit, 3600.0, h);
  }
}
