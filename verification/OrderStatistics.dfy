/** What survives in the middle of a sorted list when some of its entries are adversarial. */
module OrderStatistics {
  import opened Sums
  import opened Sorting

  function Less(bound: real): real -> bool {
    x => x < bound
  }

  function Greater(bound: real): real -> bool {
    x => x > bound
  }

  /** Every value outside the bad positions lies between `lo` and `hi`. */
  ghost predicate Honest(col: seq<real>, bad: set<nat>, lo: real, hi: real) {
    forall i: nat | i < |col| && i !in bad :: lo <= col[i] <= hi
  }

  lemma CountPrefix<T>(s: seq<T>, p: T -> bool, m: nat)
    requires m <= |s| && forall i | 0 <= i < m :: p(s[i])
    ensures Count(s, p) >= m
  {
    CountConcat(s[..m], s[m..], p);
    assert s == s[..m] + s[m..];
    CountAll(s[..m], p);
  }

  lemma CountSuffix<T>(s: seq<T>, p: T -> bool, m: nat)
    requires m <= |s| && forall i | m <= i < |s| :: p(s[i])
    ensures Count(s, p) >= |s| - m
  {
    CountConcat(s[..m], s[m..], p);
    assert s == s[..m] + s[m..];
    CountAll(s[m..], p);
  }

  lemma RealSort(col: seq<real>)
    ensures Sorted(RealLe, Sort(RealLe, col)) && |Sort(RealLe, col)| == |col|
    ensures multiset(Sort(RealLe, col)) == multiset(col)
    ensures forall i, j | 0 <= i <= j < |col| :: Sort(RealLe, col)[i] <= Sort(RealLe, col)[j]
  {
    RealLeOrder();
    SortSorts(RealLe, col);
    SortPermutes(RealLe, col);
    var s := Sort(RealLe, col);
    forall i, j | 0 <= i <= j < |col| ensures s[i] <= s[j] {
      if i < j { assert RealLe(s[i], s[j]); }
    }
  }

  /** At most `c` values below `lo`: from place `c` on the sorted list is at least `lo`. */
  lemma LowerStatistic(col: seq<real>, lo: real, c: nat, j: nat)
    requires Count(col, Less(lo)) <= c <= j < |col|
    ensures |Sort(RealLe, col)| == |col| && lo <= Sort(RealLe, col)[j]
  {
    var s := Sort(RealLe, col);
    RealSort(col);
    CountPermutation(s, col, Less(lo));
    if s[j] < lo { CountPrefix(s, Less(lo), j + 1); }
  }

  lemma UpperStatistic(col: seq<real>, hi: real, c: nat, j: nat)
    requires Count(col, Greater(hi)) <= c && j + c < |col|
    ensures |Sort(RealLe, col)| == |col| && Sort(RealLe, col)[j] <= hi
  {
    var s := Sort(RealLe, col);
    RealSort(col);
    CountPermutation(s, col, Greater(hi));
    if s[j] > hi { CountSuffix(s, Greater(hi), j); }
  }

  /** Fewer bad entries than places on either side: the statistic is an honest value's neighbour. */
  lemma OrderStatistic(col: seq<real>, bad: set<nat>, lo: real, hi: real, j: nat)
    requires Honest(col, bad, lo, hi) && |bad| <= j && j + |bad| < |col|
    ensures |Sort(RealLe, col)| == |col| && lo <= Sort(RealLe, col)[j] <= hi
  {
    CountWithin(col, Less(lo), bad);
    CountWithin(col, Greater(hi), bad);
    LowerStatistic(col, lo, |bad|, j);
    UpperStatistic(col, hi, |bad|, j);
  }

  // --- The two rules on one coordinate ---

  lemma SortLength(col: seq<real>)
    ensures |Sort(RealLe, col)| == |col|
  {
    SortPermutes(RealLe, col);
  }

  /** The sorted values without `trim` of them at either end. */
  function Kept(col: seq<real>, trim: nat): (r: seq<real>)
    requires |col| > 2 * trim
    ensures |r| == |col| - 2 * trim
  {
    SortLength(col);
    Sort(RealLe, col)[trim..|col| - trim]
  }

  function TrimmedMean(trim: nat): seq<real> -> real {
    col => if |col| > 2 * trim then Mean(Kept(col, trim)) else 0.0
  }

  lemma KeptValid(col: seq<real>, bad: set<nat>, trim: nat, lo: real, hi: real)
    requires Honest(col, bad, lo, hi) && |bad| <= trim && |col| > 2 * trim
    ensures forall i | 0 <= i < |Kept(col, trim)| :: lo <= Kept(col, trim)[i] <= hi
  {
    forall i | 0 <= i < |Kept(col, trim)| ensures lo <= Kept(col, trim)[i] <= hi {
      OrderStatistic(col, bad, lo, hi, trim + i);
    }
  }

  /** `torch.median`: the lower of the two middle values when their number is even. */
  function LowerMedian(): seq<real> -> real {
    col => if col != [] then SortLength(col); Sort(RealLe, col)[(|col| - 1) / 2] else 0.0
  }

  lemma TrimmedMeanValid(col: seq<real>, bad: set<nat>, trim: nat, lo: real, hi: real)
    requires Honest(col, bad, lo, hi) && |bad| <= trim && |col| > 2 * trim
    ensures lo <= TrimmedMean(trim)(col) <= hi
  {
    KeptValid(col, bad, trim, lo, hi);
    MeanBounds(Kept(col, trim), lo, hi);
  }

  lemma LowerMedianValid(col: seq<real>, bad: set<nat>, lo: real, hi: real)
    requires Honest(col, bad, lo, hi) && 2 * |bad| < |col|
    ensures lo <= LowerMedian()(col) <= hi
  {
    OrderStatistic(col, bad, lo, hi, (|col| - 1) / 2);
  }

  // --- What the two rules compute ---

  predicate AllBelow(a: seq<real>, b: seq<real>) {
    forall i, j | 0 <= i < |a| && 0 <= j < |b| :: a[i] <= b[j]
  }

  lemma SortedAllBelow(a: seq<real>, b: seq<real>)
    requires AllBelow(a, b)
    ensures AllBelow(Sort(RealLe, a), Sort(RealLe, b))
  {
    var x, y := Sort(RealLe, a), Sort(RealLe, b);
    SortMembers(RealLe, a);
    SortMembers(RealLe, b);
    forall i, j | 0 <= i < |x| && 0 <= j < |y| ensures x[i] <= y[j] {
      assert x[i] in x && y[j] in y;
      assert x[i] in a && y[j] in b;
    }
  }

  lemma JoinedSorted(a: seq<real>, b: seq<real>)
    requires Sorted(RealLe, a) && Sorted(RealLe, b) && AllBelow(a, b)
    ensures Sorted(RealLe, a + b)
  {
    var s := a + b;
    forall i, j | 0 <= i < j < |s| ensures RealLe(s[i], s[j]) {
      if j < |a| { assert RealLe(a[i], a[j]); }
      if |a| <= i { assert RealLe(b[i - |a|], b[j - |a|]); }
    }
  }

  /** Sorting a list made of a lower and an upper part sorts the parts. */
  lemma SortSplits(col: seq<real>, a: seq<real>, b: seq<real>)
    requires multiset(col) == multiset(a + b) && AllBelow(a, b)
    ensures Sort(RealLe, col) == Sort(RealLe, a) + Sort(RealLe, b)
    ensures |Sort(RealLe, a)| == |a| && |Sort(RealLe, b)| == |b|
  {
    RealSort(col);
    RealSort(a);
    RealSort(b);
    SortedAllBelow(a, b);
    JoinedSorted(Sort(RealLe, a), Sort(RealLe, b));
    RealLeOrder();
    SortedUnique(RealLe, Sort(RealLe, col), Sort(RealLe, a) + Sort(RealLe, b));
  }

  lemma JoinedBelow(low: seq<real>, mid: seq<real>, high: seq<real>)
    requires AllBelow(low, high) && AllBelow(mid, high)
    ensures AllBelow(low + mid, high)
  {
  }

  lemma SortSplitsInThree(col: seq<real>, low: seq<real>, mid: seq<real>, high: seq<real>)
    requires multiset(col) == multiset(low + mid + high) && AllBelow(low, mid) && AllBelow(low, high) && AllBelow(mid, high)
    ensures Sort(RealLe, col) == Sort(RealLe, low) + Sort(RealLe, mid) + Sort(RealLe, high)
    ensures |Sort(RealLe, low)| == |low| && |Sort(RealLe, mid)| == |mid| && |Sort(RealLe, high)| == |high|
  {
    SortSplits(low + mid, low, mid);
    JoinedBelow(low, mid, high);
    SortSplits(col, low + mid, high);
  }

  /** The trimmed mean is the mean of the values left when the `trim` lowest and the `trim` highest are taken away. */
  lemma TrimmedMeanIs(col: seq<real>, low: seq<real>, mid: seq<real>, high: seq<real>)
    requires multiset(col) == multiset(low + mid + high) && |low| == |high| && mid != []
    requires AllBelow(low, mid) && AllBelow(low, high) && AllBelow(mid, high)
    ensures TrimmedMean(|low|)(col) == Mean(mid)
  {
    SortSplitsInThree(col, low, mid, high);
    RealSort(mid);
    RealSort(col);
    var s := Sort(RealLe, low) + Sort(RealLe, mid) + Sort(RealLe, high);
    assert |s| == |low| + |mid| + |high| == |col|;
    assert s[|low|..|col| - |low|] == Sort(RealLe, mid);
    assert Kept(col, |low|) == Sort(RealLe, mid);
    SumPermutation(Sort(RealLe, mid), mid);
  }

  /** The median is the value with as many values below it as above it, or one more above. */
  lemma LowerMedianIs(col: seq<real>, low: seq<real>, middle: real, high: seq<real>)
    requires multiset(col) == multiset(low + [middle] + high) && |low| <= |high| <= |low| + 1
    requires AllBelow(low, [middle]) && AllBelow(low, high) && AllBelow([middle], high)
    ensures LowerMedian()(col) == middle
  {
    SortSplitsInThree(col, low, [middle], high);
    RealSort([middle]);
    RealSort(col);
    SortMembers(RealLe, [middle]);
    assert Sort(RealLe, [middle])[0] in Sort(RealLe, [middle]);
    assert Sort(RealLe, col)[|low|] == middle;
  }

  // --- No rule of this kind does better ---

  /** Whatever `b` adversaries send among `n` values, the rule stays within the honest ones. */
  ghost predicate Robust(rule: seq<real> -> real, n: nat, b: nat) {
    forall col: seq<real>, bad: set<nat>, lo: real, hi: real
      | |col| == n && |bad| <= b && Honest(col, bad, lo, hi) :: lo <= rule(col) <= hi
  }

  /** `b` values of `v` in front of zeros. */
  ghost function Attack(n: nat, b: nat, v: real): (r: seq<real>)
    requires b <= n
    ensures |r| == n
  {
    seq(n, i requires 0 <= i < n => if i < b then v else 0.0)
  }

  lemma AttackCounts(n: nat, b: nat, v: real, p: real -> bool)
    requires b <= n && p(v) && !p(0.0)
    ensures Count(Attack(n, b, v), p) == b
  {
    var s := Attack(n, b, v);
    CountConcat(s[..b], s[b..], p);
    assert s == s[..b] + s[b..];
    CountAll(s[..b], p);
    CountAll(s[b..], p);
  }

  /** If no element up to place `j` counts, at most the later ones do. */
  lemma CountTail<T>(s: seq<T>, p: T -> bool, j: nat)
    requires j < |s|
    ensures (forall i | 0 <= i <= j :: !p(s[i])) ==> Count(s, p) <= |s| - 1 - j
  {
    CountConcat(s[..j + 1], s[j + 1..], p);
    assert s == s[..j + 1] + s[j + 1..];
    CountAll(s[..j + 1], p);
    CountAll(s[j + 1..], p);
  }

  lemma CountHead<T>(s: seq<T>, p: T -> bool, j: nat)
    requires j < |s|
    ensures (forall i | j <= i < |s| :: !p(s[i])) ==> Count(s, p) <= j
  {
    CountConcat(s[..j], s[j..], p);
    assert s == s[..j] + s[j..];
    CountAll(s[..j], p);
    CountAll(s[j..], p);
  }

  lemma AttackHonest(n: nat, b: nat, v: real)
    requires b <= n
    ensures Honest(Attack(n, b, v), Range(b), 0.0, 0.0)
  {
  }

  lemma {:induction false} SumNonNegative(s: seq<real>)
    requires forall i | 0 <= i < |s| :: 0.0 <= s[i]
    ensures Sum(s) >= 0.0
  {
    if s == [] {
    } else {
      SumNonNegative(s[1..]);
    }
  }

  lemma PositiveMean(s: seq<real>)
    requires |s| > 0 && Sum(s) > 0.0
    ensures Mean(s) > 0.0
  {
  }

  lemma SortedSigns(col: seq<real>, trim: nat)
    requires trim < |col| && Count(col, Greater(0.0)) > trim && forall i | 0 <= i < |col| :: col[i] >= 0.0
    ensures |Sort(RealLe, col)| == |col| && Sort(RealLe, col)[|col| - trim - 1] > 0.0
    ensures forall i | 0 <= i < |col| :: Sort(RealLe, col)[i] >= 0.0
  {
    var s := Sort(RealLe, col);
    RealSort(col);
    SortMembers(RealLe, col);
    forall i | 0 <= i < |col| ensures s[i] >= 0.0 { assert s[i] in s; }
    CountPermutation(s, col, Greater(0.0));
    CountTail(s, Greater(0.0), |col| - trim - 1);
  }

  predicate PulledUp(s: seq<real>) {
    s != [] && s[|s| - 1] > 0.0 && forall i | 0 <= i < |s| :: s[i] >= 0.0
  }

  lemma SlicePulledUp(s: seq<real>, n: nat, trim: nat)
    requires |s| == n > 2 * trim && s[n - trim - 1] > 0.0 && forall i | 0 <= i < n :: s[i] >= 0.0
    ensures PulledUp(s[trim..n - trim])
  {
  }

  lemma PulledMean(s: seq<real>)
    requires PulledUp(s)
    ensures Mean(s) > 0.0
  {
    var last := |s| - 1;
    assert s == s[..last] + [s[last]];
    SumConcat(s[..last], [s[last]]);
    assert [s[last]][1..] == [];
    SumNonNegative(s[..last]);
    PositiveMean(s);
  }

  lemma KeptMean(col: seq<real>, trim: nat)
    requires |col| > 2 * trim
    ensures TrimmedMean(trim)(col) == Mean(Kept(col, trim))
  {
  }

  lemma SortedPulledUp(col: seq<real>, trim: nat)
    requires |col| > 2 * trim && Count(col, Greater(0.0)) > trim && forall i | 0 <= i < |col| :: col[i] >= 0.0
    ensures |Sort(RealLe, col)| == |col| && PulledUp(Sort(RealLe, col)[trim..|col| - trim])
  {
    SortedSigns(col, trim);
    SlicePulledUp(Sort(RealLe, col), |col|, trim);
  }

  lemma KeptSigns(col: seq<real>, trim: nat)
    requires |col| > 2 * trim && Count(col, Greater(0.0)) > trim && forall i | 0 <= i < |col| :: col[i] >= 0.0
    ensures PulledUp(Kept(col, trim))
  {
    SortedPulledUp(col, trim);
  }

  lemma KeptPulled(col: seq<real>, trim: nat)
    requires |col| > 2 * trim && Count(col, Greater(0.0)) > trim && forall i | 0 <= i < |col| :: col[i] >= 0.0
    ensures Mean(Kept(col, trim)) > 0.0
  {
    KeptSigns(col, trim);
    PulledMean(Kept(col, trim));
  }

  /** One value more above zero than is trimmed, and none below, pull the trimmed mean above zero. */
  lemma TrimmedMeanPulled(col: seq<real>, trim: nat)
    requires |col| > 2 * trim && Count(col, Greater(0.0)) > trim
    requires forall i | 0 <= i < |col| :: col[i] >= 0.0
    ensures TrimmedMean(trim)(col) > 0.0
  {
    KeptPulled(col, trim);
    KeptMean(col, trim);
  }

  lemma TrimmedMeanBroken(n: nat, trim: nat)
    requires n > 2 * trim
    ensures TrimmedMean(trim)(Attack(n, trim + 1, 1.0)) > 0.0
  {
    AttackCounts(n, trim + 1, 1.0, Greater(0.0));
    TrimmedMeanPulled(Attack(n, trim + 1, 1.0), trim);
  }

  /** Values below zero in half the places or more pull the lower median below zero. */
  lemma LowerMedianPulled(col: seq<real>)
    requires col != [] && 2 * Count(col, Less(0.0)) >= |col|
    ensures LowerMedian()(col) < 0.0
  {
    RealSort(col);
    CountPermutation(Sort(RealLe, col), col, Less(0.0));
    CountHead(Sort(RealLe, col), Less(0.0), (|col| - 1) / 2);
  }

  /** The trimmed mean withstands exactly as many adversaries as it trims from each end. */
  lemma TrimmedMeanRobustIff(n: nat, trim: nat, b: nat)
    requires n > 2 * trim
    ensures Robust(TrimmedMean(trim), n, b) <==> b <= trim
  {
    if b <= trim {
      forall col: seq<real>, bad: set<nat>, lo: real, hi: real | |col| == n && |bad| <= b && Honest(col, bad, lo, hi)
        ensures lo <= TrimmedMean(trim)(col) <= hi
      {
        TrimmedMeanValid(col, bad, trim, lo, hi);
      }
    } else {
      AttackHonest(n, trim + 1, 1.0);
      TrimmedMeanBroken(n, trim);
    }
  }

  /** The lower median withstands exactly a minority. */
  lemma LowerMedianRobustIff(n: nat, b: nat)
    requires n > 0
    ensures Robust(LowerMedian(), n, b) <==> 2 * b < n
  {
    if 2 * b < n {
      forall col: seq<real>, bad: set<nat>, lo: real, hi: real | |col| == n && |bad| <= b && Honest(col, bad, lo, hi)
        ensures lo <= LowerMedian()(col) <= hi
      {
        LowerMedianValid(col, bad, lo, hi);
      }
    } else {
      var half := (n + 1) / 2;
      AttackHonest(n, half, -1.0);
      AttackCounts(n, half, -1.0, Less(0.0));
      LowerMedianPulled(Attack(n, half, -1.0));
    }
  }
}
