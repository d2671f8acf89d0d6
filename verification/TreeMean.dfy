/** What a tree of rings computes on one coordinate: means of means, pushed back down to every place. */
module TreeMean {
  import opened Sums
  import opened Clusters

  /** One level up: the mean of every block. */
  function Up(vals: seq<real>, k: nat): (r: seq<real>)
    requires k > 0
    ensures |r| == CeilDiv(|vals|, k)
  {
    ChunkCount(vals, k);
    var chunks := Chunks(vals, k);
    seq(|chunks|, c requires 0 <= c < |chunks| => Mean(chunks[c]))
  }

  function UpTo(vals: seq<real>, k: nat, level: nat): (r: seq<real>)
    requires k > 0
    ensures |r| == CountAt(|vals|, k, level)
  {
    if level == 0 then vals else Up(UpTo(vals, k, level - 1), k)
  }

  /** The block that place `pos` belongs to after `levels` groupings. */
  function Climb(pos: nat, k: nat, levels: nat): nat
    requires k > 0
    decreases levels
  {
    if levels == 0 then pos else Climb(pos / k, k, levels - 1)
  }

  lemma DivMonotone(a: nat, b: nat, k: nat)
    requires k > 0 && a <= b
    ensures a / k <= b / k
  {
    var q, r, q', r' := a / k, a % k, b / k, b % k;
    assert a == q * k + r && b == q' * k + r';
    assert (q - q') * k == a - b + r' - r;
    if q - q' >= 1 { AtLeastOnce(q - q', k); }
  }

  lemma BlockInRange(pos: nat, n: nat, k: nat)
    requires k > 0 && pos < n
    ensures pos / k < CeilDiv(n, k)
  {
    LastBlock(n, k);
    DivMonotone(pos, n - 1, k);
  }

  lemma {:induction false} CountAtShift(n: nat, k: nat, levels: nat)
    requires k > 0 && levels > 0
    ensures CountAt(n, k, levels) == CountAt(CeilDiv(n, k), k, levels - 1)
  {
    if levels == 1 {
      assert CountAt(n, k, 1) == CeilDiv(CountAt(n, k, 0), k);
    } else {
      CountAtShift(n, k, levels - 1);
    }
  }

  lemma {:induction false} ClimbInRange(pos: nat, n: nat, k: nat, levels: nat)
    requires k > 0 && pos < n
    ensures Climb(pos, k, levels) < CountAt(n, k, levels)
    decreases levels
  {
    if levels == 0 {
    } else {
      BlockInRange(pos, n, k);
      ClimbInRange(pos / k, CeilDiv(n, k), k, levels - 1);
      CountAtShift(n, k, levels);
    }
  }

  /** The value that ends up at every place: the mean of the top-level block it climbs to. */
  function Spread(vals: seq<real>, k: nat, depth: nat): (r: seq<real>)
    requires k > 0
    ensures |r| == |vals|
  {
    seq(|vals|, pos requires 0 <= pos < |vals| =>
      ClimbInRange(pos, |vals|, k, depth); UpTo(vals, k, depth)[Climb(pos, k, depth)])
  }

  // --- Every result lies between the least and the greatest input ---

  lemma UpBounds(vals: seq<real>, k: nat, lo: real, hi: real)
    requires k > 0 && forall i | 0 <= i < |vals| :: lo <= vals[i] <= hi
    ensures forall c | 0 <= c < |Up(vals, k)| :: lo <= Up(vals, k)[c] <= hi
  {
    ChunkCount(vals, k);
    forall c | 0 <= c < |Up(vals, k)| ensures lo <= Up(vals, k)[c] <= hi {
      var chunk := Chunks(vals, k)[c];
      forall j | 0 <= j < |chunk| ensures lo <= chunk[j] <= hi {
        ChunkPlace(vals, k, c, j);
      }
      MeanBounds(chunk, lo, hi);
    }
  }

  lemma {:induction false} UpToBounds(vals: seq<real>, k: nat, level: nat, lo: real, hi: real)
    requires k > 0 && forall i | 0 <= i < |vals| :: lo <= vals[i] <= hi
    ensures forall i | 0 <= i < |UpTo(vals, k, level)| :: lo <= UpTo(vals, k, level)[i] <= hi
  {
    if level == 0 {
    } else {
      UpToBounds(vals, k, level - 1, lo, hi);
      UpBounds(UpTo(vals, k, level - 1), k, lo, hi);
    }
  }

  lemma SpreadBounds(vals: seq<real>, k: nat, depth: nat, lo: real, hi: real)
    requires k > 0 && forall i | 0 <= i < |vals| :: lo <= vals[i] <= hi
    ensures forall pos | 0 <= pos < |vals| :: lo <= Spread(vals, k, depth)[pos] <= hi
  {
    UpToBounds(vals, k, depth, lo, hi);
    forall pos | 0 <= pos < |vals| ensures lo <= Spread(vals, k, depth)[pos] <= hi {
      ClimbInRange(pos, |vals|, k, depth);
    }
  }

  // --- Agreement ---

  /** Every value is that of `w` at the place it climbs to. */
  ghost predicate Follows(vals: seq<real>, w: seq<real>, k: nat, levels: nat)
    requires k > 0
  {
    forall i | 0 <= i < |vals| :: Climb(i, k, levels) < |w| && vals[i] == w[Climb(i, k, levels)]
  }

  lemma PlaceInBlock(vals: seq<real>, k: nat, c: nat, j: nat) returns (pos: nat)
    requires k > 0 && c < |Chunks(vals, k)| && j < |Chunks(vals, k)[c]|
    ensures pos < |vals| && pos / k == c && Chunks(vals, k)[c][j] == vals[pos]
  {
    ChunkPlace(vals, k, c, j);
    pos := c * k + j;
  }

  /** A block of values that climb to one place averages to the value there. */
  lemma BlockFollows(below: seq<real>, w: seq<real>, k: nat, levels: nat, c: nat)
    requires k > 0 && Follows(below, w, k, levels + 1) && c < |Chunks(below, k)|
    ensures |Chunks(below, k)[c]| > 0 && Climb(c, k, levels) < |w|
    ensures Mean(Chunks(below, k)[c]) == w[Climb(c, k, levels)]
  {
    var chunk := Chunks(below, k)[c];
    ChunkCount(below, k);
    forall j | 0 <= j < |chunk| ensures Climb(c, k, levels) < |w| && chunk[j] == w[Climb(c, k, levels)] {
      var pos := PlaceInBlock(below, k, c, j);
      assert Climb(pos, k, levels + 1) == Climb(pos / k, k, levels);
    }
    var first := PlaceInBlock(below, k, c, 0);
    assert Climb(first, k, levels + 1) == Climb(c, k, levels);
    MeanConstant(chunk, w[Climb(c, k, levels)]);
  }

  lemma UpFollows(below: seq<real>, w: seq<real>, k: nat, levels: nat)
    requires k > 0 && Follows(below, w, k, levels + 1)
    ensures Follows(Up(below, k), w, k, levels)
  {
    ChunkCount(below, k);
    forall c | 0 <= c < |Up(below, k)| ensures Climb(c, k, levels) < |w| && Up(below, k)[c] == w[Climb(c, k, levels)] {
      BlockFollows(below, w, k, levels, c);
    }
  }

  /** Values constant on every top-level block come back unchanged. */
  lemma {:induction false} UpToFollows(vals: seq<real>, w: seq<real>, k: nat, depth: nat, level: nat)
    requires k > 0 && level <= depth && Follows(vals, w, k, depth)
    ensures Follows(UpTo(vals, k, level), w, k, depth - level)
    decreases level
  {
    if level > 0 {
      UpToFollows(vals, w, k, depth, level - 1);
      UpFollows(UpTo(vals, k, level - 1), w, k, depth - level);
    }
  }

  /** The last place climbs to the last block at every level, so a second top block is never empty. */
  lemma {:induction false} ClimbLast(n: nat, k: nat, levels: nat)
    requires k > 0 && n > 0
    ensures CountAt(n, k, levels) > 0
    ensures Climb(n - 1, k, levels) == CountAt(n, k, levels) - 1
    decreases levels
  {
    if levels == 0 {
    } else {
      LastBlock(n, k);
      ClimbLast(CeilDiv(n, k), k, levels - 1);
      CountAtShift(n, k, levels);
    }
  }

  lemma {:induction false} ClimbFirst(k: nat, levels: nat)
    requires k > 0
    ensures Climb(0, k, levels) == 0
  {
    if levels == 0 {
    } else {
      ClimbFirst(k, levels - 1);
    }
  }

  ghost predicate Agrees(vals: seq<real>, k: nat, depth: nat)
    requires k > 0
  {
    forall a, b | 0 <= a < |vals| && 0 <= b < |vals| :: Spread(vals, k, depth)[a] == Spread(vals, k, depth)[b]
  }

  lemma RoomMeansAgreement(vals: seq<real>, k: nat, depth: nat)
    requires k > 0 && |vals| <= Pow(k, depth)
    ensures Agrees(vals, k, depth)
  {
    if |vals| > 0 {
      SingleTop(|vals|, k, depth);
      forall a | 0 <= a < |vals| ensures Spread(vals, k, depth)[a] == UpTo(vals, k, depth)[0] {
        ClimbInRange(a, |vals|, k, depth);
      }
    }
  }

  /** An input on which a hierarchy without room for everybody splits the peers. */
  ghost function Split(n: nat, k: nat, depth: nat): (r: seq<real>)
    requires k > 0
    ensures |r| == n
  {
    seq(n, pos requires 0 <= pos < n => if Climb(pos, k, depth) == 0 then 1.0 else 0.0)
  }

  lemma NoRoomMeansSplit(n: nat, k: nat, depth: nat)
    requires k > 0 && n > Pow(k, depth)
    ensures !Agrees(Split(n, k, depth), k, depth)
  {
    var vals := Split(n, k, depth);
    var top := CountAt(n, k, depth);
    SingleTop(n, k, depth);
    ClimbLast(n, k, depth);
    ClimbFirst(k, depth);
    var w := seq(top, i requires 0 <= i < top => if i == 0 then 1.0 else 0.0);
    forall pos | 0 <= pos < n
      ensures Climb(pos, k, depth) < |w| && vals[pos] == w[Climb(pos, k, depth)]
    {
      ClimbInRange(pos, n, k, depth);
    }
    UpToFollows(vals, w, k, depth, depth);
    assert UpTo(vals, k, depth)[0] == w[Climb(0, k, 0)];
    assert UpTo(vals, k, depth)[top - 1] == w[Climb(top - 1, k, 0)];
    assert Spread(vals, k, depth)[0] == 1.0;
    assert Spread(vals, k, depth)[n - 1] == 0.0;
  }

  /** All peers end up equal on every input exactly when the hierarchy has room for all of them. */
  lemma AgreementIffRoom(n: nat, k: nat, depth: nat)
    requires k > 0
    ensures (forall vals | |vals| == n :: Agrees(vals, k, depth)) <==> n <= Pow(k, depth)
  {
    if n <= Pow(k, depth) {
      forall vals | |vals| == n ensures Agrees(vals, k, depth) { RoomMeansAgreement(vals, k, depth); }
    } else {
      NoRoomMeansSplit(n, k, depth);
    }
  }

  // --- When the tree computes the flat mean ---

  predicate EvenLevel(p: nat, k: nat)
    requires k > 0
  {
    p <= k || p % k == 0
  }

  /** Every level splits evenly, or fits into one cluster. */
  ghost predicate EvenLevels(n: nat, k: nat, depth: nat)
    requires k > 0
  {
    forall level | 0 <= level < depth :: EvenLevel(CountAt(n, k, level), k)
  }

  function BlockSums(vals: seq<real>, k: nat): (r: seq<real>)
    requires k > 0
    ensures |r| == CeilDiv(|vals|, k)
  {
    ChunkCount(vals, k);
    seq(|Chunks(vals, k)|, c requires 0 <= c < |Chunks(vals, k)| => Sum(Chunks(vals, k)[c]))
  }

  lemma SingletonSum(x: real)
    ensures Sum([x]) == x
  {
    assert [x][1..] == [];
  }

  lemma BlockSumsStep(vals: seq<real>, k: nat)
    requires 0 < k < |vals|
    ensures BlockSums(vals, k) == [Sum(vals[..k])] + BlockSums(vals[k..], k)
  {
    ChunkCount(vals[k..], k);
    assert Chunks(vals, k) == [vals[..k]] + Chunks(vals[k..], k);
  }

  lemma SumPrepended(x: real, s: seq<real>)
    ensures Sum([x] + s) == x + Sum(s)
  {
    assert ([x] + s)[1..] == s;
  }

  lemma {:induction false} SumOfBlocks(vals: seq<real>, k: nat)
    requires k > 0
    ensures Sum(BlockSums(vals, k)) == Sum(vals)
    decreases |vals|
  {
    if vals == [] {
    } else if |vals| <= k {
      assert BlockSums(vals, k) == [Sum(vals)];
      SingletonSum(Sum(vals));
    } else {
      SumOfBlocks(vals[k..], k);
      BlockSumsStep(vals, k);
      SumPrepended(Sum(vals[..k]), BlockSums(vals[k..], k));
      SumConcat(vals[..k], vals[k..]);
      assert vals == vals[..k] + vals[k..];
    }
  }

  lemma {:induction false} SumScaled(a: seq<real>, b: seq<real>, k: real)
    requires |a| == |b| && forall i | 0 <= i < |a| :: b[i] == Scaled(k, a[i])
    ensures Sum(b) == Scaled(k, Sum(a))
  {
    if a == [] {
    } else {
      SumScaled(a[1..], b[1..], k);
      Distribute(k, a[0], Sum(a[1..]));
    }
  }

  lemma MeanTimes(s: seq<real>, n: nat)
    requires |s| == n > 0
    ensures Sum(s) == Scaled(n as real, Mean(s))
  {
  }

  /** When every block is full, the sum is `k` times the sum of the block means. */
  lemma SumOfFullBlocks(vals: seq<real>, k: nat)
    requires k > 0 && forall c | 0 <= c < |Chunks(vals, k)| :: |Chunks(vals, k)[c]| == k
    ensures Sum(vals) == Scaled(k as real, Sum(Up(vals, k)))
  {
    SumOfBlocks(vals, k);
    ChunkCount(vals, k);
    forall c | 0 <= c < |Up(vals, k)| ensures BlockSums(vals, k)[c] == Scaled(k as real, Up(vals, k)[c]) {
      MeanTimes(Chunks(vals, k)[c], k);
    }
    SumScaled(Up(vals, k), BlockSums(vals, k), k as real);
  }

  lemma {:induction false} FullChunk(vals: seq<real>, k: nat, q: nat, c: nat)
    requires k > 0 && |vals| == q * k && c < |Chunks(vals, k)|
    ensures |Chunks(vals, k)[c]| == k
    decreases q
  {
    if q >= 2 {
      BlockStep(q, k);
      AtLeastOnce(q - 1, k);
      if c > 0 { FullChunk(vals[k..], k, q - 1, c - 1); }
    }
  }

  lemma EvenBlocks(n: nat, k: nat)
    requires k > 0 && n % k == 0
    ensures n == k * CeilDiv(n, k)
  {
    assert n == (n / k) * k;
    CeilDivDivides(n, k);
    DivModUnique(n + k - 1, k, n / k, k - 1);
  }

  lemma RealProduct(k: nat, q: nat, n: nat)
    requires n == k * q
    ensures n as real == k as real * q as real
  {
  }

  lemma MeanOfScaled(s: real, k: real, q: real)
    requires k > 0.0 && q > 0.0
    ensures k * q > 0.0 && (k * s) / (k * q) == s / q
  {
    var x := s / q;
    assert x * q == s;
    assert x * (k * q) == k * s;
  }

  lemma ScaledMean(total: real, s: real, k: nat, q: nat, n: nat)
    requires k > 0 && q > 0 && n == k * q && total == Scaled(k as real, s)
    ensures n > 0 && total / n as real == s / q as real
  {
    RealProduct(k, q, n);
    MeanOfScaled(s, k as real, q as real);
  }

  lemma EvenUpKeepsMean(vals: seq<real>, k: nat)
    requires k > 0 && |vals| > 0 && EvenLevel(|vals|, k)
    ensures |Up(vals, k)| > 0 && Mean(Up(vals, k)) == Mean(vals)
  {
    if |vals| <= k {
      assert Up(vals, k) == [Mean(vals)];
      MeanConstant([Mean(vals)], Mean(vals));
    } else {
      var q := CeilDiv(|vals|, k);
      EvenBlocks(|vals|, k);
      forall c | 0 <= c < |Chunks(vals, k)| ensures |Chunks(vals, k)[c]| == k { FullChunk(vals, k, q, c); }
      SumOfFullBlocks(vals, k);
      ScaledMean(Sum(vals), Sum(Up(vals, k)), k, q, |vals|);
    }
  }

  lemma {:induction false} EvenUpToKeepsMean(vals: seq<real>, k: nat, depth: nat)
    requires k > 0 && |vals| > 0 && EvenLevels(|vals|, k, depth)
    ensures |UpTo(vals, k, depth)| > 0 && Mean(UpTo(vals, k, depth)) == Mean(vals)
    decreases depth
  {
    if depth == 0 {
    } else {
      EvenUpToKeepsMean(vals, k, depth - 1);
      assert EvenLevel(CountAt(|vals|, k, depth - 1), k);
      EvenUpKeepsMean(UpTo(vals, k, depth - 1), k);
    }
  }

  // The converse: an unweighted peer count at some level shows up in the weight of the first or last place.

  ghost function Spike(n: nat, pos: nat, w: real): (r: seq<real>)
    ensures |r| == n
  {
    seq(n, i requires 0 <= i < n => if i == pos then w else 0.0)
  }

  lemma {:induction false} SpikeSum(n: nat, pos: nat, w: real)
    requires pos < n
    ensures Sum(Spike(n, pos, w)) == w
  {
    var s := Spike(n, pos, w);
    SumRemove(s, pos);
    var rest := s[..pos] + s[pos + 1..];
    SumConstant(rest, 0.0);
  }

  function LastSize(n: nat, k: nat): nat
    requires k > 0 && n > 0
  {
    (n - 1) % k + 1
  }

  lemma UpSpikeFirst(n: nat, k: nat, w: real)
    requires k > 0 && n > 0
    ensures Up(Spike(n, 0, w), k) == Spike(CeilDiv(n, k), 0, w / LargestCluster(n, k) as real)
  {
    var s := Spike(n, 0, w);
    ChunkCount(s, k);
    forall c | 0 <= c < CeilDiv(n, k) ensures Up(s, k)[c] == if c == 0 then w / LargestCluster(n, k) as real else 0.0 {
      var chunk := Chunks(s, k)[c];
      if c == 0 {
        assert chunk == Spike(LargestCluster(n, k), 0, w);
        SpikeSum(LargestCluster(n, k), 0, w);
      } else {
        forall j | 0 <= j < |chunk| ensures chunk[j] == 0.0 {
          ChunkPlace(s, k, c, j);
          AtLeastOnce(c, k);
        }
        MeanConstant(chunk, 0.0);
      }
    }
  }

  lemma LastOffset(last: nat, k: nat, size: nat)
    requires k > 0 && last % k < size && last / k * k + (size - 1) <= last
    ensures size == last % k + 1
  {
    assert last == last / k * k + last % k;
  }

  lemma LastChunk<T>(s: seq<T>, k: nat)
    requires k > 0 && s != []
    ensures |Chunks(s, k)| == CeilDiv(|s|, k) > 0
    ensures |Chunks(s, k)[CeilDiv(|s|, k) - 1]| == LastSize(|s|, k)
  {
    var last := |s| - 1;
    var c := last / k;
    ChunkCount(s, k);
    LastBlock(|s|, k);
    ChunkAt(s, k, last);
    ChunkPlace(s, k, c, |Chunks(s, k)[c]| - 1);
    LastOffset(last, k, |Chunks(s, k)[c]|);
  }

  /** The last place of `n` is the last of the last block. */
  lemma LastPlace(n: nat, k: nat, c: nat, j: nat)
    requires k > 0 && n > 0 && j < k
    ensures c * k + j == n - 1 <==> c == CeilDiv(n, k) - 1 && j == LastSize(n, k) - 1
  {
    LastBlock(n, k);
    var m := CeilDiv(n, k);
    assert n - 1 == (m - 1) * k + (LastSize(n, k) - 1);
    if c * k + j == n - 1 {
      DivModUnique(n - 1, k, c, j);
    }
  }

  lemma SpikeLastChunk(n: nat, k: nat, w: real, c: nat)
    requires k > 0 && n > 0 && c < CeilDiv(n, k)
    ensures |Chunks(Spike(n, n - 1, w), k)| == CeilDiv(n, k) && |Chunks(Spike(n, n - 1, w), k)[c]| > 0
    ensures Mean(Chunks(Spike(n, n - 1, w), k)[c]) == if c == CeilDiv(n, k) - 1 then w / LastSize(n, k) as real else 0.0
  {
    var s, m, size := Spike(n, n - 1, w), CeilDiv(n, k), LastSize(n, k);
    ChunkCount(s, k);
    LastChunk(s, k);
    var chunk := Chunks(s, k)[c];
    forall j | 0 <= j < |chunk| ensures chunk[j] == if c == m - 1 && j == size - 1 then w else 0.0 {
      ChunkPlace(s, k, c, j);
      LastPlace(n, k, c, j);
    }
    if c == m - 1 {
      assert chunk == Spike(size, size - 1, w);
      SpikeSum(size, size - 1, w);
    } else {
      MeanConstant(chunk, 0.0);
    }
  }

  lemma UpSpikeLast(n: nat, k: nat, w: real)
    requires k > 0 && n > 0
    ensures CeilDiv(n, k) > 0
    ensures Up(Spike(n, n - 1, w), k) == Spike(CeilDiv(n, k), CeilDiv(n, k) - 1, w / LastSize(n, k) as real)
  {
    LastBlock(n, k);
    ChunkCount(Spike(n, n - 1, w), k);
    var up := Up(Spike(n, n - 1, w), k);
    forall c | 0 <= c < CeilDiv(n, k)
      ensures up[c] == if c == CeilDiv(n, k) - 1 then w / LastSize(n, k) as real else 0.0
    {
      SpikeLastChunk(n, k, w, c);
    }
  }

  /** The weight of the first and of the last place in the top value they climb to. */
  ghost function FirstWeight(n: nat, k: nat, depth: nat): real
    requires k > 0 && n > 0
    decreases depth
  {
    if depth == 0 then 1.0
    else ClimbLast(n, k, depth - 1); FirstWeight(n, k, depth - 1) / LargestCluster(CountAt(n, k, depth - 1), k) as real
  }

  ghost function LastWeight(n: nat, k: nat, depth: nat): real
    requires k > 0 && n > 0
    decreases depth
  {
    if depth == 0 then 1.0
    else ClimbLast(n, k, depth - 1); LastWeight(n, k, depth - 1) / LastSize(CountAt(n, k, depth - 1), k) as real
  }

  lemma {:induction false} SpikesClimb(n: nat, k: nat, depth: nat)
    requires k > 0 && n > 0
    ensures CountAt(n, k, depth) > 0
    ensures UpTo(Spike(n, 0, 1.0), k, depth) == Spike(CountAt(n, k, depth), 0, FirstWeight(n, k, depth))
    ensures UpTo(Spike(n, n - 1, 1.0), k, depth)
         == Spike(CountAt(n, k, depth), CountAt(n, k, depth) - 1, LastWeight(n, k, depth))
    decreases depth
  {
    if depth == 0 {
    } else {
      SpikesClimb(n, k, depth - 1);
      var p := CountAt(n, k, depth - 1);
      UpSpikeFirst(p, k, FirstWeight(n, k, depth - 1));
      UpSpikeLast(p, k, LastWeight(n, k, depth - 1));
    }
  }

  lemma SizesCompare(p: nat, k: nat)
    requires k > 0 && p > 0
    ensures 1 <= LastSize(p, k) <= LargestCluster(p, k)
    ensures LastSize(p, k) == LargestCluster(p, k) <==> EvenLevel(p, k)
  {
    var q, r := (p - 1) / k, (p - 1) % k;
    assert p - 1 == q * k + r;
    if p <= k {
      DivModUnique(p - 1, k, 0, p - 1);
    } else if r == k - 1 {
      assert (q + 1) * k == q * k + k;
      DivModUnique(p, k, q + 1, 0);
    } else {
      DivModUnique(p, k, q, r + 1);
    }
  }

  lemma PositiveQuotient(a: real, x: real)
    requires a > 0.0 && x > 0.0
    ensures a / x > 0.0
  {
  }

  lemma QuotientSign(d: real, y: real)
    requires y > 0.0 && d * y >= 0.0
    ensures d >= 0.0
  {
  }

  lemma DivCompare(a: real, b: real, x: real, y: real)
    requires 0.0 < a <= b && 0.0 < y <= x
    ensures 0.0 < a / x <= b / y
    ensures a / x == b / y ==> a == b && x == y
  {
    var u, v := a / x, b / y;
    assert u * x == a && v * y == b;
    PositiveQuotient(a, x);
    PositiveQuotient(b, y);
    assert u * y <= u * x;
    assert (v - u) * y == v * y - u * y;
    QuotientSign(v - u, y);
  }

  lemma {:induction false} WeightsCompare(n: nat, k: nat, depth: nat)
    requires k > 0 && n > 0
    ensures 0.0 < FirstWeight(n, k, depth) <= LastWeight(n, k, depth)
    ensures FirstWeight(n, k, depth) == LastWeight(n, k, depth) ==> EvenLevels(n, k, depth)
    decreases depth
  {
    if depth == 0 {
    } else {
      WeightsCompare(n, k, depth - 1);
      ClimbLast(n, k, depth - 1);
      var p := CountAt(n, k, depth - 1);
      SizesCompare(p, k);
      DivCompare(FirstWeight(n, k, depth - 1), LastWeight(n, k, depth - 1),
                 LargestCluster(p, k) as real, LastSize(p, k) as real);
    }
  }

  ghost predicate SpreadsTheMean(vals: seq<real>, k: nat, depth: nat)
    requires k > 0
  {
    forall pos | 0 <= pos < |vals| :: Spread(vals, k, depth)[pos] == Mean(vals)
  }

  lemma EvenMeansFlatMean(vals: seq<real>, k: nat, depth: nat)
    requires k > 0 && |vals| <= Pow(k, depth) && EvenLevels(|vals|, k, depth)
    ensures SpreadsTheMean(vals, k, depth)
  {
    if |vals| > 0 {
      SingleTop(|vals|, k, depth);
      EvenUpToKeepsMean(vals, k, depth);
      var top := UpTo(vals, k, depth);
      assert top == [top[0]];
      MeanConstant(top, top[0]);
      forall pos | 0 <= pos < |vals| ensures Spread(vals, k, depth)[pos] == Mean(vals) {
        ClimbInRange(pos, |vals|, k, depth);
      }
    }
  }

  lemma FlatMeanMeansEven(n: nat, k: nat, depth: nat)
    requires k > 0 && n > 0
    requires SpreadsTheMean(Spike(n, 0, 1.0), k, depth) && SpreadsTheMean(Spike(n, n - 1, 1.0), k, depth)
    ensures EvenLevels(n, k, depth)
  {
    SpikesClimb(n, k, depth);
    ClimbFirst(k, depth);
    ClimbLast(n, k, depth);
    SpikeSum(n, 0, 1.0);
    SpikeSum(n, n - 1, 1.0);
    assert Spread(Spike(n, 0, 1.0), k, depth)[0] == FirstWeight(n, k, depth);
    assert Spread(Spike(n, n - 1, 1.0), k, depth)[n - 1] == LastWeight(n, k, depth);
    WeightsCompare(n, k, depth);
  }

  /** The tree of rings returns the flat mean on every input exactly when it has room for all peers
      and the clusters within each level have equal size. */
  lemma FlatMeanIffEven(n: nat, k: nat, depth: nat)
    requires k > 0 && n > 0
    ensures (forall vals | |vals| == n :: SpreadsTheMean(vals, k, depth))
        <==> n <= Pow(k, depth) && EvenLevels(n, k, depth)
  {
    if n <= Pow(k, depth) && EvenLevels(n, k, depth) {
      forall vals | |vals| == n ensures SpreadsTheMean(vals, k, depth) { EvenMeansFlatMean(vals, k, depth); }
    }
    if forall vals | |vals| == n :: SpreadsTheMean(vals, k, depth) {
      FlatMeanMeansEven(n, k, depth);
      forall vals | |vals| == n ensures Agrees(vals, k, depth) { assert SpreadsTheMean(vals, k, depth); }
      AgreementIffRoom(n, k, depth);
    }
  }
}
