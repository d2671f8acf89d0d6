/** Ring all-reduce in lockstep: scatter-reduce, all-gather, and what every peer ends up holding. */
module AllReduce {
  import opened Sums
  import opened Sorting
  import opened Gradients

  // --- Splitting a flat gradient into one chunk per peer ---

  lemma CeilDivPositive(a: nat, n: nat)
    requires n > 0 && a > 0
    ensures CeilDiv(a, n) > 0
    ensures a <= n * CeilDiv(a, n)
  {
    LastBlock(a, n);
    var q, r := (a - 1) / n, (a - 1) % n;
    assert a - 1 == n * q + r;
    assert n * (q + 1) == n * q + n;
  }

  /** `tensor.chunk(n)`: pieces of the rounded-up size, so possibly fewer than `n` of them. */
  function TorchChunk(flat: seq<real>, n: nat): seq<seq<real>>
    requires n > 0
  {
    if flat == [] then seq(n, _ => [])
    else CeilDivPositive(|flat|, n); Chunks(flat, CeilDiv(|flat|, n))
  }

  lemma {:induction false} SplitConcat(flat: seq<real>, size: nat)
    requires size > 0 && flat != []
    ensures Concat(Chunks(flat, size)) == flat
    decreases |flat|
  {
    if |flat| <= size {
      assert Concat([flat]) == flat + Concat([flat][1..]);
    } else {
      SplitConcat(flat[size..], size);
      assert Chunks(flat, size)[1..] == Chunks(flat[size..], size);
      assert flat == flat[..size] + flat[size..];
    }
  }

  lemma {:induction false} SplitCount(flat: seq<real>, size: nat, n: nat)
    requires size > 0 && n > 0 && 0 < |flat| <= n * size
    ensures 0 < |Chunks(flat, size)| <= n
    decreases |flat|
  {
    if |flat| <= size {
    } else {
      assert n != 1;
      assert (n - 1) * size == n * size - size;
      SplitCount(flat[size..], size, n - 1);
    }
  }

  lemma {:induction false} SplitShape(a: seq<real>, b: seq<real>, size: nat)
    requires size > 0 && |a| == |b|
    ensures |Chunks(a, size)| == |Chunks(b, size)|
    ensures forall c | 0 <= c < |Chunks(a, size)| :: |Chunks(a, size)[c]| == |Chunks(b, size)[c]|
    decreases |a|
  {
    if |a| <= size {
    } else {
      SplitShape(a[size..], b[size..], size);
    }
  }

  lemma {:induction false} ConcatEmpties(n: nat)
    ensures Concat<real>(seq(n, _ => [])) == []
  {
    if n == 0 {
    } else {
      ConcatEmpties(n - 1);
      assert seq(n, _ => [])[1..] == seq<seq<real>>(n - 1, _ => []);
    }
  }

  lemma ChunkFacts(flat: seq<real>, n: nat)
    requires n > 0
    ensures 0 < |TorchChunk(flat, n)| <= n
    ensures Concat(TorchChunk(flat, n)) == flat
  {
    if flat == [] {
      ConcatEmpties(n);
    } else {
      CeilDivPositive(|flat|, n);
      SplitCount(flat, CeilDiv(|flat|, n), n);
      SplitConcat(flat, CeilDiv(|flat|, n));
    }
  }

  /** The chunks of one peer, padded with zero chunks of the first chunk's size up to `n`. */
  ghost predicate IsPadded(chunks: seq<seq<real>>, flat: seq<real>, n: nat)
    requires n > 0
  {
    ChunkFacts(flat, n);
    var real_ := TorchChunk(flat, n);
    && |chunks| == n
    && chunks[..|real_|] == real_
    && forall c | |real_| <= c < n :: chunks[c] == seq(|real_[0]|, _ => 0.0)
  }

  method PadChunks(flat: seq<real>, n: nat) returns (chunks: seq<seq<real>>)
    requires n > 0
    ensures IsPadded(chunks, flat, n)
  {
    ChunkFacts(flat, n);
    chunks := TorchChunk(flat, n);
    ghost var start := |chunks|;
    while |chunks| < n
      invariant start <= |chunks| <= n
      invariant chunks[..start] == TorchChunk(flat, n)
      invariant forall c | start <= c < |chunks| :: chunks[c] == seq(|chunks[0]|, _ => 0.0)
    {
      chunks := chunks + [seq(|chunks[0]|, _ => 0.0)];
    }
  }

  lemma PaddedConcat(chunks: seq<seq<real>>, flat: seq<real>, n: nat)
    requires n > 0 && IsPadded(chunks, flat, n)
    ensures |flat| <= |Concat(chunks)| && Concat(chunks)[..|flat|] == flat
  {
    ChunkFacts(flat, n);
    var m := |TorchChunk(flat, n)|;
    ConcatAppend(chunks[..m], chunks[m..]);
    assert chunks == chunks[..m] + chunks[m..];
  }

  lemma PaddedShape(a: seq<seq<real>>, flatA: seq<real>, b: seq<seq<real>>, flatB: seq<real>, n: nat)
    requires n > 0 && |flatA| == |flatB|
    requires IsPadded(a, flatA, n) && IsPadded(b, flatB, n)
    ensures forall c | 0 <= c < n :: |a[c]| == |b[c]|
  {
    ChunkFacts(flatA, n);
    ChunkFacts(flatB, n);
    if flatA == [] {
    } else {
      CeilDivPositive(|flatA|, n);
      SplitShape(flatA, flatB, CeilDiv(|flatA|, n));
    }
    var ta, tb := TorchChunk(flatA, n), TorchChunk(flatB, n);
    assert |ta| == |tb| && forall c | 0 <= c < |ta| :: |ta[c]| == |tb[c]|;
    forall c | 0 <= c < n ensures |a[c]| == |b[c]| {
      if c < |ta| { assert a[c] == ta[c] && b[c] == tb[c]; }
    }
  }

  // --- The ring: positions modulo n ---

  /** How far clockwise peer `i` sits from peer `c`. */
  function Dist(i: nat, c: nat, n: nat): (d: nat)
    requires i < n && c < n
    ensures d < n
  {
    if c <= i then i - c else i - c + n
  }

  lemma ModWrap(a: int, n: int)
    requires n > 0 && -n <= a < 2 * n
    ensures a % n == if a < 0 then a + n else if a < n then a else a - n
  {
    if a < 0 {
      DivModUnique(a, n, -1, a + n);
    } else if a >= n {
      DivModUnique(a, n, 1, a - n);
    } else {
      DivModUnique(a, n, 0, a);
    }
  }

  /** The chunk received in a scatter step is the one at distance `step + 1`, and only that one. */
  lemma ScatterIndex(i: nat, step: nat, n: nat)
    requires i < n && step + 1 < n
    ensures var r, left := (i - step - 1) % n, (i - 1) % n;
      && 0 <= r < n && 0 <= left < n
      && (left - step) % n == r
      && Dist(left, r, n) == step
      && Dist(i, r, n) == step + 1
      && (r + step + 1) % n == i
      && forall c | 0 <= c < n && c != r :: Dist(i, c, n) != step + 1
  {
    ModWrap(i - step - 1, n);
    ModWrap(i - 1, n);
    var r, left := (i - step - 1) % n, (i - 1) % n;
    ModWrap(left - step, n);
    ModWrap(r + step + 1, n);
  }

  /** The position `k` places anticlockwise from `i`. */
  function Back(i: int, k: int, n: nat): (r: nat)
    requires n > 0
    ensures r < n
  {
    (i - k) % n
  }

  lemma SendIndex(i: nat, step: nat, n: nat)
    requires i < n && step < n
    ensures 0 <= (i - step) % n < n && Dist(i, (i - step) % n, n) == step
  {
    ModWrap(i - step, n);
  }

  /** How many gather steps pass before peer `i` holds the finished chunk `c`. */
  function Gap(i: nat, c: nat, n: nat): nat
    requires i < n && c < n
  {
    if Dist(i, c, n) == n - 1 then 0 else Dist(i, c, n) + 1
  }

  lemma GatherIndex(i: nat, step: nat, n: nat)
    requires i < n && step + 1 < n
    ensures var r, left := (i - step) % n, (i - 1) % n;
      && 0 <= r < n && 0 <= left < n
      && (left - step + 1) % n == r
      && Gap(left, r, n) == step
      && Gap(i, r, n) == step + 1
      && forall c | 0 <= c < n && c != r :: Gap(i, c, n) != step + 1
  {
    ModWrap(i - step, n);
    ModWrap(i - 1, n);
    var r, left := (i - step) % n, (i - 1) % n;
    ModWrap(left - step + 1, n);
  }

  lemma GatherSendIndex(i: nat, step: nat, n: nat)
    requires i < n && step < n
    ensures 0 <= (i - step + 1) % n < n && Gap(i, (i - step + 1) % n, n) == step
  {
    ModWrap(i - step + 1, n);
  }

  // --- What each chunk holds as the ring turns ---

  /** The original chunks, one row for each peer, all rows cut alike. */
  ghost predicate Grid(x: seq<seq<seq<real>>>, n: nat) {
    && n > 0 && |x| == n
    && (forall p | 0 <= p < n :: |x[p]| == n)
    && forall p, c | 0 <= p < n && 0 <= c < n :: |x[p][c]| == |x[0][c]|
  }

  /** Chunk `c` summed over the cyclic run of `d + 1` peers that starts at peer `c`. */
  ghost function Run(x: seq<seq<seq<real>>>, n: nat, c: nat, d: nat): (r: seq<real>)
    requires Grid(x, n) && c < n
    ensures |r| == |x[0][c]|
  {
    if d == 0 then x[c][c] else Plus(x[(c + d) % n][c], Run(x, n, c, d - 1))
  }

  /** Chunk `c` summed over the whole ring. */
  ghost function FullRun(x: seq<seq<seq<real>>>, n: nat, c: nat): (r: seq<real>)
    requires Grid(x, n) && c < n
  {
    Run(x, n, c, n - 1)
  }

  /** Chunk `c` of peer `i` after `step` scatter steps. */
  ghost function Scattered(x: seq<seq<seq<real>>>, n: nat, i: nat, c: nat, step: nat): seq<real>
    requires Grid(x, n) && i < n && c < n
  {
    if Dist(i, c, n) <= step then Run(x, n, c, Dist(i, c, n)) else x[i][c]
  }

  /** Chunk `c` of peer `i` after `step` gather steps. */
  ghost function Gathered(x: seq<seq<seq<real>>>, n: nat, i: nat, c: nat, step: nat): seq<real>
    requires Grid(x, n) && i < n && c < n
  {
    if Gap(i, c, n) <= step then FullRun(x, n, c) else Run(x, n, c, Dist(i, c, n))
  }

  ghost predicate ScatteredTo(chunks: array2<seq<real>>, x: seq<seq<seq<real>>>, n: nat, step: nat)
    reads chunks
  {
    && Grid(x, n) && chunks.Length0 == n && chunks.Length1 == n
    && forall i, c | 0 <= i < n && 0 <= c < n :: chunks[i, c] == Scattered(x, n, i, c, step)
  }

  ghost predicate GatheredTo(chunks: array2<seq<real>>, x: seq<seq<seq<real>>>, n: nat, step: nat)
    reads chunks
  {
    && Grid(x, n) && chunks.Length0 == n && chunks.Length1 == n
    && forall i, c | 0 <= i < n && 0 <= c < n :: chunks[i, c] == Gathered(x, n, i, c, step)
  }

  /** What every peer sends in a scatter step. */
  method ScatterSend(chunks: array2<seq<real>>, n: nat, step: nat, ghost x: seq<seq<seq<real>>>)
    returns (sent: seq<seq<real>>)
    requires step + 1 < n && ScatteredTo(chunks, x, n, step)
    ensures |sent| == n && forall j | 0 <= j < n :: sent[j] == Run(x, n, Back(j, step, n), step)
  {
    sent := [];
    for i := 0 to n
      invariant |sent| == i
      invariant forall j | 0 <= j < i :: sent[j] == Run(x, n, Back(j, step, n), step)
    {
      SendIndex(i, step, n);
      var sendIdx := (i - step) % n;
      assert sendIdx == Back(i, step, n);
      sent := sent + [chunks[i, sendIdx]];
    }
  }

  /** What a scatter step does to the row of peer `i`. */
  lemma ScatterRow(x: seq<seq<seq<real>>>, n: nat, i: nat, step: nat)
    requires Grid(x, n) && i < n && step + 1 < n
    ensures var r, left := (i - step - 1) % n, (i - 1) % n;
      && 0 <= r < n && 0 <= left < n && r == Back(left, step, n)
      && Scattered(x, n, i, r, step) == x[i][r]
      && Scattered(x, n, i, r, step + 1) == Plus(x[i][r], Run(x, n, r, step))
      && forall c | 0 <= c < n && c != r :: Scattered(x, n, i, c, step + 1) == Scattered(x, n, i, c, step)
  {
    ScatterIndex(i, step, n);
  }

  /** One scatter-reduce step: everybody sends, then everybody adds what its left neighbour sent. */
  method ScatterStep(chunks: array2<seq<real>>, n: nat, step: nat, ghost x: seq<seq<seq<real>>>)
    requires step + 1 < n && ScatteredTo(chunks, x, n, step)
    modifies chunks
    ensures ScatteredTo(chunks, x, n, step + 1)
  {
    var sent := ScatterSend(chunks, n, step, x);
    for i := 0 to n
      invariant forall p, c | 0 <= p < n && 0 <= c < n ::
          chunks[p, c] == Scattered(x, n, p, c, if p < i then step + 1 else step)
    {
      ScatterRow(x, n, i, step);
      var recvIdx := (i - step - 1) % n;
      var left := (i - 1) % n;
      chunks[i, recvIdx] := Plus(chunks[i, recvIdx], sent[left]);
    }
  }

  /** What every peer passes on in a gather step. */
  method GatherSend(chunks: array2<seq<real>>, n: nat, step: nat, ghost x: seq<seq<seq<real>>>)
    returns (sent: seq<seq<real>>)
    requires step + 1 < n && GatheredTo(chunks, x, n, step)
    ensures |sent| == n && forall j | 0 <= j < n :: sent[j] == FullRun(x, n, Back(j, step - 1, n))
  {
    sent := [];
    for i := 0 to n
      invariant |sent| == i
      invariant forall j | 0 <= j < i :: sent[j] == FullRun(x, n, Back(j, step - 1, n))
    {
      GatherSendIndex(i, step, n);
      var sendIdx := (i - step + 1) % n;
      assert sendIdx == Back(i, step - 1, n);
      sent := sent + [chunks[i, sendIdx]];
    }
  }

  lemma GatherRow(x: seq<seq<seq<real>>>, n: nat, i: nat, step: nat)
    requires Grid(x, n) && i < n && step + 1 < n
    ensures var r, left := (i - step) % n, (i - 1) % n;
      && 0 <= r < n && 0 <= left < n && r == Back(left, step - 1, n)
      && Gathered(x, n, i, r, step + 1) == FullRun(x, n, r)
      && forall c | 0 <= c < n && c != r :: Gathered(x, n, i, c, step + 1) == Gathered(x, n, i, c, step)
  {
    GatherIndex(i, step, n);
  }

  /** One all-gather step: everybody passes on the finished chunk it received last. */
  method GatherStep(chunks: array2<seq<real>>, n: nat, step: nat, ghost x: seq<seq<seq<real>>>)
    requires step + 1 < n && GatheredTo(chunks, x, n, step)
    modifies chunks
    ensures GatheredTo(chunks, x, n, step + 1)
  {
    var sent := GatherSend(chunks, n, step, x);
    for i := 0 to n
      invariant forall p, c | 0 <= p < n && 0 <= c < n ::
          chunks[p, c] == Gathered(x, n, p, c, if p < i then step + 1 else step)
    {
      GatherRow(x, n, i, step);
      var recvIdx := (i - step) % n;
      var left := (i - 1) % n;
      assert sent[left] == FullRun(x, n, recvIdx);
      chunks[i, recvIdx] := sent[left];
    }
  }

  // --- A full turn sums over every peer ---

  /** The sum of `m` consecutive elements of a cyclic list, from position `c` on. */
  function CyclicSum(s: seq<real>, c: nat, m: nat): real
    requires c < |s|
  {
    if m == 0 then 0.0 else s[(c + m - 1) % |s|] + CyclicSum(s, c, m - 1)
  }

  lemma {:induction false} CyclicSumWraps(s: seq<real>, c: nat, m: nat)
    requires c < |s| && m <= |s|
    ensures CyclicSum(s, c, m) ==
            if c + m <= |s| then Sum(s[c..c + m]) else Sum(s[c..]) + Sum(s[..c + m - |s|])
  {
    if m == 0 {
    } else {
      CyclicSumWraps(s, c, m - 1);
      var last := c + m - 1;
      ModWrap(last, |s|);
      if last < |s| {
        SumConcat(s[c..last], [s[last]]);
        assert s[c..c + m] == s[c..last] + [s[last]];
        assert Sum([s[last]]) == s[last] + Sum([s[last]][1..]);
      } else {
        var e := last - |s|;
        SumConcat(s[..e], [s[e]]);
        assert s[..e + 1] == s[..e] + [s[e]];
        assert Sum([s[e]]) == s[e] + Sum([s[e]][1..]);
        assert s[c..] == s[c..|s|];
      }
    }
  }

  lemma FullTurn(s: seq<real>, c: nat)
    requires c < |s|
    ensures CyclicSum(s, c, |s|) == Sum(s)
  {
    CyclicSumWraps(s, c, |s|);
    SumConcat(s[..c], s[c..]);
    assert s == s[..c] + s[c..];
    if c == 0 { assert s[0..|s|] == s; }
  }

  ghost function ChunkColumn(x: seq<seq<seq<real>>>, n: nat, c: nat, k: nat): (r: seq<real>)
    requires Grid(x, n) && c < n && k < |x[0][c]|
    ensures |r| == n
  {
    seq(n, p requires 0 <= p < n => x[p][c][k])
  }

  lemma {:induction false} RunIsCyclicSum(x: seq<seq<seq<real>>>, n: nat, c: nat, d: nat, k: nat)
    requires Grid(x, n) && c < n && d < n && k < |x[0][c]|
    ensures Run(x, n, c, d)[k] == CyclicSum(ChunkColumn(x, n, c, k), c, d + 1)
  {
    var column := ChunkColumn(x, n, c, k);
    if d == 0 {
      ModWrap(c, n);
      assert CyclicSum(column, c, 1) == column[c] + CyclicSum(column, c, 0);
    } else {
      RunIsCyclicSum(x, n, c, d - 1, k);
    }
  }

  /** After both phases chunk `c` of every peer is the sum of everybody's chunk `c`. */
  lemma FinishedChunk(x: seq<seq<seq<real>>>, n: nat, c: nat, k: nat)
    requires Grid(x, n) && c < n && k < |x[0][c]|
    ensures k < |FullRun(x, n, c)| && FullRun(x, n, c)[k] == Sum(ChunkColumn(x, n, c, k))
  {
    RunIsCyclicSum(x, n, c, n - 1, k);
    FullTurn(ChunkColumn(x, n, c, k), c);
  }

  // --- From chunks back to the flat gradient ---

  ghost function FlatColumn(flats: seq<seq<real>>, k: nat): (r: seq<real>)
    requires forall p | 0 <= p < |flats| :: k < |flats[p]|
    ensures |r| == |flats|
  {
    seq(|flats|, p requires 0 <= p < |flats| => flats[p][k])
  }

  ghost predicate CutFrom(x: seq<seq<seq<real>>>, flats: seq<seq<real>>, n: nat) {
    && n > 0 && |x| == n && |flats| == n
    && (forall p | 0 <= p < n :: |flats[p]| == |flats[0]|)
    && forall p | 0 <= p < n :: IsPadded(x[p], flats[p], n)
  }

  lemma CutIsGrid(x: seq<seq<seq<real>>>, flats: seq<seq<real>>, n: nat)
    requires CutFrom(x, flats, n)
    ensures Grid(x, n)
  {
    forall p, c | 0 <= p < n && 0 <= c < n ensures |x[p][c]| == |x[0][c]| {
      PaddedShape(x[p], flats[p], x[0], flats[0], n);
    }
  }

  /** Concatenating finished chunks and cutting the padding gives the sum of the flat gradients. */
  lemma FinishedFlat(x: seq<seq<seq<real>>>, flats: seq<seq<real>>, n: nat, row: seq<seq<real>>)
    requires CutFrom(x, flats, n) && Grid(x, n)
    requires |row| == n && forall c | 0 <= c < n :: row[c] == FullRun(x, n, c)
    ensures |flats[0]| <= |Concat(row)|
    ensures forall k | 0 <= k < |flats[0]| :: Concat(row)[k] == Sum(FlatColumn(flats, k))
  {
    var sizes: seq<nat> := seq(n, c requires 0 <= c < n => |x[0][c]|);
    ConcatLength(row, sizes);
    ConcatLength(x[0], sizes);
    PaddedConcat(x[0], flats[0], n);
    forall k | 0 <= k < |flats[0]| ensures Concat(row)[k] == Sum(FlatColumn(flats, k)) {
      var (c, o) := Locate(sizes, k);
      ConcatAt(row, sizes, k);
      FinishedChunk(x, n, c, o);
      forall p | 0 <= p < n ensures x[p][c][o] == flats[p][k] {
        ConcatAt(x[p], sizes, k);
        PaddedConcat(x[p], flats[p], n);
        assert Concat(x[p])[..|flats[p]|][k] == flats[p][k];
      }
      assert ChunkColumn(x, n, c, o) == FlatColumn(flats, k);
    }
  }

  // --- Rebuilding the named tensors ---

  predicate IsRebuilt(result: Gradient, flat: seq<real>, names: seq<string>,
                      shapes: seq<seq<nat>>, sizes: seq<nat>, j: nat)
    requires j < |names| == |shapes| == |sizes|
  {
    var o := SizeSum(sizes[..j]);
    && 0 <= o <= o + sizes[j] <= |flat|
    && names[j] in result
    && result[names[j]] == Tensor(shapes[j], flat[o..o + sizes[j]])
  }

  /** Tensor `j` gets its own slice of the flat data, starting where the earlier ones end. */
  ghost predicate IsUnflattened(result: Gradient, flat: seq<real>, names: seq<string>,
                                shapes: seq<seq<nat>>, sizes: seq<nat>)
    requires |names| == |shapes| == |sizes| && SizeSum(sizes) <= |flat|
  {
    && (forall name :: name in result <==> name in names)
    && forall j | 0 <= j < |names| :: IsRebuilt(result, flat, names, shapes, sizes, j)
  }

  lemma {:induction false} SizeSumConcat(a: seq<nat>, b: seq<nat>)
    ensures SizeSum(a + b) == SizeSum(a) + SizeSum(b)
  {
    if a == [] {
      assert a + b == b;
    } else {
      assert (a + b)[1..] == a[1..] + b;
      SizeSumConcat(a[1..], b);
    }
  }

  lemma SizeSumPrefix(sizes: seq<nat>, j: nat)
    requires j < |sizes|
    ensures SizeSum(sizes[..j + 1]) == SizeSum(sizes[..j]) + sizes[j] <= SizeSum(sizes)
  {
    var last := [sizes[j]];
    assert SizeSum(last) == last[0] + SizeSum(last[1..]);
    assert SizeSum(sizes[..j + 1]) == SizeSum(sizes[..j]) + sizes[j] by {
      SizeSumConcat(sizes[..j], last);
      assert sizes[..j + 1] == sizes[..j] + last;
    }
    assert SizeSum(sizes[..j + 1]) <= SizeSum(sizes) by {
      SizeSumConcat(sizes[..j + 1], sizes[j + 1..]);
      assert sizes == sizes[..j + 1] + sizes[j + 1..];
    }
  }

  method Unflatten(flat: seq<real>, names: seq<string>, shapes: seq<seq<nat>>, sizes: seq<nat>)
    returns (result: Gradient)
    requires |names| == |shapes| == |sizes| && SizeSum(sizes) <= |flat| && Distinct(names)
    ensures IsUnflattened(result, flat, names, shapes, sizes)
  {
    result := map[];
    var offset := 0;
    for j := 0 to |names|
      invariant offset == SizeSum(sizes[..j]) <= |flat|
      invariant forall name :: name in result <==> name in names[..j]
      invariant forall i | 0 <= i < j :: IsRebuilt(result, flat, names, shapes, sizes, i)
    {
      SizeSumPrefix(sizes, j);
      ghost var before := result;
      result := result[names[j] := Tensor(shapes[j], flat[offset..offset + sizes[j]])];
      forall i | 0 <= i < j ensures IsRebuilt(result, flat, names, shapes, sizes, i) {
        assert IsRebuilt(before, flat, names, shapes, sizes, i) && names[i] != names[j];
      }
      offset := offset + sizes[j];
      assert names[..j + 1] == names[..j] + [names[j]];
    }
    assert names[..|names|] == names;
    assert sizes[..|sizes|] == sizes;
  }

  /** Flattening and rebuilding is the identity on the named tensors. */
  lemma FlattenSlice(g: Gradient, names: seq<string>, j: nat)
    requires forall name | name in names :: name in g
    requires WellFormed(g) && j < |names|
    ensures var sizes, o := Sizes(g, names), SizeSum(Sizes(g, names)[..j]);
      && |Flatten(g, names)| == SizeSum(sizes)
      && 0 <= o <= o + sizes[j] <= |Flatten(g, names)|
      && Flatten(g, names)[o..o + sizes[j]] == g[names[j]].data
  {
    var parts, sizes := Parts(g, names), Sizes(g, names);
    SizeSumPrefix(sizes, j);
    ConcatLength(parts, sizes);
    OffsetWithin(parts, sizes, j);
    ConcatSlice(parts, j);
  }

  // --- The whole protocol ---

  lemma FlatLength(all: seq<Gradient>, names: seq<string>)
    requires Stackable(all) && forall name :: name in names <==> name in all[0]
    ensures forall p | 0 <= p < |all| :: (forall name | name in names :: name in all[p])
    ensures forall p | 0 <= p < |all| ::
        Sizes(all[p], names) == Sizes(all[0], names) && |Flatten(all[p], names)| == SizeSum(Sizes(all[0], names))
  {
    forall p | 0 <= p < |all|
      ensures forall name | name in names :: name in all[p]
      ensures Sizes(all[p], names) == Sizes(all[0], names)
      ensures |Flatten(all[p], names)| == SizeSum(Sizes(all[0], names))
    {
      assert Covers(all[0], all[p]);
      ConcatLength(Parts(all[p], names), Sizes(all[p], names));
    }
  }

  ghost predicate FlatRows(all: seq<Gradient>, names: seq<string>, flats: seq<seq<real>>) {
    && Stackable(all) && Distinct(names) && (forall name :: name in names <==> name in all[0])
    && |flats| == |all|
    && forall p | 0 <= p < |all| ::
        && (forall name | name in names :: name in all[p])
        && flats[p] == Flatten(all[p], names)
        && Sizes(all[p], names) == Sizes(all[0], names)
        && |flats[p]| == SizeSum(Sizes(all[0], names))
  }

  /** Position `k` of tensor `j` sits at the same flat position in every peer's row. */
  lemma FlatColumnIsColumn(all: seq<Gradient>, names: seq<string>, flats: seq<seq<real>>, j: nat, k: nat)
    requires FlatRows(all, names, flats) && j < |names| && k < Sizes(all[0], names)[j]
    ensures var o := SizeSum(Sizes(all[0], names)[..j]);
      && o + k < SizeSum(Sizes(all[0], names))
      && (forall i | 0 <= i < |all| :: names[j] in all[i] && k < |all[i][names[j]].data|)
      && FlatColumn(flats, o + k) == Column(all, names[j], k)
  {
    var sizes := Sizes(all[0], names);
    var o := SizeSum(sizes[..j]);
    StackableColumn(all, names[j]);
    SizeSumPrefix(sizes, j);
    forall p | 0 <= p < |all| ensures flats[p][o + k] == all[p][names[j]].data[k] {
      assert Covers(all[0], all[p]);
      FlattenSlice(all[p], names, j);
      assert flats[p][o..o + sizes[j]][k] == flats[p][o + k];
    }
  }

  function Shapes(g: Gradient, names: seq<string>): (r: seq<seq<nat>>)
    requires forall name | name in names :: name in g
    ensures |r| == |names|
  {
    seq(|names|, j requires 0 <= j < |names| => g[names[j]].shape)
  }

  ghost predicate IsFlatMean(mean: seq<real>, flats: seq<seq<real>>)
    requires forall p | 0 <= p < |flats| :: |flats[p]| == |mean|
  {
    |flats| > 0 && forall k | 0 <= k < |mean| :: mean[k] == Mean(FlatColumn(flats, k))
  }

  lemma UnflattenedTensor(all: seq<Gradient>, names: seq<string>, flats: seq<seq<real>>, mean: seq<real>, j: nat)
    requires FlatRows(all, names, flats) && j < |names|
    requires |mean| == SizeSum(Sizes(all[0], names)) && IsFlatMean(mean, flats)
    ensures var sizes, o := Sizes(all[0], names), SizeSum(Sizes(all[0], names)[..j]);
      && o + sizes[j] <= |mean|
      && mean[o..o + sizes[j]] == MeanTensor(all, names[j]).data
  {
    var sizes := Sizes(all[0], names);
    var o := SizeSum(sizes[..j]);
    SizeSumPrefix(sizes, j);
    forall k | 0 <= k < sizes[j] ensures mean[o + k] == MeanTensor(all, names[j]).data[k] {
      FlatColumnIsColumn(all, names, flats, j, k);
    }
  }

  /** Slicing the averaged flat gradient apart gives the mean of every named tensor. */
  lemma UnflattenedMean(all: seq<Gradient>, names: seq<string>, flats: seq<seq<real>>, mean: seq<real>, result: Gradient)
    requires FlatRows(all, names, flats)
    requires |mean| == SizeSum(Sizes(all[0], names)) && IsFlatMean(mean, flats)
    requires IsUnflattened(result, mean, names, Shapes(all[0], names), Sizes(all[0], names))
    ensures result == MeanGradient(all)
  {
    assert result.Keys == all[0].Keys;
    forall name | name in result ensures result[name] == MeanTensor(all, name) {
      var j :| 0 <= j < |names| && names[j] == name;
      assert IsRebuilt(result, mean, names, Shapes(all[0], names), Sizes(all[0], names), j);
      UnflattenedTensor(all, names, flats, mean, j);
    }
  }

  lemma ScatterStart(x: seq<seq<seq<real>>>, n: nat)
    requires Grid(x, n)
    ensures forall i, c | 0 <= i < n && 0 <= c < n :: Scattered(x, n, i, c, 0) == x[i][c]
  {
  }

  method PadAll(flats: seq<seq<real>>, n: nat) returns (rows: seq<seq<seq<real>>>)
    requires n > 0 && |flats| == n && forall p | 0 <= p < n :: |flats[p]| == |flats[0]|
    ensures CutFrom(rows, flats, n)
  {
    rows := [];
    for i := 0 to n
      invariant |rows| == i
      invariant forall p | 0 <= p < i :: IsPadded(rows[p], flats[p], n)
    {
      var row := PadChunks(flats[i], n);
      rows := rows + [row];
    }
  }

  /** Every peer starts with its padded chunks in its own row. */
  method FillChunks(flats: seq<seq<real>>, n: nat)
    returns (chunks: array2<seq<real>>, ghost x: seq<seq<seq<real>>>)
    requires n > 0 && |flats| == n && forall p | 0 <= p < n :: |flats[p]| == |flats[0]|
    ensures fresh(chunks) && CutFrom(x, flats, n) && ScatteredTo(chunks, x, n, 0)
  {
    var rows := PadAll(flats, n);
    x := rows;
    CutIsGrid(rows, flats, n);
    ScatterStart(rows, n);
    chunks := new seq<real>[n, n]((i, c) requires 0 <= i < n && 0 <= c < n => rows[i][c]);
  }

  /** Reading off one peer: its row of finished chunks becomes the mean of the named tensors. */
  method Reconstruct(all: seq<Gradient>, names: seq<string>, flats: seq<seq<real>>, row: seq<seq<real>>,
                     ghost x: seq<seq<seq<real>>>)
    returns (result: Gradient)
    requires FlatRows(all, names, flats) && CutFrom(x, flats, |all|) && Grid(x, |all|)
    requires |row| == |all| && forall c | 0 <= c < |all| :: row[c] == FullRun(x, |all|, c)
    ensures result == MeanGradient(all)
  {
    FinishedFlat(x, flats, |all|, row);
    var aggregated := Concat(row)[..|flats[0]|];
    var mean := seq(|aggregated|, k requires 0 <= k < |aggregated| => aggregated[k] / |all| as real);
    result := Unflatten(mean, names, Shapes(all[0], names), Sizes(all[0], names));
    UnflattenedMean(all, names, flats, mean, result);
  }

  lemma PhasesMeet(x: seq<seq<seq<real>>>, n: nat, i: nat, c: nat)
    requires Grid(x, n) && i < n && c < n
    ensures Scattered(x, n, i, c, n - 1) == Gathered(x, n, i, c, 0)
    ensures Gathered(x, n, i, c, n - 1) == FullRun(x, n, c)
  {
  }

  /** The two phases: n - 1 scatter-reduce steps, then n - 1 all-gather steps. */
  method TurnRing(chunks: array2<seq<real>>, n: nat, ghost x: seq<seq<seq<real>>>)
    requires ScatteredTo(chunks, x, n, 0)
    modifies chunks
    ensures forall i, c | 0 <= i < n && 0 <= c < n :: chunks[i, c] == FullRun(x, n, c)
  {
    for step := 0 to n - 1
      invariant ScatteredTo(chunks, x, n, step)
    {
      ScatterStep(chunks, n, step, x);
    }
    forall i, c | 0 <= i < n && 0 <= c < n ensures Scattered(x, n, i, c, n - 1) == Gathered(x, n, i, c, 0) {
      PhasesMeet(x, n, i, c);
    }
    for step := 0 to n - 1
      invariant GatheredTo(chunks, x, n, step)
    {
      GatherStep(chunks, n, step, x);
    }
    forall i, c | 0 <= i < n && 0 <= c < n ensures chunks[i, c] == FullRun(x, n, c) {
      PhasesMeet(x, n, i, c);
    }
  }

  /** `RingAllReduce.reduce_all`: every peer ends with the mean of all the gradients. */
  method ReduceAll(all: seq<Gradient>) returns (results: seq<Gradient>)
    requires Stackable(all) && all[0] != map[]
    ensures |results| == |all|
    ensures forall i | 0 <= i < |all| :: results[i] == MeanGradient(all)
  {
    var n := |all|;
    var names := SortedNames(all[0].Keys);
    SortedNamesFacts(all[0].Keys);
    FlatLength(all, names);
    var flats := seq(n, p requires 0 <= p < n => Flatten(all[p], names));
    var chunks, x := FillChunks(flats, n);
    CutIsGrid(x, flats, n);
    TurnRing(chunks, n, x);
    results := [];
    for i := 0 to n
      invariant forall p, c | 0 <= p < n && 0 <= c < n :: chunks[p, c] == FullRun(x, n, c)
      invariant |results| == i
      invariant forall p | 0 <= p < i :: results[p] == MeanGradient(all)
    {
      var row := seq(n, c requires 0 <= c < n reads chunks => chunks[i, c]);
      var result := Reconstruct(all, names, flats, row, x);
      results := results + [result];
    }
  }
}
