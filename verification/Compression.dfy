/** Top-K sparsification: what is kept, what comes back, and why no other K entries would do better. */
module Compression {
  import opened Sums
  import opened Sorting
  import opened Vrf
  import opened Gradients
  import opened Euclid
  import opened Wrappers

  datatype Packed = Packed(indices: seq<nat>, values: seq<real>)

  datatype Meta = Meta(shape: seq<nat>, numel: nat, k: nat)

  function Abs(x: real): real {
    if x < 0.0 then -x else x
  }

  /** How many entries the ratio keeps: at least one. */
  function KeepCount(numel: nat, ratio: real): nat
    requires ratio >= 0.0
  {
    var k := (numel as real * ratio).Floor;
    if k < 1 then 1 else k
  }

  /** That is the whole part of the share, and one at least. */
  lemma KeepCountIs(numel: nat, ratio: real, k: nat)
    requires ratio >= 0.0 && k >= 1 && numel as real * ratio < k as real + 1.0 && (k > 1 ==> k as real <= numel as real * ratio)
    ensures KeepCount(numel, ratio) == k
  {
  }

  /** What `torch.topk` promises: `k` different places, none of which is beaten by a place left out. */
  ghost predicate IsTopK(flat: seq<real>, indices: seq<nat>, k: nat) {
    && |indices| == k && Distinct(indices) && (forall i | i in indices :: i < |flat|)
    && forall i, j: nat | i in indices && i < |flat| && j < |flat| && j !in indices :: Abs(flat[j]) <= Abs(flat[i])
  }

  function Magnitude(flat: seq<real>, i: nat): real {
    if i < |flat| then Abs(flat[i]) else 0.0
  }

  function ByMagnitude(flat: seq<real>): (nat, nat) -> bool {
    (i: nat, j: nat) => Magnitude(flat, i) >= Magnitude(flat, j)
  }

  function AllPlaces(n: nat): (r: seq<nat>)
    ensures |r| == n && Distinct(r)
    ensures forall i: nat :: i in r <==> i < n
  {
    var r: seq<nat> := Identity(n);
    assert forall i: nat :: i in r <==> i < n by {
      forall i: nat | i < n ensures i in r { assert r[i] == i; }
    }
    r
  }

  /** One choice `topk` may make: sort all places by magnitude, largest first. */
  function TopK(flat: seq<real>, k: nat): (r: seq<nat>)
    requires k <= |flat|
  {
    SortPermutes(ByMagnitude(flat), AllPlaces(|flat|));
    Sort(ByMagnitude(flat), AllPlaces(|flat|))[..k]
  }

  lemma KeptPrecedes(sorted: seq<nat>, k: nat, i: nat, j: nat)
    requires k <= |sorted| && i in sorted[..k] && j in sorted && j !in sorted[..k]
    ensures exists a, b :: 0 <= a < b < |sorted| && sorted[a] == i && sorted[b] == j
  {
    var a :| 0 <= a < k && sorted[..k][a] == i;
    var b := IndexOf(sorted, j);
    assert forall x | 0 <= x < k :: sorted[..k][x] == sorted[x];
    assert sorted[a] == i && sorted[b] == j && a < b;
  }

  lemma TopKIsTopK(flat: seq<real>, k: nat)
    requires k <= |flat|
    ensures IsTopK(flat, TopK(flat, k), k)
  {
    var le, places := ByMagnitude(flat), AllPlaces(|flat|);
    var sorted := Sort(le, places);
    SortSorts(le, places);
    SortPermutes(le, places);
    SortDistinct(le, places);
    SortMembers(le, places);
    var kept := sorted[..k];
    forall i, j: nat | i in kept && i < |flat| && j < |flat| && j !in kept
      ensures Abs(flat[j]) <= Abs(flat[i])
    {
      assert j in places;
      KeptPrecedes(sorted, k, i, j);
    }
    forall i | i in kept ensures i < |flat| {
      assert i in sorted;
    }
  }

  /** The chosen places and the values there. */
  ghost predicate IsPacked(flat: seq<real>, packed: Packed, k: nat) {
    && IsTopK(flat, packed.indices, k)
    && |packed.values| == k
    && forall p | 0 <= p < k :: packed.indices[p] in packed.indices && packed.values[p] == flat[packed.indices[p]]
  }

  /** `compress`: raises (here: none) like `topk` when more entries are asked for than there are. */
  method Compress(tensor: Tensor, ratio: real) returns (r: Option<(Packed, Meta)>)
    requires ratio >= 0.0 && |tensor.data| == Numel(tensor.shape)
    ensures r.None? <==> KeepCount(|tensor.data|, ratio) > |tensor.data|
    ensures r.Some? ==>
      && r.value.1 == Meta(tensor.shape, |tensor.data|, KeepCount(|tensor.data|, ratio))
      && IsPacked(tensor.data, r.value.0, r.value.1.k)
  {
    var flat := tensor.data;
    var k := KeepCount(|flat|, ratio);
    if k > |flat| {
      return None;
    }
    var indices := TopK(flat, k);
    TopKIsTopK(flat, k);
    assert forall p | 0 <= p < k :: indices[p] in indices;
    var values := seq(k, p requires 0 <= p < k => flat[indices[p]]);
    r := Some((Packed(indices, values), Meta(tensor.shape, |flat|, k)));
  }

  /** The kept entries in their places, zero elsewhere. */
  ghost predicate IsSparse(flat: seq<real>, indices: seq<nat>, result: seq<real>) {
    && |result| == |flat|
    && forall i: nat | i < |flat| :: result[i] == if i in indices then flat[i] else 0.0
  }

  /** `decompress`: the values written into a zeroed buffer. */
  method Decompress(packed: Packed, meta: Meta) returns (tensor: Tensor)
    requires |packed.indices| == |packed.values| == meta.k && Distinct(packed.indices)
    requires meta.numel == Numel(meta.shape) && forall i | i in packed.indices :: i < meta.numel
    ensures tensor.shape == meta.shape && |tensor.data| == meta.numel
    ensures forall p | 0 <= p < meta.k :: packed.indices[p] in packed.indices && tensor.data[packed.indices[p]] == packed.values[p]
    ensures forall i: nat | i < meta.numel && i !in packed.indices :: tensor.data[i] == 0.0
  {
    var result := new real[meta.numel](_ => 0.0);
    for p := 0 to meta.k
      invariant forall q | 0 <= q < p :: packed.indices[q] in packed.indices && result[packed.indices[q]] == packed.values[q]
      invariant forall i: nat | i < meta.numel && i !in packed.indices[..p] :: result[i] == 0.0
    {
      assert packed.indices[p] in packed.indices;
      result[packed.indices[p]] := packed.values[p];
      assert packed.indices[..p + 1] == packed.indices[..p] + [packed.indices[p]];
    }
    assert packed.indices[..meta.k] == packed.indices;
    tensor := Tensor(meta.shape, result[..]);
  }

  /** Compressing and decompressing keeps exactly the selected entries. */
  method RoundTrip(tensor: Tensor, ratio: real) returns (r: Option<Tensor>, ghost indices: seq<nat>)
    requires ratio >= 0.0 && |tensor.data| == Numel(tensor.shape)
    ensures r.None? <==> KeepCount(|tensor.data|, ratio) > |tensor.data|
    ensures r.Some? ==>
      && r.value.shape == tensor.shape
      && IsTopK(tensor.data, indices, KeepCount(|tensor.data|, ratio))
      && IsSparse(tensor.data, indices, r.value.data)
  {
    var c := Compress(tensor, ratio);
    if c.None? {
      return None, [];
    }
    var (packed, meta) := c.value;
    indices := packed.indices;
    var back := Decompress(packed, meta);
    forall i: nat | i < |tensor.data| ensures back.data[i] == if i in indices then tensor.data[i] else 0.0 {
      if i in indices {
        var p :| 0 <= p < meta.k && indices[p] == i;
      }
    }
    r := Some(back);
  }

  // --- Optimality ---

  function NonZero(): real -> bool {
    x => x != 0.0
  }

  function IsTrue(): bool -> bool {
    b => b
  }

  function SquaredError(x: seq<real>, y: seq<real>): real
    requires |x| == |y|
  {
    Dot(Sub(x, y), Sub(x, y))
  }

  function Bits(indices: seq<nat>, n: nat): (r: seq<bool>)
    ensures |r| == n
  {
    seq(n, i => i in indices)
  }

  function Support(y: seq<real>): (r: seq<bool>)
    ensures |r| == |y|
  {
    seq(|y|, i requires 0 <= i < |y| => y[i] != 0.0)
  }

  function Bit(b: bool): real {
    if b then 1.0 else 0.0
  }

  /** If entry by entry the gain pays for the exchange at price `tau`, it does so in total. */
  lemma {:induction false} ExchangeTotal(a: seq<real>, b: seq<real>, s: seq<bool>, t: seq<bool>, tau: real)
    requires |a| == |b| == |s| == |t|
    requires forall i | 0 <= i < |a| :: Scaled(a[i], a[i]) + Scaled(tau, Bit(s[i]) - Bit(t[i])) <= Scaled(b[i], b[i])
    ensures Dot(a, a) + Scaled(tau, Count(s, IsTrue()) as real - Count(t, IsTrue()) as real) <= Dot(b, b)
  {
    if a == [] {
    } else {
      ExchangeTotal(a[1..], b[1..], s[1..], t[1..], tau);
      var p, q := Count(s[1..], IsTrue()) as real - Count(t[1..], IsTrue()) as real, Bit(s[0]) - Bit(t[0]);
      Distribute(tau, q, p);
    }
  }

  lemma SquareByMagnitude(x: real, y: real)
    requires Abs(x) <= Abs(y)
    ensures Scaled(x, x) <= Scaled(y, y)
  {
    Negated(x, -x);
    Negated(y, -y);
    if Abs(x) < Abs(y) { StrictSquare(Abs(y), Abs(x)); }
  }

  lemma {:induction false} LeastKept(flat: seq<real>, indices: seq<nat>) returns (least: nat)
    requires indices != [] && forall i | i in indices :: i < |flat|
    ensures least in indices
    ensures forall i | i in indices :: Abs(flat[least]) <= Abs(flat[i])
    decreases |indices|
  {
    least := indices[0];
    assert forall i | i in indices[1..] :: i in indices;
    assert least in indices;
    if |indices| > 1 {
      var other := LeastKept(flat, indices[1..]);
      if Abs(flat[other]) < Abs(flat[least]) {
        least := other;
      }
      assert forall i | i in indices :: i == indices[0] || i in indices[1..];
    }
  }

  /** The least kept square separates kept from dropped squares. */
  lemma Threshold(flat: seq<real>, indices: seq<nat>, k: nat) returns (tau: real)
    requires IsTopK(flat, indices, k)
    ensures tau >= 0.0
    ensures forall i: nat | i < |flat| && i in indices && k > 0 :: tau <= Scaled(flat[i], flat[i])
    ensures k > 0 ==> forall j: nat | j < |flat| && j !in indices :: Scaled(flat[j], flat[j]) <= tau
  {
    if k == 0 {
      return 0.0;
    }
    var least := LeastKept(flat, indices);
    tau := Scaled(flat[least], flat[least]);
    Square(flat[least]);
    forall i: nat | i < |flat| && i in indices ensures tau <= Scaled(flat[i], flat[i]) {
      SquareByMagnitude(flat[least], flat[i]);
    }
    forall j: nat | j < |flat| && j !in indices ensures Scaled(flat[j], flat[j]) <= tau {
      SquareByMagnitude(flat[j], flat[least]);
    }
  }

  ghost function MembersBelow(indices: seq<nat>, n: nat): set<nat> {
    set x | x in indices && x < n
  }

  lemma BelowStep(indices: seq<nat>, n: nat)
    requires n > 0
    ensures |MembersBelow(indices, n)| == |MembersBelow(indices, n - 1)| + if n - 1 in indices then 1 else 0
  {
    if n - 1 in indices {
      assert MembersBelow(indices, n) == MembersBelow(indices, n - 1) + {n - 1};
    } else {
      assert MembersBelow(indices, n) == MembersBelow(indices, n - 1);
    }
  }

  lemma BitsStep(indices: seq<nat>, n: nat)
    requires n > 0
    ensures Count(Bits(indices, n), IsTrue()) == Count(Bits(indices, n - 1), IsTrue()) + if n - 1 in indices then 1 else 0
  {
    var last := [n - 1 in indices];
    assert Bits(indices, n) == Bits(indices, n - 1) + last;
    CountConcat(Bits(indices, n - 1), last, IsTrue());
    assert last[1..] == [];
  }

  lemma {:induction false} BitsCountBelow(indices: seq<nat>, n: nat)
    ensures Count(Bits(indices, n), IsTrue()) == |MembersBelow(indices, n)|
  {
    if n == 0 {
      assert MembersBelow(indices, 0) == {};
    } else {
      BitsCountBelow(indices, n - 1);
      BitsStep(indices, n);
      BelowStep(indices, n);
    }
  }

  lemma BitsCount(indices: seq<nat>, n: nat)
    requires Distinct(indices) && forall i | i in indices :: i < n
    ensures Count(Bits(indices, n), IsTrue()) == |indices|
  {
    BitsCountBelow(indices, n);
    DistinctSetSize(indices);
    assert MembersBelow(indices, n) == Elements(indices);
  }

  lemma {:induction false} CountNone<T>(s: seq<T>, p: T -> bool, i: nat)
    requires i < |s| && Count(s, p) == 0
    ensures !p(s[i])
  {
    if i > 0 { CountNone(s[1..], p, i - 1); }
  }

  /** One entry: dropping a kept square costs at least `tau`, keeping a dropped one gains at most `tau`. */
  lemma ExchangeAt(x: real, y: real, tau: real, kept: bool)
    requires kept ==> tau <= Scaled(x, x)
    requires !kept && y != 0.0 ==> Scaled(x, x) <= tau
    requires tau >= 0.0
    ensures var left := if kept then 0.0 else x;
      Scaled(left, left) + Scaled(tau, Bit(kept) - Bit(y != 0.0)) <= Scaled(x - y, x - y)
  {
    Square(x - y);
    assert Scaled(tau, 1.0) == tau && Scaled(tau, -1.0) == -tau && Scaled(tau, 0.0) == 0.0;
    assert Scaled(0.0, 0.0) == 0.0;
  }

  /** Among all vectors with at most `k` nonzero entries the decompressed one has the least squared error. */
  lemma TopKOptimal(flat: seq<real>, indices: seq<nat>, k: nat, result: seq<real>, y: seq<real>)
    requires IsTopK(flat, indices, k) && IsSparse(flat, indices, result)
    requires |y| == |flat| && Count(y, NonZero()) <= k
    ensures SquaredError(flat, result) <= SquaredError(flat, y)
  {
    var tau := Threshold(flat, indices, k);
    var n := |flat|;
    var a, b, s, t := Sub(flat, result), Sub(flat, y), Bits(indices, n), Support(y);
    BitsCount(indices, n);
    CountImplies(t, y, IsTrue(), NonZero());
    CountImplies(y, t, NonZero(), IsTrue());
    forall i | 0 <= i < n
      ensures Scaled(a[i], a[i]) + Scaled(tau, Bit(s[i]) - Bit(t[i])) <= Scaled(b[i], b[i])
    {
      if k == 0 {
        CountNone(y, NonZero(), i);
      }
      ExchangeAt(flat[i], y[i], tau, s[i]);
    }
    ExchangeTotal(a, b, s, t, tau);
    NonNegative(tau, k as real - Count(y, NonZero()) as real);
  }
}
