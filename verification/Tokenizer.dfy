/** The byte-level BPE tokenizer: merging, and the single pass that undoes it. */
module Tokenizer {
  import opened Bytes

  type Pair = (int, int)

  type Table = map<Pair, int>

  const BOS_TOKEN: int := 1

  const EOS_TOKEN: int := 2

  const SPECIAL_TOKENS: int := 4

  /** The token of a single byte. */
  predicate IsByte(x: int) {
    SPECIAL_TOKENS <= x < SPECIAL_TOKENS + 256
  }

  // --- The merge table ---

  /** The ids run on from `start`; a pair listed again takes its later id. */
  function TableOf(merges: seq<Pair>, start: int): Table {
    if merges == [] then map[]
    else TableOf(merges[..|merges| - 1], start)[merges[|merges| - 1] := start + |merges| - 1]
  }

  predicate IsIdOf(merges: seq<Pair>, start: int, id: int, p: Pair) {
    start <= id < start + |merges| && merges[id - start] == p
  }

  lemma {:induction false} TableFacts(merges: seq<Pair>, start: int)
    ensures forall p :: p in TableOf(merges, start) <==> p in merges
    ensures forall p | p in TableOf(merges, start) :: IsIdOf(merges, start, TableOf(merges, start)[p], p)
  {
    if merges == [] {
    } else {
      var n := |merges| - 1;
      TableFacts(merges[..n], start);
      assert merges == merges[..n] + [merges[n]];
      forall p | p in TableOf(merges, start) ensures IsIdOf(merges, start, TableOf(merges, start)[p], p) {
        if p != merges[n] {
          assert IsIdOf(merges[..n], start, TableOf(merges[..n], start)[p], p);
        }
      }
    }
  }

  lemma IdsInRange(merges: seq<Pair>, start: int)
    ensures forall x | x in TableOf(merges, start).Values :: start <= x < start + |merges|
  {
    var m := TableOf(merges, start);
    TableFacts(merges, start);
    forall x | x in m.Values ensures start <= x < start + |merges| {
      var p :| p in m && m[p] == x;
      assert IsIdOf(merges, start, x, p);
    }
  }

  /** Distinct pairs have distinct ids. */
  predicate OneToOne(m: Table) {
    forall p, q | p in m && q in m && m[p] == m[q] :: p == q
  }

  lemma TableOneToOne(merges: seq<Pair>, start: int)
    ensures OneToOne(TableOf(merges, start))
  {
    TableFacts(merges, start);
    var m := TableOf(merges, start);
    forall p, q | p in m && q in m && m[p] == m[q] ensures p == q {
      assert IsIdOf(merges, start, m[p], p) && IsIdOf(merges, start, m[q], q);
    }
  }

  // --- Merging ---

  predicate MergesAt(t: seq<int>, i: int, m: Table) {
    0 <= i && i + 1 < |t| && (t[i], t[i + 1]) in m
  }

  function MergeStep(t: seq<int>, i: int, m: Table): (r: seq<int>)
    requires MergesAt(t, i, m)
    ensures |r| == |t| - 1
  {
    t[..i] + [m[(t[i], t[i + 1])]] + t[i + 2..]
  }

  /** The leftmost place at or after `i` where two neighbours merge; the length, when there is none. */
  function FirstMerge(t: seq<int>, i: nat, m: Table): (r: nat)
    requires i <= |t|
    ensures r == |t| || MergesAt(t, r, m)
    ensures forall j | i <= j < r :: !MergesAt(t, j, m)
    decreases |t| - i
  {
    if i == |t| then i else if MergesAt(t, i, m) then i else FirstMerge(t, i + 1, m)
  }

  /** Merging the leftmost pair until no two neighbours merge; every merge shortens the list. */
  function Merged(t: seq<int>, m: Table): (r: seq<int>)
    ensures forall i | 0 <= i < |r| :: !MergesAt(r, i, m)
    decreases |t|
  {
    var i := FirstMerge(t, 0, m);
    if i == |t| then t else Merged(MergeStep(t, i, m), m)
  }

  // --- Meaning ---

  predicate IsPart(x: int, start: int, top: int) {
    IsByte(x) || start <= x < top
  }

  /** Both parts of every merge are bytes or earlier merges, and no id is the token of a byte. */
  predicate WellFounded(merges: seq<Pair>, start: int) {
    && start >= SPECIAL_TOKENS + 256
    && forall i | 0 <= i < |merges| :: IsPart(merges[i].0, start, start + i) && IsPart(merges[i].1, start, start + i)
  }

  /** The byte tokens a token stands for. */
  function Expand(merges: seq<Pair>, start: int, x: int): (r: seq<int>)
    requires WellFounded(merges, start)
    ensures |r| > 0
    ensures !IsByte(x) && start <= x < start + |merges| ==> |r| >= 2
    decreases x
  {
    if start <= x < start + |merges| then
      var p := merges[x - start];
      Expand(merges, start, p.0) + Expand(merges, start, p.1)
    else [x]
  }

  function ExpandAll(merges: seq<Pair>, start: int, t: seq<int>): seq<int>
    requires WellFounded(merges, start)
  {
    if t == [] then [] else Expand(merges, start, t[0]) + ExpandAll(merges, start, t[1..])
  }

  lemma {:induction false} ExpandConcat(merges: seq<Pair>, start: int, a: seq<int>, b: seq<int>)
    requires WellFounded(merges, start)
    ensures ExpandAll(merges, start, a + b) == ExpandAll(merges, start, a) + ExpandAll(merges, start, b)
  {
    if a == [] {
      assert a + b == b;
    } else {
      assert (a + b)[1..] == a[1..] + b;
      ExpandConcat(merges, start, a[1..], b);
    }
  }

  lemma ExpandSingle(merges: seq<Pair>, start: int, x: int)
    requires WellFounded(merges, start)
    ensures ExpandAll(merges, start, [x]) == Expand(merges, start, x)
  {
    assert [x][1..] == [];
    assert ExpandAll(merges, start, []) == [];
  }

  lemma ExpandPair(merges: seq<Pair>, start: int, x: int, y: int, id: int)
    requires WellFounded(merges, start) && IsIdOf(merges, start, id, (x, y))
    ensures ExpandAll(merges, start, [x, y]) == Expand(merges, start, id)
  {
    assert [x, y] == [x] + [y];
    ExpandConcat(merges, start, [x], [y]);
    ExpandSingle(merges, start, x);
    ExpandSingle(merges, start, y);
  }

  lemma StepKeepsMeaning(merges: seq<Pair>, start: int, t: seq<int>, i: nat)
    requires WellFounded(merges, start) && MergesAt(t, i, TableOf(merges, start))
    ensures ExpandAll(merges, start, MergeStep(t, i, TableOf(merges, start))) == ExpandAll(merges, start, t)
  {
    var m := TableOf(merges, start);
    var id := m[(t[i], t[i + 1])];
    TableFacts(merges, start);
    ExpandPair(merges, start, t[i], t[i + 1], id);
    ExpandSingle(merges, start, id);
    ExpandConcat(merges, start, t[..i], [id]);
    ExpandConcat(merges, start, t[..i] + [id], t[i + 2..]);
    ExpandConcat(merges, start, t[..i], [t[i], t[i + 1]]);
    ExpandConcat(merges, start, t[..i] + [t[i], t[i + 1]], t[i + 2..]);
    assert t == t[..i] + [t[i], t[i + 1]] + t[i + 2..];
  }

  /** Greedy merging keeps the meaning of every token list. */
  lemma {:induction false} MergingKeepsMeaning(merges: seq<Pair>, start: int, t: seq<int>)
    requires WellFounded(merges, start)
    ensures ExpandAll(merges, start, Merged(t, TableOf(merges, start))) == ExpandAll(merges, start, t)
    decreases |t|
  {
    var m := TableOf(merges, start);
    var i := FirstMerge(t, 0, m);
    if i < |t| {
      StepKeepsMeaning(merges, start, t, i);
      MergingKeepsMeaning(merges, start, MergeStep(t, i, m));
    }
  }

  lemma {:induction false} BytesMeanThemselves(merges: seq<Pair>, start: int, t: seq<int>)
    requires WellFounded(merges, start) && forall x | x in t :: IsByte(x)
    ensures ExpandAll(merges, start, t) == t
  {
    if t == [] {
    } else {
      BytesMeanThemselves(merges, start, t[1..]);
      assert t[0] in t && t == [t[0]] + t[1..];
    }
  }

  /** What merging leaves: bytes and ids of the table. */
  predicate InTable(t: seq<int>, m: Table) {
    forall x | x in t :: IsByte(x) || x in m.Values
  }

  lemma {:induction false} MergedInTable(t: seq<int>, m: Table)
    requires InTable(t, m)
    ensures InTable(Merged(t, m), m)
    decreases |t|
  {
    var i := FirstMerge(t, 0, m);
    if i < |t| {
      assert m[(t[i], t[i + 1])] in m.Values;
      MergedInTable(MergeStep(t, i, m), m);
    }
  }

  // --- Encoding and decoding ---

  function ByteTokens(bytes: Data): (r: seq<int>)
    ensures |r| == |bytes|
    ensures forall x | x in r :: IsByte(x)
  {
    seq(|bytes|, i requires 0 <= i < |bytes| => bytes[i] + SPECIAL_TOKENS)
  }

  function Truncated(t: seq<int>, max: nat): seq<int> {
    if |t| > max then t[..max] else t
  }

  function Wrapped(t: seq<int>, addSpecial: bool): seq<int> {
    if addSpecial then [BOS_TOKEN] + t + [EOS_TOKEN] else t
  }

  function Encoded(m: Table, bytes: Data, addSpecial: bool, max: nat): seq<int> {
    Truncated(Wrapped(Merged(ByteTokens(bytes), m), addSpecial), max)
  }

  function Visible(t: seq<int>): seq<int> {
    if t == [] then [] else (if t[0] >= SPECIAL_TOKENS then [t[0]] else []) + Visible(t[1..])
  }

  function Reverse(m: Table): map<int, Pair>
    requires OneToOne(m)
  {
    map p | p in m :: m[p] := p
  }

  function Pass(reverse: map<int, Pair>, x: int): seq<int> {
    if x in reverse then [reverse[x].0, reverse[x].1] else [x]
  }

  function PassAll(reverse: map<int, Pair>, t: seq<int>): seq<int> {
    if t == [] then [] else Pass(reverse, t[0]) + PassAll(reverse, t[1..])
  }

  function ByteOf(x: int): Data {
    if IsByte(x) then [x - SPECIAL_TOKENS] else []
  }

  /** The tokens of bytes, as bytes; every other token is skipped. */
  function ToBytes(t: seq<int>): Data {
    if t == [] then [] else ByteOf(t[0]) + ToBytes(t[1..])
  }

  function Decoded(m: Table, t: seq<int>): Data
    requires OneToOne(m)
  {
    ToBytes(PassAll(Reverse(m), Visible(t)))
  }

  lemma {:induction false} VisibleConcat(a: seq<int>, b: seq<int>)
    ensures Visible(a + b) == Visible(a) + Visible(b)
  {
    if a == [] {
      assert a + b == b;
    } else {
      assert (a + b)[0] == a[0] && (a + b)[1..] == a[1..] + b;
      VisibleConcat(a[1..], b);
      var first := if a[0] >= SPECIAL_TOKENS then [a[0]] else [];
      assert first + (Visible(a[1..]) + Visible(b)) == first + Visible(a[1..]) + Visible(b);
    }
  }

  lemma {:induction false} AllVisible(t: seq<int>)
    requires forall x | x in t :: x >= SPECIAL_TOKENS
    ensures Visible(t) == t
  {
    if t == [] {
    } else {
      assert t[0] in t && forall x | x in t[1..] :: x in t;
      AllVisible(t[1..]);
      assert t == [t[0]] + t[1..];
    }
  }

  lemma {:induction false} ToBytesConcat(a: seq<int>, b: seq<int>)
    ensures ToBytes(a + b) == ToBytes(a) + ToBytes(b)
  {
    if a == [] {
      assert a + b == b;
    } else {
      assert (a + b)[0] == a[0] && (a + b)[1..] == a[1..] + b;
      ToBytesConcat(a[1..], b);
      assert ByteOf(a[0]) + (ToBytes(a[1..]) + ToBytes(b)) == ByteOf(a[0]) + ToBytes(a[1..]) + ToBytes(b);
    }
  }

  lemma {:induction false} BytesBack(bytes: Data)
    ensures ToBytes(ByteTokens(bytes)) == bytes
  {
    if bytes == [] {
    } else {
      BytesBack(bytes[1..]);
      assert ByteTokens(bytes)[0] in ByteTokens(bytes);
      assert ByteTokens(bytes)[1..] == ByteTokens(bytes[1..]);
    }
  }

  // --- When decoding inverts encoding ---

  /** The byte of a token in the range of bytes, if it is one. */
  function PlainByte(x: int): Data {
    if 4 <= x < 260 then [x - 4] else []
  }

  lemma PassFirst(r: map<int, Pair>, x: int, t: seq<int>)
    ensures x >= SPECIAL_TOKENS ==> ToBytes(PassAll(r, Visible([x] + t))) == ToBytes(Pass(r, x)) + ToBytes(PassAll(r, Visible(t)))
    ensures x < SPECIAL_TOKENS ==> Visible([x] + t) == Visible(t)
  {
    var v := Visible(t);
    assert ([x] + t)[1..] == t;
    if x >= SPECIAL_TOKENS {
      assert Visible([x] + t) == [x] + v && ([x] + v)[1..] == v;
      ToBytesConcat(Pass(r, x), PassAll(r, v));
    } else {
      assert Visible([x] + t) == [] + v == v;
    }
  }

  lemma PartBytes(x: int, y: int)
    ensures ToBytes([x]) == PlainByte(x) && ToBytes([x, y]) == PlainByte(x) + PlainByte(y)
  {
    assert [x, y][1..] == [y] && [y][1..] == [] && [x][1..] == [];
  }

  /** Decoding goes token by token, for any tokens at all: special ones and unknown ones are dropped, bytes come out four down, and
      a merged token gives the bytes among its two parts. */
  lemma DecodesTokenwise(m: Table, x: int, t: seq<int>)
    requires OneToOne(m)
    ensures Decoded(m, []) == []
    ensures (forall p | p in m :: m[p] != x) ==> Decoded(m, [x] + t) == PlainByte(x) + Decoded(m, t)
    ensures forall p | p in m && m[p] == x && x >= 4 :: Decoded(m, [x] + t) == PlainByte(p.0) + PlainByte(p.1) + Decoded(m, t)
    ensures x < 4 ==> Decoded(m, [x] + t) == Decoded(m, t)
  {
    PassFirst(Reverse(m), x, t);
    PartBytes(x, x);
    forall p | p in m && m[p] == x ensures ToBytes(Pass(Reverse(m), x)) == PlainByte(p.0) + PlainByte(p.1) {
      PartBytes(p.0, p.1);
    }
  }

  /** A byte, or a merge of two bytes: what a single pass can undo. */
  predicate IsFlat(merges: seq<Pair>, start: int, x: int) {
    start <= x < start + |merges| ==> IsByte(merges[x - start].0) && IsByte(merges[x - start].1)
  }

  predicate AllFlat(merges: seq<Pair>, start: int, t: seq<int>) {
    forall x | x in t :: IsFlat(merges, start, x)
  }

  lemma BytePair(x: int, y: int)
    ensures ToBytes([x, y]) == ByteOf(x) + ByteOf(y)
  {
    assert [x, y][1..] == [y] && [y][1..] == [];
    assert ToBytes([y]) == ByteOf(y) + ToBytes([]);
  }

  lemma {:induction false} ByteExpansion(merges: seq<Pair>, start: int, x: int)
    requires WellFounded(merges, start) && IsPart(x, start, start + |merges|)
    ensures |Expand(merges, start, x)| >= 1
    ensures IsByte(x) ==> Expand(merges, start, x) == [x]
  {
  }

  /** One token: the pass yields no more bytes than it stands for, and all of them exactly when it is flat. */
  lemma PassOne(merges: seq<Pair>, start: int, x: int)
    requires WellFounded(merges, start)
    requires IsByte(x) || x in TableOf(merges, start).Values
    requires OneToOne(TableOf(merges, start))
    ensures var passed := ToBytes(Pass(Reverse(TableOf(merges, start)), x));
      && |passed| <= |Expand(merges, start, x)|
      && (IsFlat(merges, start, x) ==> Pass(Reverse(TableOf(merges, start)), x) == Expand(merges, start, x)
                                       && |passed| == |Expand(merges, start, x)|)
      && (!IsFlat(merges, start, x) ==> |passed| < |Expand(merges, start, x)|)
  {
    var m := TableOf(merges, start);
    TableFacts(merges, start);
    if x in m.Values {
      var p :| p in m && m[p] == x;
      assert IsIdOf(merges, start, x, p);
      assert Reverse(m)[x] == p;
      BytePair(p.0, p.1);
      ByteExpansion(merges, start, p.0);
      ByteExpansion(merges, start, p.1);
    } else {
      assert x !in Reverse(m);
      assert [x][1..] == [];
    }
  }

  /** Many tokens, likewise. */
  lemma {:induction false} PassMany(merges: seq<Pair>, start: int, t: seq<int>)
    requires WellFounded(merges, start) && InTable(t, TableOf(merges, start)) && OneToOne(TableOf(merges, start))
    ensures var passed := PassAll(Reverse(TableOf(merges, start)), t);
      && |ToBytes(passed)| <= |ExpandAll(merges, start, t)|
      && (AllFlat(merges, start, t) ==> passed == ExpandAll(merges, start, t))
      && (!AllFlat(merges, start, t) ==> |ToBytes(passed)| < |ExpandAll(merges, start, t)|)
  {
    if t == [] {
    } else {
      assert forall x :: x in t <==> x == t[0] || x in t[1..];
      PassOne(merges, start, t[0]);
      PassMany(merges, start, t[1..]);
      ToBytesConcat(Pass(Reverse(TableOf(merges, start)), t[0]), PassAll(Reverse(TableOf(merges, start)), t[1..]));
    }
  }

  lemma {:induction false} ExpansionNotEmpty(merges: seq<Pair>, start: int, t: seq<int>)
    requires WellFounded(merges, start)
    ensures |ExpandAll(merges, start, t)| >= |t|
  {
    if t != [] {
      ExpansionNotEmpty(merges, start, t[1..]);
    }
  }

  /** How many of `n` merged tokens survive truncation. */
  function Kept(n: nat, addSpecial: bool, max: nat): (r: nat)
    ensures r <= n
  {
    var room := if addSpecial && max > 0 then max - 1 else max;
    if room < n then room else n
  }

  lemma SpecialsVanish(t: seq<int>)
    requires forall x | x in t :: x >= SPECIAL_TOKENS
    ensures Visible([BOS_TOKEN] + t) == t && Visible([BOS_TOKEN] + t + [EOS_TOKEN]) == t
  {
    AllVisible(t);
    assert Visible([BOS_TOKEN]) == [] && Visible([EOS_TOKEN]) == [] by {
      assert [BOS_TOKEN][1..] == [] && [EOS_TOKEN][1..] == [];
    }
    VisibleConcat([BOS_TOKEN], t);
    VisibleConcat([BOS_TOKEN] + t, [EOS_TOKEN]);
  }

  /** Truncation of a special-wrapped list: nothing, the start and some tokens, or everything. */
  lemma WrappedTruncated(t: seq<int>, max: nat)
    ensures var kept := t[..Kept(|t|, true, max)];
      Truncated([BOS_TOKEN] + t + [EOS_TOKEN], max) ==
        if max == 0 then [] else if |t| + 2 <= max then [BOS_TOKEN] + kept + [EOS_TOKEN] else [BOS_TOKEN] + kept
    ensures max == 0 ==> t[..Kept(|t|, true, max)] == []
  {
    assert t[..|t|] == t;
  }

  lemma DecodedKept(m: Table, bytes: Data, addSpecial: bool, max: nat)
    requires OneToOne(m) && forall x | x in m.Values :: x >= SPECIAL_TOKENS
    ensures var t := Merged(ByteTokens(bytes), m);
      Visible(Encoded(m, bytes, addSpecial, max)) == t[..Kept(|t|, addSpecial, max)]
  {
    var t := Merged(ByteTokens(bytes), m);
    MergedInTable(ByteTokens(bytes), m);
    var kept := t[..Kept(|t|, addSpecial, max)];
    assert forall x | x in kept :: x in t;
    if addSpecial {
      WrappedTruncated(t, max);
      SpecialsVanish(kept);
    } else {
      AllVisible(kept);
      assert Encoded(m, bytes, addSpecial, max) == kept;
    }
  }

  /** The pass over a prefix of tokens that together stand for `bytes`. */
  lemma PrefixPassIff(merges: seq<Pair>, start: int, t: seq<int>, n: nat, bytes: Data)
    requires WellFounded(merges, start) && InTable(t, TableOf(merges, start)) && OneToOne(TableOf(merges, start))
    requires n <= |t| && ExpandAll(merges, start, t) == ByteTokens(bytes)
    ensures ToBytes(PassAll(Reverse(TableOf(merges, start)), t[..n])) == bytes <==> n == |t| && AllFlat(merges, start, t)
  {
    var kept, cut := t[..n], t[n..];
    assert t == kept + cut && forall x | x in kept :: x in t;
    PassMany(merges, start, kept);
    ExpandConcat(merges, start, kept, cut);
    ExpansionNotEmpty(merges, start, cut);
    BytesBack(bytes);
    if n == |t| {
      assert kept == t;
    }
  }

  /** Decoding gives the bytes back exactly when no merged token is cut off and every one is flat. */
  lemma DecodeInvertsEncodeIff(merges: seq<Pair>, start: int, bytes: Data, addSpecial: bool, max: nat)
    requires WellFounded(merges, start)
    ensures OneToOne(TableOf(merges, start))
    ensures var m := TableOf(merges, start);
      var t := Merged(ByteTokens(bytes), m);
      Decoded(m, Encoded(m, bytes, addSpecial, max)) == bytes
      <==> Kept(|t|, addSpecial, max) == |t| && AllFlat(merges, start, t)
  {
    var m := TableOf(merges, start);
    var t := Merged(ByteTokens(bytes), m);
    TableOneToOne(merges, start);
    IdsInRange(merges, start);
    MergedInTable(ByteTokens(bytes), m);
    DecodedKept(m, bytes, addSpecial, max);
    MergingKeepsMeaning(merges, start, ByteTokens(bytes));
    BytesMeanThemselves(merges, start, ByteTokens(bytes));
    PrefixPassIff(merges, start, t, Kept(|t|, addSpecial, max), bytes);
  }

  /** A table of byte pairs only: decoding inverts encoding on every input that is not truncated. */
  lemma FlatTableRoundTrip(merges: seq<Pair>, start: int, bytes: Data, addSpecial: bool, max: nat)
    requires WellFounded(merges, start) && forall p | p in merges :: IsByte(p.0) && IsByte(p.1)
    requires |bytes| + 2 <= max
    ensures OneToOne(TableOf(merges, start))
    ensures Decoded(TableOf(merges, start), Encoded(TableOf(merges, start), bytes, addSpecial, max)) == bytes
  {
    var m := TableOf(merges, start);
    var t := Merged(ByteTokens(bytes), m);
    MergingKeepsMeaning(merges, start, ByteTokens(bytes));
    BytesMeanThemselves(merges, start, ByteTokens(bytes));
    ExpansionNotEmpty(merges, start, t);
    DecodeInvertsEncodeIff(merges, start, bytes, addSpecial, max);
  }

  /** A merge of a merge is not undone: "abc" comes back as "c". */
  lemma NestedMergeLosesBytes()
    ensures WellFounded([(101, 102), (260, 103)], 260) && OneToOne(TableOf([(101, 102), (260, 103)], 260))
    ensures Decoded(TableOf([(101, 102), (260, 103)], 260),
                    Encoded(TableOf([(101, 102), (260, 103)], 260), [97, 98, 99], true, 512)) != [97, 98, 99]
  {
    var merges: seq<Pair> := [(101, 102), (260, 103)];
    var m := TableOf(merges, 260);
    assert merges[..1] == [(101, 102)] && [(101, 102)][..0] == [];
    assert TableOf(merges[..1], 260) == map[(101, 102) := 260];
    assert m == map[(101, 102) := 260, (260, 103) := 261];
    var t := ByteTokens([97, 98, 99]);
    assert t == [101, 102, 103];
    assert MergesAt(t, 0, m) && FirstMerge(t, 0, m) == 0;
    assert MergeStep(t, 0, m) == [260, 103];
    assert MergesAt([260, 103], 0, m) && FirstMerge([260, 103], 0, m) == 0;
    assert MergeStep([260, 103], 0, m) == [261];
    assert Merged([261], m) == [261];
    assert Merged(t, m) == [261];
    assert 261 in Merged(t, m) && !IsFlat(merges, 260, 261);
    DecodeInvertsEncodeIff(merges, 260, [97, 98, 99], true, 512);
  }

  /** Without truncation an encoding begins with token 1 and ends with token 2, and what lies between are the merged tokens, all of
      them above the special ones; truncation cuts the end off. */
  lemma EncodingIs(m: Table, bytes: Data, max: nat)
    requires OneToOne(m) && forall x | x in m.Values :: x >= SPECIAL_TOKENS
    ensures var r, t := Encoded(m, bytes, true, max), Merged(ByteTokens(bytes), m);
      && (forall x | x in t :: x >= 4)
      && |r| == (if |t| + 2 <= max then |t| + 2 else max)
      && forall k | 0 <= k < |r| :: r[k] == if k == 0 then 1 else if k <= |t| then t[k - 1] else 2
    ensures var r, t := Encoded(m, bytes, false, max), Merged(ByteTokens(bytes), m);
      |r| == (if |t| <= max then |t| else max) && forall k | 0 <= k < |r| :: r[k] == t[k]
  {
    MergedInTable(ByteTokens(bytes), m);
  }

  /** A text of which no two neighbours merge is encoded byte by byte, four up. */
  lemma PlainEncoding(m: Table, bytes: Data, k: nat)
    requires k < |bytes| && forall i | 0 <= i < |bytes| - 1 :: (bytes[i] as int + 4, bytes[i + 1] as int + 4) !in m
    ensures |Merged(ByteTokens(bytes), m)| == |bytes| && Merged(ByteTokens(bytes), m)[k] == bytes[k] as int + 4
  {
    var t := ByteTokens(bytes);
    var i := FirstMerge(t, 0, m);
    assert forall j | 0 <= j < |t| - 1 :: (bytes[j] as int + 4, bytes[j + 1] as int + 4) == (t[j], t[j + 1]);
  }

  lemma OnePair()
    ensures Merged([101, 101, 101], TableOf([(101, 101)], 260)) == [260, 101]
  {
    var m := TableOf([(101, 101)], 260);
    assert m == map[(101, 101) := 260] by { assert TableOf([], 260) == map[]; }
    var t := [101, 101, 101];
    assert MergesAt(t, 0, m) && FirstMerge(t, 0, m) == 0;
    assert MergeStep(t, 0, m) == [260, 101];
    assert FirstMerge([260, 101], 0, m) == 2;
  }

  lemma TwoPairs()
    ensures Merged([101, 101, 101, 102], TableOf([(101, 102), (101, 101)], 260)) == [261, 260]
  {
    var merges := [(101, 102), (101, 101)];
    var m := TableOf(merges, 260);
    assert merges[..1] == [(101, 102)];
    assert TableOf(merges[..1], 260) == map[(101, 102) := 260];
    assert m == map[(101, 102) := 260, (101, 101) := 261];
    var t := [101, 101, 101, 102];
    assert MergesAt(t, 0, m) && FirstMerge(t, 0, m) == 0;
    assert MergeStep(t, 0, m) == [261, 101, 102];
    var u := [261, 101, 102];
    assert !MergesAt(u, 0, m) && MergesAt(u, 1, m) && FirstMerge(u, 0, m) == 1;
    assert MergeStep(u, 1, m) == [261, 260];
    assert FirstMerge([261, 260], 0, m) == 2;
  }

  lemma ThreePairs()
    ensures Merged([101, 101, 101, 102], TableOf([(101, 102), (101, 101), (261, 260)], 260)) == [262]
  {
    var merges := [(101, 102), (101, 101), (261, 260)];
    var m := TableOf(merges, 260);
    assert merges[..2] == [(101, 102), (101, 101)] && merges[..2][..1] == [(101, 102)];
    assert TableOf(merges[..2][..1], 260) == map[(101, 102) := 260];
    assert TableOf(merges[..2], 260) == map[(101, 102) := 260, (101, 101) := 261];
    assert m == map[(101, 102) := 260, (101, 101) := 261, (261, 260) := 262];
    var t := [101, 101, 101, 102];
    assert MergesAt(t, 0, m) && FirstMerge(t, 0, m) == 0;
    assert MergeStep(t, 0, m) == [261, 101, 102];
    var u := [261, 101, 102];
    assert !MergesAt(u, 0, m) && MergesAt(u, 1, m) && FirstMerge(u, 0, m) == 1;
    assert MergeStep(u, 1, m) == [261, 260];
    var v := [261, 260];
    assert MergesAt(v, 0, m) && FirstMerge(v, 0, m) == 0;
    assert MergeStep(v, 0, m) == [262];
    assert FirstMerge([262], 0, m) == 1;
  }

  /** The leftmost pair merges first, whatever its place in the list, and merged tokens merge again: "aaab" with the pairs (a, b)
      and (a, a), and then with the pair of their tokens as well, and "aaa" with the pair (a, a). */
  lemma LeftmostFirst()
    ensures Merged([101, 101, 101, 102], TableOf([(101, 102), (101, 101)], 260)) == [261, 260]
    ensures Merged([101, 101, 101], TableOf([(101, 101)], 260)) == [260, 101]
    ensures Merged([101, 101, 101, 102], TableOf([(101, 102), (101, 101), (261, 260)], 260)) == [262]
  {
    TwoPairs();
    ThreePairs();
    OnePair();
  }

  /** Every token an encoder emits has a row in a model of the advertised vocabulary size. */
  lemma EncodedInVocabulary(merges: seq<Pair>, start: int, bytes: Data, addSpecial: bool, max: nat, x: int)
    requires start >= SPECIAL_TOKENS + 256 && x in Encoded(TableOf(merges, start), bytes, addSpecial, max)
    ensures 0 <= x < start + |merges|
  {
    var m := TableOf(merges, start);
    TableFacts(merges, start);
    var t := Merged(ByteTokens(bytes), m);
    MergedInTable(ByteTokens(bytes), m);
    IdsInRange(merges, start);
    var whole := if addSpecial then [BOS_TOKEN] + t + [EOS_TOKEN] else t;
    assert x in whole && (x == BOS_TOKEN || x == EOS_TOKEN || x in t);
  }

  // --- Rebuilding a tokenizer from its own dictionary ---

  /** The place of the first merged token; the length, when there is none. */
  function FirstId(t: seq<int>, start: int): (r: nat)
    ensures r <= |t|
    ensures r < |t| ==> t[r] >= start
    ensures forall j | 0 <= j < r :: t[j] < start
  {
    if t == [] || t[0] >= start then 0 else 1 + FirstId(t[1..], start)
  }

  lemma FirstIdAtMost(t: seq<int>, start: int, j: nat)
    requires j < |t| && t[j] >= start
    ensures FirstId(t, start) <= j
  {
  }

  /** Merging on never moves the first merged token to the right. */
  lemma {:induction false} FirstIdStays(merges: seq<Pair>, start: int, t: seq<int>, i: nat)
    requires FirstId(t, start) <= i && FirstId(t, start) < |t|
    ensures var r := Merged(t, TableOf(merges, start)); FirstId(r, start) <= i && FirstId(r, start) < |r|
    decreases |t|
  {
    var m := TableOf(merges, start);
    var at, j := FirstMerge(t, 0, m), FirstId(t, start);
    if at < |t| {
      var id, next := m[(t[at], t[at + 1])], MergeStep(t, at, m);
      IdsInRange(merges, start);
      assert id in m.Values && next[at] == id;
      var k := if at <= j then at else j;
      assert next[k] >= start;
      FirstIdAtMost(next, start, k);
      FirstIdStays(merges, start, next, i);
    }
  }

  lemma FrontExpands(merges: seq<Pair>, start: int, r: seq<int>, f: nat)
    requires WellFounded(merges, start) && f <= |r| && forall j | 0 <= j < f :: IsByte(r[j])
    ensures ExpandAll(merges, start, r) == r[..f] + ExpandAll(merges, start, r[f..])
  {
    assert r == r[..f] + r[f..];
    ExpandConcat(merges, start, r[..f], r[f..]);
    BytesMeanThemselves(merges, start, r[..f]);
  }

  /** What lies before the first merged token are the bytes of the text. */
  lemma BytesBeforeFirstId(merges: seq<Pair>, start: int, t: seq<int>)
    requires WellFounded(merges, start) && forall x | x in t :: IsByte(x)
    ensures var r := Merged(t, TableOf(merges, start)); var f := FirstId(r, start);
      f <= |t| && r[..f] == t[..f]
  {
    var m := TableOf(merges, start);
    var r := Merged(t, m);
    var f := FirstId(r, start);
    MergedInTable(t, m);
    IdsInRange(merges, start);
    assert forall j | 0 <= j < f :: r[j] in r && IsByte(r[j]);
    FrontExpands(merges, start, r, f);
    MergingKeepsMeaning(merges, start, t);
    BytesMeanThemselves(merges, start, t);
  }

  lemma FirstMergeSameKeys(t: seq<int>, i: nat, a: Table, b: Table)
    requires i <= |t| && a.Keys == b.Keys
    ensures FirstMerge(t, i, a) == FirstMerge(t, i, b)
    decreases |t| - i
  {
    assert forall p :: p in a <==> p in a.Keys;
    assert forall p :: p in b <==> p in b.Keys;
    if i < |t| && !MergesAt(t, i, a) {
      FirstMergeSameKeys(t, i + 1, a, b);
    }
  }

  /** Bytes up to place `i`, none of which merges with its neighbour, and an id of the restored table there. */
  predicate IsFront(merges: seq<Pair>, start: int, t: seq<int>, i: nat) {
    && i < |t| && t[i] >= start + |merges|
    && forall j | 0 <= j < i :: IsByte(t[j]) && !MergesAt(t, j, TableOf(merges, start + |merges|))
  }

  /** No pair of the table contains an id as high as the restored ones. */
  lemma NoSelfMerge(merges: seq<Pair>, start: int, t: seq<int>, i: nat)
    requires WellFounded(merges, start) && i < |t| && t[i] >= start + |merges|
    ensures !MergesAt(t, i - 1, TableOf(merges, start + |merges|))
  {
    TableFacts(merges, start + |merges|);
    forall p | p in merges ensures p.1 < start + |merges| {
      var n :| 0 <= n < |merges| && merges[n] == p;
      assert IsPart(merges[n].1, start, start + n);
    }
  }

  lemma StepKeepsFront(merges: seq<Pair>, start: int, t: seq<int>, i: nat, at: nat)
    requires WellFounded(merges, start) && MergesAt(t, at, TableOf(merges, start + |merges|))
    requires i <= at && forall j | 0 <= j < i :: IsByte(t[j]) && !MergesAt(t, j, TableOf(merges, start + |merges|))
    requires i == at || t[i] >= start + |merges|
    ensures var next := MergeStep(t, at, TableOf(merges, start + |merges|));
      IsFront(merges, start, next, i) && next[..i] == t[..i]
  {
    var m := TableOf(merges, start + |merges|);
    var next := MergeStep(t, at, m);
    IdsInRange(merges, start + |merges|);
    assert m[(t[at], t[at + 1])] in m.Values && next[at] == m[(t[at], t[at + 1])];
    NoSelfMerge(merges, start, next, i);
    forall j | 0 <= j < i ensures IsByte(next[j]) && !MergesAt(next, j, m) {
      assert next[j] == t[j] && !MergesAt(t, j, m);
      if j < i - 1 { assert next[j + 1] == t[j + 1]; }
    }
  }

  /** The restored table merges no token it has made itself, so its first merged token stays where the first merge was. */
  lemma {:induction false} RestoredFront(merges: seq<Pair>, start: int, t: seq<int>, i: nat)
    requires WellFounded(merges, start) && IsFront(merges, start, t, i)
    ensures var r := Merged(t, TableOf(merges, start + |merges|));
      i < |r| && r[i] >= start + |merges| && r[..i] == t[..i]
    decreases |t|
  {
    var m := TableOf(merges, start + |merges|);
    var at := FirstMerge(t, 0, m);
    if at < |t| {
      StepKeepsFront(merges, start, t, i, at);
      RestoredFront(merges, start, MergeStep(t, at, m), i);
    }
  }

  /** Two token lists that part at `f`: truncated alike exactly when the cut comes before. */
  lemma PartedEncodings(a: seq<int>, b: seq<int>, f: nat, addSpecial: bool, max: nat)
    requires f < |a| && f < |b| && a[..f] == b[..f] && a[f] != b[f]
    ensures Truncated(Wrapped(a, addSpecial), max) == Truncated(Wrapped(b, addSpecial), max)
       <==> Kept(|a|, addSpecial, max) <= f
  {
    var wa, wb, off := Wrapped(a, addSpecial), Wrapped(b, addSpecial), if addSpecial then 1 else 0;
    assert wa[f + off] == a[f] && wb[f + off] == b[f];
    if max <= f + off {
      forall j | 0 <= j < max ensures wa[j] == wb[j] {
        if j >= off { assert wa[j] == a[..f][j - off] && wb[j] == b[..f][j - off]; }
      }
      assert wa[..max] == wb[..max];
    } else {
      assert Truncated(wa, max)[f + off] == a[f] && Truncated(wb, max)[f + off] == b[f];
    }
  }

  lemma CommonFront(a: seq<int>, b: seq<int>, text: seq<int>, f: nat, i: nat)
    requires f <= i <= |b| && i <= |text| && f <= |a| && b[..i] == text[..i] && a[..f] == text[..f]
    ensures a[..f] == b[..f] && (f < i ==> b[f] == text[f])
  {
    assert b[..f] == b[..i][..f] && text[..f] == text[..i][..f];
    assert f < i ==> b[f] == b[..i][f] && text[f] == text[..i][f];
  }

  lemma SavedFirstId(merges: seq<Pair>, start: int, text: seq<int>, i: nat)
    requires WellFounded(merges, start) && forall x | x in text :: IsByte(x)
    requires i < |text| && i == FirstMerge(text, 0, TableOf(merges, start))
    ensures var a := Merged(text, TableOf(merges, start)); var f := FirstId(a, start);
      f <= i && f < |a| && a[..f] == text[..f] && start <= a[f] < start + |merges|
  {
    var m := TableOf(merges, start);
    var a, next := Merged(text, m), MergeStep(text, i, m);
    IdsInRange(merges, start);
    assert m[(text[i], text[i + 1])] in m.Values && next[i] == m[(text[i], text[i + 1])];
    FirstIdAtMost(next, start, i);
    FirstIdStays(merges, start, next, i);
    BytesBeforeFirstId(merges, start, text);
    MergedInTable(text, m);
    assert a[FirstId(a, start)] in a;
  }

  /** Where the two merged lists of a text that merges part. */
  lemma RestoredParts(merges: seq<Pair>, start: int, text: seq<int>, i: nat)
    requires WellFounded(merges, start) && forall x | x in text :: IsByte(x)
    requires i < |text| && i == FirstMerge(text, 0, TableOf(merges, start)) == FirstMerge(text, 0, TableOf(merges, start + |merges|))
    ensures var a, b := Merged(text, TableOf(merges, start)), Merged(text, TableOf(merges, start + |merges|));
      var f := FirstId(a, start);
      f < |a| && f < |b| && a[..f] == b[..f] && a[f] != b[f]
  {
    var a, b := Merged(text, TableOf(merges, start)), Merged(text, TableOf(merges, start + |merges|));
    var f := FirstId(a, start);
    SavedFirstId(merges, start, text, i);
    assert forall j | 0 <= j < i :: text[j] in text && !MergesAt(text, j, TableOf(merges, start + |merges|));
    StepKeepsFront(merges, start, text, i, i);
    RestoredFront(merges, start, MergeStep(text, i, TableOf(merges, start + |merges|)), i);
    CommonFront(a, b, text, f, i);
    assert f < i ==> text[f] in text;
  }

  /** A tokenizer restored from the dictionary of a built one numbers its merges from the grown vocabulary on: the two encode
      a text alike exactly when the truncation leaves no merged token of it. */
  lemma RestoredAgreesIff(merges: seq<Pair>, start: int, bytes: Data, addSpecial: bool, max: nat)
    requires WellFounded(merges, start)
    ensures var a, b := TableOf(merges, start), TableOf(merges, start + |merges|);
      var t := Merged(ByteTokens(bytes), a);
      Encoded(a, bytes, addSpecial, max) == Encoded(b, bytes, addSpecial, max)
      <==> Kept(|t|, addSpecial, max) <= FirstId(t, start)
  {
    var a, b, text := TableOf(merges, start), TableOf(merges, start + |merges|), ByteTokens(bytes);
    var i := FirstMerge(text, 0, a);
    TableFacts(merges, start);
    TableFacts(merges, start + |merges|);
    assert a.Keys == b.Keys;
    FirstMergeSameKeys(text, 0, a, b);
    if i < |text| {
      RestoredParts(merges, start, text, i);
      PartedEncodings(Merged(text, a), Merged(text, b), FirstId(Merged(text, a), start), addSpecial, max);
    } else {
      assert Merged(text, a) == text == Merged(text, b);
      assert forall j | 0 <= j < |text| :: text[j] in text && text[j] < start;
    }
  }

  /** "ab" with the pair merged: 260 from the tokenizer saved, 261 from the one restored. */
  lemma RestoredDisagrees()
    ensures var merges: seq<Pair> := [(101, 102)];
      WellFounded(merges, 260)
      && Encoded(TableOf(merges, 260), [97, 98], true, 512) != Encoded(TableOf(merges, 261), [97, 98], true, 512)
  {
    var merges: seq<Pair> := [(101, 102)];
    assert merges[..0] == [];
    var m := TableOf(merges, 260);
    assert m == map[(101, 102) := 260];
    var t := ByteTokens([97, 98]);
    assert t == [101, 102];
    assert MergesAt(t, 0, m) && FirstMerge(t, 0, m) == 0 && MergeStep(t, 0, m) == [260];
    assert Merged([260], m) == [260] && Merged(t, m) == [260];
    assert FirstId([260], 260) == 0;
    RestoredAgreesIff(merges, 260, [97, 98], true, 512);
  }

  // --- The program ---

  /** The configuration a tokenizer is given and keeps, and whose vocabulary it enlarges. */
  class TokenizerConfig {
    const isBpe: bool
    const maxSequenceLength: nat
    const bpeMerges: seq<Pair>
    var vocabSize: nat

    constructor (isBpe: bool, vocabSize: nat, maxSequenceLength: nat, bpeMerges: seq<Pair>)
      ensures this.isBpe == isBpe && this.vocabSize == vocabSize
      ensures this.maxSequenceLength == maxSequenceLength && this.bpeMerges == bpeMerges
    {
      this.isBpe := isBpe;
      this.vocabSize := vocabSize;
      this.maxSequenceLength := maxSequenceLength;
      this.bpeMerges := bpeMerges;
    }
  }

  datatype Saved = Saved(isBpe: bool, vocabSize: nat, maxSequenceLength: nat, bpeMerges: seq<Pair>)

  lemma {:induction false} NothingToReverse(t: seq<int>)
    ensures PassAll(Reverse(map[]), t) == t
  {
    if t != [] {
      NothingToReverse(t[1..]);
      assert t == [t[0]] + t[1..];
    }
  }

  class ByteTokenizer {
    const config: TokenizerConfig
    var mergeMap: Table

    method BuildBpe(merges: seq<Pair>)
      requires mergeMap == map[]
      modifies this, config
      ensures mergeMap == TableOf(merges, old(config.vocabSize))
      ensures config.vocabSize == old(config.vocabSize) + |merges|
    {
      var nextId := config.vocabSize;
      for i := 0 to |merges|
        invariant config.vocabSize == old(config.vocabSize) && nextId == config.vocabSize + i
        invariant mergeMap == TableOf(merges[..i], config.vocabSize)
      {
        assert merges[..i + 1][..i] == merges[..i];
        mergeMap := mergeMap[merges[i] := nextId];
        nextId := nextId + 1;
      }
      assert merges[..|merges|] == merges;
      config.vocabSize := nextId;
    }

    constructor (config: TokenizerConfig)
      modifies config
      ensures this.config == config
      ensures mergeMap == if config.isBpe then TableOf(config.bpeMerges, old(config.vocabSize)) else map[]
      ensures config.vocabSize == old(config.vocabSize) + if config.isBpe then |config.bpeMerges| else 0
    {
      this.config := config;
      this.mergeMap := map[];
      new;
      if config.isBpe && config.bpeMerges != [] {
        BuildBpe(config.bpeMerges);
      }
    }

    /** Scanning for the leftmost pair that merges. */
    method FindPair(tokens: seq<int>) returns (at: nat)
      ensures at == FirstMerge(tokens, 0, mergeMap)
    {
      at := 0;
      while at < |tokens|
        invariant 0 <= at <= |tokens|
        invariant FirstMerge(tokens, 0, mergeMap) == FirstMerge(tokens, at, mergeMap)
      {
        if MergesAt(tokens, at, mergeMap) {
          return;
        }
        at := at + 1;
      }
    }

    method ApplyBpe(start: seq<int>) returns (tokens: seq<int>)
      ensures tokens == Merged(start, mergeMap)
    {
      tokens := start;
      while true
        invariant Merged(tokens, mergeMap) == Merged(start, mergeMap)
        decreases |tokens|
      {
        var at := FindPair(tokens);
        if at == |tokens| {
          break;
        }
        tokens := MergeStep(tokens, at, mergeMap);
      }
    }

    method ReverseBpe(tokens: seq<int>) returns (result: seq<int>)
      requires OneToOne(mergeMap)
      ensures result == PassAll(Reverse(mergeMap), tokens)
    {
      var reverse := Reverse(mergeMap);
      result := [];
      for i := 0 to |tokens|
        invariant result + PassAll(reverse, tokens[i..]) == PassAll(reverse, tokens)
      {
        assert tokens[i..][0] == tokens[i] && tokens[i..][1..] == tokens[i + 1..];
        result := result + Pass(reverse, tokens[i]);
      }
      assert tokens[|tokens|..] == [];
    }

    /** `encode`, from the UTF-8 bytes of the text on. */
    method Encode(bytes: Data, addSpecial: bool) returns (tokens: seq<int>)
      ensures tokens == Encoded(mergeMap, bytes, addSpecial, config.maxSequenceLength)
    {
      tokens := ByteTokens(bytes);
      if mergeMap != map[] {
        tokens := ApplyBpe(tokens);
      }
      if addSpecial {
        tokens := [BOS_TOKEN] + tokens + [EOS_TOKEN];
      }
      if |tokens| > config.maxSequenceLength {
        tokens := tokens[..config.maxSequenceLength];
      }
    }

    /** `decode`, up to the UTF-8 bytes of the text. */
    method Decode(tokens: seq<int>) returns (bytes: Data)
      requires OneToOne(mergeMap)
      ensures bytes == Decoded(mergeMap, tokens)
    {
      var filtered := Visible(tokens);
      if mergeMap != map[] {
        filtered := ReverseBpe(filtered);
      } else {
        NothingToReverse(filtered);
      }
      bytes := ToBytes(filtered);
    }

    method ToDict() returns (saved: Saved)
      ensures saved == Saved(config.isBpe, config.vocabSize, config.maxSequenceLength, config.bpeMerges)
    {
      saved := Saved(config.isBpe, config.vocabSize, config.maxSequenceLength, config.bpeMerges);
    }
  }

  /** `from_dict`. */
  method FromDict(saved: Saved) returns (tokenizer: ByteTokenizer)
    ensures fresh(tokenizer) && fresh(tokenizer.config)
    ensures tokenizer.mergeMap == if saved.isBpe then TableOf(saved.bpeMerges, saved.vocabSize) else map[]
    ensures tokenizer.config.isBpe == saved.isBpe && tokenizer.config.bpeMerges == saved.bpeMerges
    ensures tokenizer.config.maxSequenceLength == saved.maxSequenceLength
    ensures tokenizer.config.vocabSize == saved.vocabSize + if saved.isBpe then |saved.bpeMerges| else 0
  {
    var config := new TokenizerConfig(saved.isBpe, saved.vocabSize, saved.maxSequenceLength, saved.bpeMerges);
    tokenizer := new ByteTokenizer(config);
  }

  /** Saving a tokenizer and restoring it: the copy has the same merges and length limit, a vocabulary enlarged once more, and
      encodes a text alike exactly when no merged token of it survives truncation. */
  method SaveAndRestore(original: ByteTokenizer, ghost start: nat, bytes: Data, addSpecial: bool)
    returns (restored: ByteTokenizer, same: bool)
    requires original.config.isBpe && WellFounded(original.config.bpeMerges, start)
    requires original.mergeMap == TableOf(original.config.bpeMerges, start)
    requires original.config.vocabSize == start + |original.config.bpeMerges|
    ensures restored.config.bpeMerges == original.config.bpeMerges
    ensures restored.config.maxSequenceLength == original.config.maxSequenceLength
    ensures restored.config.vocabSize == start + 2 * |original.config.bpeMerges|
    ensures var t := Merged(ByteTokens(bytes), original.mergeMap);
      same <==> Kept(|t|, addSpecial, original.config.maxSequenceLength) <= FirstId(t, start)
  {
    var saved := original.ToDict();
    restored := FromDict(saved);
    var before := original.Encode(bytes, addSpecial);
    var after := restored.Encode(bytes, addSpecial);
    same := before == after;
    RestoredAgreesIff(original.config.bpeMerges, start, bytes, addSpecial, original.config.maxSequenceLength);
  }
}
