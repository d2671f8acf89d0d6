/** The hash-chained ledger of governance decisions, and what its chain of hashes gives away. */
module EvolutionLedger {
  import opened Wrappers
  import opened Bytes

  /** The fields an entry's hash covers. */
  datatype Hashed = Hashed(
    entryIndex: nat, proposalId: string, proposerId: string, mutationDescription: string, outcome: string,
    approveWeight: real, rejectWeight: real, totalWeight: real, voterCount: nat,
    baselineFitness: Option<real>, timestampMs: int, previousHash: string)

  datatype Entry = Entry(hashed: Hashed, postFitness: Option<real>, entryHash: string)

  /** Canonical JSON of the hashed fields, SHA-256 in hexadecimal, and JSON of a whole ledger. */
  datatype Codec = Codec(
    canonical: Hashed -> Data, uncanonical: Data -> Option<Hashed>, digest: Data -> string,
    json: seq<Entry> -> string, unJson: string -> Option<seq<Entry>>)

  /** The canonical text of every entry at hand says which decision it is the text of. */
  predicate Readable(c: Codec, entries: seq<Entry>) {
    forall i | 0 <= i < |entries| :: c.uncanonical(c.canonical(entries[i].hashed)) == Some(entries[i].hashed)
  }

  function Repeat(ch: char, n: nat): string {
    if n == 0 then "" else [ch] + Repeat(ch, n - 1)
  }

  function GenesisHash(): string {
    Repeat('0', 64)
  }

  lemma {:induction false} Repeats(ch: char, n: nat)
    ensures |Repeat(ch, n)| == n && forall i | 0 <= i < n :: Repeat(ch, n)[i] == ch
  {
    if n > 0 { Repeats(ch, n - 1); }
  }

  /** The predecessor of the first entry is named by 64 zeros. */
  lemma GenesisIsZeros()
    ensures |GenesisHash()| == 64 && forall i | 0 <= i < 64 :: GenesisHash()[i] == '0'
  {
    Repeats('0', 64);
  }

  function ComputeHash(c: Codec, h: Hashed): string {
    c.digest(c.canonical(h))
  }

  // --- The chain ---

  function HeadFrom(prev: string, entries: seq<Entry>): string {
    if entries == [] then prev else entries[|entries| - 1].entryHash
  }

  predicate ChainFrom(c: Codec, prev: string, entries: seq<Entry>)
    decreases |entries|
  {
    entries != [] ==>
      && entries[0].hashed.previousHash == prev
      && ComputeHash(c, entries[0].hashed) == entries[0].entryHash
      && ChainFrom(c, entries[0].entryHash, entries[1..])
  }

  predicate Verifies(c: Codec, entries: seq<Entry>) {
    ChainFrom(c, GenesisHash(), entries)
  }

  function Chained(c: Codec, h: Hashed): Entry {
    Entry(h, None, ComputeHash(c, h))
  }

  lemma {:induction false} ChainConcat(c: Codec, prev: string, a: seq<Entry>, b: seq<Entry>)
    ensures ChainFrom(c, prev, a + b) <==> ChainFrom(c, prev, a) && ChainFrom(c, HeadFrom(prev, a), b)
    decreases |a|
  {
    if a == [] {
      assert a + b == b;
    } else {
      assert (a + b)[0] == a[0] && (a + b)[1..] == a[1..] + b;
      ChainConcat(c, a[0].entryHash, a[1..], b);
    }
  }

  /** A verifying chain, seen from its last entry. */
  lemma ChainLast(c: Codec, prev: string, entries: seq<Entry>)
    requires entries != []
    ensures var n := |entries| - 1;
      ChainFrom(c, prev, entries) <==>
        && ChainFrom(c, prev, entries[..n])
        && entries[n].hashed.previousHash == HeadFrom(prev, entries[..n])
        && ComputeHash(c, entries[n].hashed) == entries[n].entryHash
  {
    var n := |entries| - 1;
    assert entries == entries[..n] + [entries[n]];
    ChainConcat(c, prev, entries[..n], [entries[n]]);
    assert [entries[n]][1..] == [];
  }

  /** Appending to the head keeps a chain verifying, and a chain that fails keeps failing. */
  lemma AppendVerifiesIff(c: Codec, entries: seq<Entry>, h: Hashed)
    requires h.previousHash == HeadFrom(GenesisHash(), entries)
    ensures Verifies(c, entries + [Chained(c, h)]) <==> Verifies(c, entries)
  {
    ChainConcat(c, GenesisHash(), entries, [Chained(c, h)]);
    assert [Chained(c, h)][1..] == [];
  }

  // --- Updating the fitness observed later ---

  function FirstOf(entries: seq<Entry>, proposalId: string): (r: nat)
    ensures r <= |entries|
    ensures r < |entries| ==> entries[r].hashed.proposalId == proposalId
    ensures forall i | 0 <= i < r :: entries[i].hashed.proposalId != proposalId
  {
    if entries == [] || entries[0].hashed.proposalId == proposalId then 0 else 1 + FirstOf(entries[1..], proposalId)
  }

  lemma FirstOfUnique(entries: seq<Entry>, proposalId: string, i: nat)
    requires i <= |entries| && forall j | 0 <= j < i :: entries[j].hashed.proposalId != proposalId
    requires i < |entries| ==> entries[i].hashed.proposalId == proposalId
    ensures FirstOf(entries, proposalId) == i
  {
  }

  function WithPostFitness(entries: seq<Entry>, proposalId: string, fitness: real): (r: seq<Entry>)
    ensures |r| == |entries|
  {
    var i := FirstOf(entries, proposalId);
    if i == |entries| then entries else entries[i := entries[i].(postFitness := Some(fitness))]
  }

  lemma PostFitnessAt(entries: seq<Entry>, proposalId: string, fitness: real, i: nat)
    requires i == FirstOf(entries, proposalId)
    ensures WithPostFitness(entries, proposalId, fitness)
         == if i == |entries| then entries else entries[i := entries[i].(postFitness := Some(fitness))]
  {
  }

  predicate SameChain(a: seq<Entry>, b: seq<Entry>) {
    && |a| == |b|
    && forall i | 0 <= i < |a| :: a[i].hashed == b[i].hashed && a[i].entryHash == b[i].entryHash
  }

  lemma {:induction false} SameChainVerifies(c: Codec, prev: string, a: seq<Entry>, b: seq<Entry>)
    requires SameChain(a, b)
    ensures ChainFrom(c, prev, a) <==> ChainFrom(c, prev, b)
    decreases |a|
  {
    if a != [] {
      SameChainVerifies(c, a[0].entryHash, a[1..], b[1..]);
    }
  }

  /** Later fitness is outside the chain: no update makes a chain verify or stop verifying. */
  lemma PostFitnessKeepsChain(c: Codec, entries: seq<Entry>, proposalId: string, fitness: real)
    ensures SameChain(entries, WithPostFitness(entries, proposalId, fitness))
    ensures Verifies(c, WithPostFitness(entries, proposalId, fitness)) <==> Verifies(c, entries)
  {
    SameChainVerifies(c, GenesisHash(), entries, WithPostFitness(entries, proposalId, fitness));
  }

  // --- Tamper evidence ---

  /** What comparing two verifying ledgers brings to light. */
  datatype Finding = SameHistory | Collision(x: Data, y: Data) | GenesisPreimage(z: Data) | SameText(h: Hashed, k: Hashed)

  ghost predicate Proves(f: Finding, c: Codec, a: seq<Entry>, b: seq<Entry>) {
    match f
    case SameHistory => SameChain(a, b)
    case Collision(x, y) => x != y && c.digest(x) == c.digest(y)
    case GenesisPreimage(z) => c.digest(z) == GenesisHash()
    case SameText(h, k) => h != k && c.canonical(h) == c.canonical(k)
  }

  /** Walking both ledgers back from a common head. */
  function Compare(c: Codec, a: seq<Entry>, b: seq<Entry>): Finding
    decreases |a|
  {
    if a == [] && b == [] then SameHistory
    else if a == [] then GenesisPreimage(c.canonical(b[|b| - 1].hashed))
    else if b == [] then GenesisPreimage(c.canonical(a[|a| - 1].hashed))
    else
      var h, k := a[|a| - 1].hashed, b[|b| - 1].hashed;
      if c.canonical(h) != c.canonical(k) then Collision(c.canonical(h), c.canonical(k))
      else if h != k then SameText(h, k)
      else Compare(c, a[..|a| - 1], b[..|b| - 1])
  }

  lemma {:induction false} ReadableApart(c: Codec, a: seq<Entry>, b: seq<Entry>)
    requires Readable(c, a) && Readable(c, b)
    ensures !Compare(c, a, b).SameText?
    decreases |a|
  {
    if a != [] && b != [] {
      var h, k := a[|a| - 1].hashed, b[|b| - 1].hashed;
      assert c.uncanonical(c.canonical(h)) == Some(h) && c.uncanonical(c.canonical(k)) == Some(k);
      ReadableApart(c, a[..|a| - 1], b[..|b| - 1]);
    }
  }

  lemma SameChainExtends(a: seq<Entry>, b: seq<Entry>)
    requires a != [] && b != [] && SameChain(a[..|a| - 1], b[..|b| - 1])
    requires a[|a| - 1].hashed == b[|b| - 1].hashed && a[|a| - 1].entryHash == b[|b| - 1].entryHash
    ensures SameChain(a, b)
  {
    var m := |a| - 1;
    forall i | 0 <= i < |a| ensures a[i].hashed == b[i].hashed && a[i].entryHash == b[i].entryHash {
      if i < m { assert a[..m][i] == a[i] && b[..m][i] == b[i]; }
    }
  }

  /** Two verifying ledgers with the same head, whatever the codec: the same history, a collision of the hash function, a
      preimage of the genesis hash, or two decisions of one canonical text. */
  lemma {:induction false} SameHeadFinding(c: Codec, a: seq<Entry>, b: seq<Entry>)
    requires Verifies(c, a) && Verifies(c, b) && HeadFrom(GenesisHash(), a) == HeadFrom(GenesisHash(), b)
    ensures Proves(Compare(c, a, b), c, a, b)
    decreases |a|
  {
    if a != [] { ChainLast(c, GenesisHash(), a); }
    if b != [] { ChainLast(c, GenesisHash(), b); }
    if a != [] && b != [] && a[|a| - 1].hashed == b[|b| - 1].hashed {
      SameHeadFinding(c, a[..|a| - 1], b[..|b| - 1]);
      if Compare(c, a[..|a| - 1], b[..|b| - 1]).SameHistory? {
        SameChainExtends(a, b);
      }
    }
  }

  /** So where the canonical texts of these entries can be told apart: the same history, a collision of the hash function, or
      a preimage of the genesis hash. */
  lemma SameHeadSameHistory(c: Codec, a: seq<Entry>, b: seq<Entry>)
    requires Readable(c, a) && Readable(c, b)
    requires Verifies(c, a) && Verifies(c, b) && HeadFrom(GenesisHash(), a) == HeadFrom(GenesisHash(), b)
    ensures Proves(Compare(c, a, b), c, a, b) && !Compare(c, a, b).SameText?
  {
    SameHeadFinding(c, a, b);
    ReadableApart(c, a, b);
  }

  lemma SplitAround(c: Codec, entries: seq<Entry>, i: nat)
    requires i < |entries|
    ensures Verifies(c, entries) <==>
      && Verifies(c, entries[..i])
      && entries[i].hashed.previousHash == HeadFrom(GenesisHash(), entries[..i])
      && ComputeHash(c, entries[i].hashed) == entries[i].entryHash
      && ChainFrom(c, entries[i].entryHash, entries[i + 1..])
  {
    assert entries == entries[..i] + entries[i..] && entries[i..][1..] == entries[i + 1..];
    ChainConcat(c, GenesisHash(), entries[..i], entries[i..]);
  }

  /** Cutting entries off the end is never noticed: every prefix of a verifying ledger verifies. */
  lemma PrefixVerifies(c: Codec, entries: seq<Entry>, n: nat)
    requires Verifies(c, entries) && n <= |entries|
    ensures Verifies(c, entries[..n])
  {
    assert entries == entries[..n] + entries[n..];
    ChainConcat(c, GenesisHash(), entries[..n], entries[n..]);
  }

  lemma ChainAfter(c: Codec, prev: string, next: string, rest: seq<Entry>)
    requires ChainFrom(c, prev, rest)
    ensures ChainFrom(c, next, rest) <==> rest == [] || next == prev
  {
  }

  /** Replacing an entry by any other stays unnoticed exactly when the new one names the same predecessor, hashes to the value
      it stores, and, unless it is the last, stores the old value. */
  lemma EditUnnoticedIff(c: Codec, entries: seq<Entry>, i: nat, e: Entry)
    requires Verifies(c, entries) && i < |entries|
    ensures Verifies(c, entries[i := e]) <==>
      && e.hashed.previousHash == entries[i].hashed.previousHash
      && ComputeHash(c, e.hashed) == e.entryHash
      && (i + 1 < |entries| ==> e.entryHash == entries[i].entryHash)
  {
    var edited := entries[i := e];
    SplitAround(c, entries, i);
    SplitAround(c, edited, i);
    assert edited[..i] == entries[..i] && edited[i + 1..] == entries[i + 1..];
    ChainAfter(c, entries[i].entryHash, e.entryHash, entries[i + 1..]);
  }

  /** Decisions chained to one another from `prev` on, as a writer of a ledger would. */
  function Rechained(c: Codec, prev: string, decisions: seq<Hashed>): (r: seq<Entry>)
    ensures |r| == |decisions|
    decreases |decisions|
  {
    if decisions == [] then []
    else
      var e := Chained(c, decisions[0].(previousHash := prev));
      [e] + Rechained(c, e.entryHash, decisions[1..])
  }

  lemma {:induction false} RechainedVerifies(c: Codec, prev: string, decisions: seq<Hashed>)
    ensures ChainFrom(c, prev, Rechained(c, prev, decisions))
    decreases |decisions|
  {
    if decisions != [] {
      var e := Chained(c, decisions[0].(previousHash := prev));
      RechainedVerifies(c, e.entryHash, decisions[1..]);
      assert Rechained(c, prev, decisions)[1..] == Rechained(c, e.entryHash, decisions[1..]);
    }
  }

  /** Rewriting the end of a ledger, hashes and all, is never noticed: any decisions verify in place of the old ones, without
      a collision; the last entry alone is the case of one decision. */
  lemma RewrittenEndVerifies(c: Codec, entries: seq<Entry>, n: nat, decisions: seq<Hashed>)
    requires Verifies(c, entries) && n <= |entries|
    ensures Verifies(c, entries[..n] + Rechained(c, HeadFrom(GenesisHash(), entries[..n]), decisions))
  {
    PrefixVerifies(c, entries, n);
    RechainedVerifies(c, HeadFrom(GenesisHash(), entries[..n]), decisions);
    ChainConcat(c, GenesisHash(), entries[..n], Rechained(c, HeadFrom(GenesisHash(), entries[..n]), decisions));
  }

  lemma LastEntryRewritten(c: Codec, entries: seq<Entry>, h: Hashed)
    requires Verifies(c, entries) && entries != [] && h.previousHash == entries[|entries| - 1].hashed.previousHash
    ensures Verifies(c, entries[|entries| - 1 := Chained(c, h)])
  {
    EditUnnoticedIff(c, entries, |entries| - 1, Chained(c, h));
  }

  // --- The program ---

  class LedgerEntry {
    const hashed: Hashed
    var postFitness: Option<real>
    var entryHash: string

    function Value(): Entry
      reads this
    {
      Entry(hashed, postFitness, entryHash)
    }

    constructor (hashed: Hashed, postFitness: Option<real>, entryHash: string)
      ensures Value() == Entry(hashed, postFitness, entryHash)
    {
      this.hashed := hashed;
      this.postFitness := postFitness;
      this.entryHash := entryHash;
    }
  }

  method NewEntry(c: Codec, h: Hashed) returns (entry: LedgerEntry)
    ensures fresh(entry) && entry.hashed == h && entry.Value() == Chained(c, h)
  {
    entry := new LedgerEntry(h, None, "");
    entry.entryHash := ComputeHash(c, h);
  }

  function Values(entries: seq<LedgerEntry>): (r: seq<Entry>)
    reads entries
    ensures |r| == |entries|
    ensures forall i | 0 <= i < |entries| :: r[i] == entries[i].Value()
  {
    if entries == [] then [] else [entries[0].Value()] + Values(entries[1..])
  }

  predicate NoAliases(entries: seq<LedgerEntry>) {
    forall i, j | 0 <= i < j < |entries| :: entries[i] != entries[j]
  }

  class Ledger {
    const codec: Codec
    var entries: seq<LedgerEntry>
    var headHash: string

    ghost predicate Valid()
      reads this, entries
    {
      NoAliases(entries) && headHash == HeadFrom(GenesisHash(), Values(entries))
    }

    constructor (codec: Codec)
      ensures Valid() && this.codec == codec && entries == [] && headHash == GenesisHash()
    {
      this.codec := codec;
      this.entries := [];
      this.headHash := GenesisHash();
    }

    method Push(entry: LedgerEntry)
      requires NoAliases(entries) && entry !in entries
      modifies this
      ensures Valid() && entries == old(entries) + [entry]
      ensures Values(entries) == old(Values(entries)) + [entry.Value()]
    {
      headHash := entry.entryHash;
      entries := entries + [entry];
      assert Values(entries) == old(Values(entries)) + [entry.Value()];
    }

    /** `append`: the decision arrives without index and predecessor, which the ledger fills in. */
    method Append(decision: Hashed) returns (entry: LedgerEntry)
      requires Valid()
      modifies this
      ensures Valid() && fresh(entry) && entries == old(entries) + [entry]
      ensures entry.hashed == decision.(entryIndex := old(|entries|), previousHash := old(headHash))
      ensures Values(entries) == old(Values(entries)) + [Chained(codec, entry.hashed)]
      ensures Verifies(codec, Values(entries)) <==> old(Verifies(codec, Values(entries)))
    {
      var h := decision.(entryIndex := |entries|, previousHash := headHash);
      AppendVerifiesIff(codec, Values(entries), h);
      entry := NewEntry(codec, h);
      Push(entry);
    }

    /** Taking over loaded entries. */
    method Adopt(loaded: seq<LedgerEntry>)
      requires NoAliases(loaded) && headHash == GenesisHash()
      modifies this
      ensures Valid() && entries == loaded
    {
      entries := loaded;
      if entries != [] {
        headHash := entries[|entries| - 1].entryHash;
      }
    }

    method VerifyChain() returns (ok: bool)
      requires Valid()
      ensures ok <==> Verifies(codec, Values(entries))
    {
      var expectedPrev := GenesisHash();
      ghost var chain := Values(entries);
      for i := 0 to |entries|
        invariant Verifies(codec, chain) <==> ChainFrom(codec, expectedPrev, chain[i..])
      {
        assert chain[i..][0] == entries[i].Value() && chain[i..][1..] == chain[i + 1..];
        if entries[i].hashed.previousHash != expectedPrev {
          return false;
        }
        if ComputeHash(codec, entries[i].hashed) != entries[i].entryHash {
          return false;
        }
        expectedPrev := entries[i].entryHash;
      }
      assert chain[|entries|..] == [];
      return true;
    }

    twostate lemma OneChanged(i: nat)
      requires i < |entries| && entries == old(entries)
      requires forall j | 0 <= j < |entries| && j != i :: entries[j].Value() == old(entries[j].Value())
      ensures Values(entries) == old(Values(entries))[i := entries[i].Value()]
    {
    }

    method SetPostFitness(i: nat, fitness: real)
      requires NoAliases(entries) && i < |entries|
      modifies entries[i]
      ensures Values(entries) == old(Values(entries))[i := old(Values(entries))[i].(postFitness := Some(fitness))]
      ensures HeadFrom(GenesisHash(), Values(entries)) == HeadFrom(GenesisHash(), old(Values(entries)))
    {
      entries[i].postFitness := Some(fitness);
      OneChanged(i);
    }

    /** The search of the update: the first entry of the proposal. */
    method FindProposal(proposalId: string) returns (i: nat)
      ensures i == FirstOf(Values(entries), proposalId)
    {
      i := 0;
      while i < |entries| && entries[i].hashed.proposalId != proposalId
        invariant i <= |entries|
        invariant forall j | 0 <= j < i :: Values(entries)[j].hashed.proposalId != proposalId
      {
        i := i + 1;
      }
      FirstOfUnique(Values(entries), proposalId, i);
    }

    method SetFirstPostFitness(proposalId: string, fitness: real)
      requires Valid()
      modifies entries
      ensures Valid() && Values(entries) == WithPostFitness(old(Values(entries)), proposalId, fitness)
    {
      var i := FindProposal(proposalId);
      PostFitnessAt(Values(entries), proposalId, fitness, i);
      if i < |entries| {
        SetPostFitness(i, fitness);
      }
    }

    /** `update_post_fitness`: in place, on the first entry of the proposal. */
    method UpdatePostFitness(proposalId: string, fitness: real)
      requires Valid()
      modifies entries
      ensures Valid()
      ensures Values(entries) == WithPostFitness(old(Values(entries)), proposalId, fitness)
      ensures Verifies(codec, Values(entries)) <==> old(Verifies(codec, Values(entries)))
    {
      PostFitnessKeepsChain(codec, Values(entries), proposalId, fitness);
      SetFirstPostFitness(proposalId, fitness);
    }

    method ToJson() returns (text: string)
      ensures text == codec.json(Values(entries))
    {
      text := codec.json(Values(entries));
    }
  }

  datatype LoadError = BadJson | Tampered

  method Rebuild(values: seq<Entry>) returns (entries: seq<LedgerEntry>)
    ensures Values(entries) == values && NoAliases(entries)
    ensures forall e | e in entries :: fresh(e)
  {
    entries := [];
    for i := 0 to |values|
      invariant |entries| == i && NoAliases(entries)
      invariant forall e | e in entries :: fresh(e)
      invariant forall k | 0 <= k < i :: entries[k].Value() == values[k]
    {
      var entry := new LedgerEntry(values[i].hashed, values[i].postFitness, values[i].entryHash);
      entries := entries + [entry];
    }
    assert Values(entries) == values;
  }

  method Load(codec: Codec, values: seq<Entry>) returns (ledger: Ledger)
    ensures fresh(ledger) && ledger.codec == codec && ledger.Valid() && Values(ledger.entries) == values
  {
    ledger := new Ledger(codec);
    var entries := Rebuild(values);
    ledger.Adopt(entries);
  }

  /** `from_json`: a ledger is given out exactly when the text parses and its chain verifies. */
  method FromJson(codec: Codec, text: string) returns (r: Result<Ledger, LoadError>)
    ensures match codec.unJson(text)
            case None => r == Raises(BadJson)
            case Some(values) =>
              if !Verifies(codec, values) then r == Raises(Tampered)
              else r.Ok? && fresh(r.value) && r.value.codec == codec && r.value.Valid() && Values(r.value.entries) == values
  {
    var parsed := codec.unJson(text);
    if parsed.None? {
      return Raises(BadJson);
    }
    var ledger := Load(codec, parsed.value);
    var ok := ledger.VerifyChain();
    if !ok {
      return Raises(Tampered);
    }
    r := Ok(ledger);
  }

  /** The text of the ledger at hand reads back as the ledger. */
  predicate ReadsBack(c: Codec, entries: seq<Entry>) {
    c.unJson(c.json(entries)) == Some(entries)
  }

  /** Saving and loading: a ledger comes back entry for entry if and only if it verifies and its text reads back; one that reads
      back and does not verify is refused. */
  method SaveAndLoad(ledger: Ledger) returns (r: Result<Ledger, LoadError>)
    requires ledger.Valid()
    ensures r.Ok? ==> fresh(r.value) && r.value.Valid() && r.value.codec == ledger.codec
    ensures r.Ok? && Values(r.value.entries) == Values(ledger.entries)
       <==> Verifies(ledger.codec, Values(ledger.entries)) && ReadsBack(ledger.codec, Values(ledger.entries))
    ensures r.Ok? && Values(r.value.entries) == Values(ledger.entries) ==> r.value.headHash == ledger.headHash
    ensures ReadsBack(ledger.codec, Values(ledger.entries)) && !Verifies(ledger.codec, Values(ledger.entries))
            ==> r == Raises(Tampered)
  {
    var text := ledger.ToJson();
    r := FromJson(ledger.codec, text);
  }
}
