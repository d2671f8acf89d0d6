/** Mutations of a genome, and exactly when their results still validate. */
module Mutations {
  import opened Genome

  type Hasher = Snapshot -> string

  lemma SplitAt(genes: seq<LayerGene>, pos: nat)
    requires pos <= |genes|
    ensures genes == genes[..pos] + genes[pos..]
  {
  }

  /** Validity of a skip-free genome: nonempty, heads fit, and the widths chain. */
  lemma SkipFreeValid(genes: seq<LayerGene>)
    requires SkipFree(genes)
    ensures Valid(genes) <==>
      genes != [] && AllHeadsOk(genes) && ChainFrom(0, genes)
  {
    ChainedIff(genes);
  }

  // --- Widening ---

  /** The largest head count up to `heads` that divides the width; counts of one or less stay. */
  function FixHeads(width: int, heads: int): int
    decreases heads
  {
    if heads <= 1 || width % heads == 0 then heads else FixHeads(width, heads - 1)
  }

  lemma {:induction false} FixHeadsDivides(width: int, heads: int)
    ensures heads > 0 ==> 1 <= FixHeads(width, heads) <= heads && width % FixHeads(width, heads) == 0
    ensures forall m | FixHeads(width, heads) < m <= heads :: m > 1 && width % m != 0
    decreases heads
  {
    if heads <= 1 || width % heads == 0 {
    } else {
      FixHeadsDivides(width, heads - 1);
    }
  }

  /** The head-reduction loop of the source; it stops at one head at the latest. */
  method ReduceHeads(width: int, heads: int) returns (r: int)
    ensures r == FixHeads(width, heads)
  {
    r := heads;
    if r > 1 {
      while width % r != 0
        invariant 1 <= r <= heads && FixHeads(width, r) == FixHeads(width, heads)
        decreases r
      {
        r := r - 1;
      }
    }
  }

  /** One downstream gene: what it becomes, and whether propagation stops at it. */
  function WidenStep(g: LayerGene, width: int): (LayerGene, bool) {
    var g1 := if g.inputDim > 0 then g.(inputDim := width) else g;
    if g.layerType == NORM then (g1.(outputDim := width), false)
    else if g.layerType == ATTENTION then (g1.(outputDim := width, numHeads := FixHeads(width, g.numHeads)), false)
    else if g1.inputDim == 0 && g1.outputDim == 0 then (g1, false)
    else if g1.outputDim > 0 && g1.outputDim != width then (g1, true)
    else if g1.outputDim > 0 then (g1.(outputDim := width), false)
    else (g1, false)
  }

  function Propagate(genes: seq<LayerGene>, width: int): (r: seq<LayerGene>)
    ensures |r| == |genes|
  {
    if genes == [] then []
    else
      var (g, stop) := WidenStep(genes[0], width);
      [g] + if stop then genes[1..] else Propagate(genes[1..], width)
  }

  function Widened(genes: seq<LayerGene>, position: int, width: int): seq<LayerGene> {
    if 0 <= position < |genes|
    then genes[..position] + [genes[position].(outputDim := width)] + Propagate(genes[position + 1..], width)
    else genes
  }

  /** What the loop does to one downstream gene. */
  method WidenOne(g: LayerGene, width: int) returns (changed: LayerGene, stop: bool)
    ensures (changed, stop) == WidenStep(g, width)
  {
    changed, stop := g, false;
    if changed.inputDim > 0 {
      changed := changed.(inputDim := width);
    }
    if g.layerType == NORM {
      changed := changed.(outputDim := width);
    } else if g.layerType == ATTENTION {
      var heads := ReduceHeads(width, g.numHeads);
      changed := changed.(outputDim := width, numHeads := heads);
    } else if changed.inputDim == 0 && changed.outputDim == 0 {
    } else if changed.outputDim > 0 && changed.outputDim != width {
      stop := true;
    } else if changed.outputDim > 0 {
      changed := changed.(outputDim := width);
    }
  }

  /** The loop from index `i` on, one gene a step. */
  ghost function LoopedFrom(genes: seq<LayerGene>, i: nat, width: int): seq<LayerGene>
    requires i <= |genes|
    decreases |genes| - i
  {
    if i == |genes| then genes
    else
      var (changed, stop) := WidenStep(genes[i], width);
      if stop then genes[i := changed] else LoopedFrom(genes[i := changed], i + 1, width)
  }

  lemma Placed<T>(s: seq<T>, i: nat, x: T, tail: seq<T>)
    requires i < |s|
    ensures s[i := x][i + 1..] == s[i + 1..]
    ensures s[..i] + ([x] + tail) == s[i := x][..i + 1] + tail
    ensures s[i := x] == s[..i] + ([x] + s[i + 1..])
  {
  }

  lemma PropagateAt(genes: seq<LayerGene>, i: nat, width: int)
    requires i < |genes|
    ensures var (changed, stop) := WidenStep(genes[i], width);
      var next := genes[i := changed];
      genes[..i] + Propagate(genes[i..], width)
      == if stop then next else next[..i + 1] + Propagate(next[i + 1..], width)
  {
    var (changed, stop) := WidenStep(genes[i], width);
    var tail := genes[i + 1..];
    assert genes[i..][1..] == tail;
    Placed(genes, i, changed, Propagate(tail, width));
  }

  lemma {:induction false} LoopPropagates(genes: seq<LayerGene>, i: nat, width: int)
    requires i <= |genes|
    ensures LoopedFrom(genes, i, width) == genes[..i] + Propagate(genes[i..], width)
    decreases |genes| - i
  {
    if i == |genes| {
      assert genes[i..] == [] && genes[..i] == genes;
    } else {
      var (changed, stop) := WidenStep(genes[i], width);
      PropagateAt(genes, i, width);
      LoopPropagates(genes[i := changed], i + 1, width);
    }
  }

  /** The downstream loop: every gene is adapted in place until one changes the width itself. */
  method PropagateFrom(genes: seq<LayerGene>, start: nat, width: int) returns (r: seq<LayerGene>)
    requires start <= |genes|
    ensures r == genes[..start] + Propagate(genes[start..], width)
  {
    LoopPropagates(genes, start, width);
    r := genes;
    var i := start;
    while i < |r|
      invariant start <= i <= |r|
      invariant LoopedFrom(r, i, width) == LoopedFrom(genes, start, width)
      decreases |r| - i
    {
      var changed, stop := WidenOne(r[i], width);
      r := r[i := changed];
      if stop {
        return;
      }
      i := i + 1;
    }
  }

  class WidenLayerMutation {
    const position: int
    const newOutputDim: int

    constructor (position: int, newOutputDim: int)
      ensures this.position == position && this.newOutputDim == newOutputDim
    {
      this.position := position;
      this.newOutputDim := newOutputDim;
    }

    /** `apply`: a fresh genome; the given one is not modified. */
    method Apply(genome: ArchitectureGenome, hash: Hasher) returns (result: ArchitectureGenome)
      ensures fresh(result)
      ensures result.Contents() == Snapshot(genome.modelId, Widened(genome.genes, position, newOutputDim),
                                            genome.generation + 1, hash(genome.Contents()))
    {
      result := genome.Clone();
      if 0 <= position < |result.genes| {
        var genes := result.genes[position := result.genes[position].(outputDim := newOutputDim)];
        assert genes[..position + 1] == result.genes[..position] + [genes[position]];
        assert genes[position + 1..] == result.genes[position + 1..];
        result.genes := PropagateFrom(genes, position + 1, newOutputDim);
      }
      result.generation := result.generation + 1;
      result.parentHash := hash(genome.Contents());
    }
  }

  /** Downstream genes chain from the new width, whatever width they chained from before. */
  lemma {:induction false} PropagateChains(genes: seq<LayerGene>, old_: int, width: int)
    requires ChainFrom(old_, genes) && width > 0
    ensures ChainFrom(width, Propagate(genes, width))
    decreases |genes|
  {
    if genes == [] {
    } else {
      var g, rest := genes[0], genes[1..];
      var (changed, stop) := WidenStep(g, width);
      var r := Propagate(genes, width);
      assert r[0] == changed && r[1..] == if stop then rest else Propagate(rest, width);
      if !stop {
        PropagateChains(rest, if g.outputDim > 0 then g.outputDim else old_, width);
      }
    }
  }

  lemma {:induction false} PropagateHeads(genes: seq<LayerGene>, width: int)
    requires AllHeadsOk(genes) && SkipFree(genes)
    ensures AllHeadsOk(Propagate(genes, width)) && SkipFree(Propagate(genes, width))
  {
    if genes == [] {
    } else {
      FixHeadsDivides(width, genes[0].numHeads);
      PropagateHeads(genes[1..], width);
    }
  }

  lemma ThreeParts(genes: seq<LayerGene>, position: nat)
    requires position < |genes|
    ensures genes == genes[..position] + ([genes[position]] + genes[position + 1..])
  {
  }

  lemma ChainParts(a: seq<LayerGene>, g: LayerGene, rest: seq<LayerGene>)
    ensures ChainFrom(0, a + ([g] + rest)) <==>
      && ChainFrom(0, a)
      && (g.inputDim > 0 && Carry(0, a) > 0 ==> g.inputDim == Carry(0, a))
      && ChainFrom(if g.outputDim > 0 then g.outputDim else Carry(0, a), rest)
  {
    ChainConcat(0, a, [g] + rest);
    assert ([g] + rest)[1..] == rest;
  }

  /** Widening keeps a skip-free genome valid, at every position and to every positive width. */
  lemma WidenKeepsValid(genes: seq<LayerGene>, position: int, width: int)
    requires Valid(genes) && SkipFree(genes) && width > 0
    ensures Valid(Widened(genes, position, width)) && SkipFree(Widened(genes, position, width))
  {
    if 0 <= position < |genes| {
      var a, g, rest := genes[..position], genes[position], genes[position + 1..];
      var g', rest' := g.(outputDim := width), Propagate(rest, width);
      var w := Carry(0, a);
      ThreeParts(genes, position);
      ChainParts(a, g, rest);
      ChainParts(a, g', rest');
      SkipFreeValid(genes);
      PropagateChains(rest, if g.outputDim > 0 then g.outputDim else w, width);
      PropagateHeads(rest, width);
      assert Widened(genes, position, width) == a + ([g'] + rest');
      SkipFreeValid(a + ([g'] + rest'));
    }
  }

  lemma HeadsOfConcat(a: seq<LayerGene>, b: seq<LayerGene>)
    ensures AllHeadsOk(a + b) <==>
            AllHeadsOk(a) && AllHeadsOk(b)
  {
    var s := a + b;
    if AllHeadsOk(s) {
      forall i | 0 <= i < |a| ensures HeadsOk(a[i]) { assert a[i] == s[i]; }
      forall i | 0 <= i < |b| ensures HeadsOk(b[i]) { assert b[i] == s[|a| + i]; }
    }
  }

  lemma TailKeeps(genes: seq<LayerGene>, from: nat)
    requires from <= |genes| && SkipFree(genes) && AllHeadsOk(genes)
    ensures SkipFree(genes[from..])
    ensures AllHeadsOk(genes[from..])
  {
    assert forall i | 0 <= i < |genes[from..]| :: genes[from..][i] == genes[from + i];
  }

  /** Two skip-free parts of which the first is in order: valid exactly when the second continues it. */
  lemma JoinedValidIff(before: seq<LayerGene>, rest: seq<LayerGene>)
    requires SkipFree(before) && SkipFree(rest) && ChainFrom(0, before)
    requires AllHeadsOk(before)
    ensures Valid(before + rest) <==>
      && |before| + |rest| > 0
      && ChainFrom(Carry(0, before), rest) && AllHeadsOk(rest)
  {
    SkipFreeValid(before + rest);
    ChainConcat(0, before, rest);
    HeadsOfConcat(before, rest);
  }

  // --- Adding ---

  /** The first positive input width (zero: there is none). */
  function FirstInput(genes: seq<LayerGene>): int {
    if genes == [] then 0 else if genes[0].inputDim > 0 then genes[0].inputDim else FirstInput(genes[1..])
  }

  function SetFirstInput(genes: seq<LayerGene>, width: int): (r: seq<LayerGene>)
    ensures |r| == |genes|
  {
    if genes == [] then []
    else if genes[0].inputDim > 0 then [genes[0].(inputDim := width)] + genes[1..]
    else [genes[0]] + SetFirstInput(genes[1..], width)
  }

  /** The dimensions the inserted gene takes between width `prev` and input `next` (zero: no neighbour). */
  function Fitted(gene: LayerGene, prev: int, next: int): LayerGene {
    var i := if prev > 0 && gene.inputDim > 0 then prev else gene.inputDim;
    var o := if next > 0 && gene.outputDim > 0 then next else gene.outputDim;
    if i > 0 && o == 0 then gene.(inputDim := i, outputDim := i)
    else if o > 0 && i == 0 then gene.(inputDim := o, outputDim := o)
    else gene.(inputDim := i, outputDim := o)
  }

  function InsertAt(genes: seq<LayerGene>, position: nat): nat {
    if position < |genes| then position else |genes|
  }

  function Added(genes: seq<LayerGene>, position: nat, gene: LayerGene): seq<LayerGene> {
    var pos := InsertAt(genes, position);
    var before, after := genes[..pos], genes[pos..];
    if gene.inputDim > 0 || gene.outputDim > 0 then
      var fitted := Fitted(gene, Carry(0, before), FirstInput(after));
      before + ([fitted] + if fitted.outputDim > 0 then SetFirstInput(after, fitted.outputDim) else after)
    else before + ([gene] + after)
  }

  /** Scanning back for the last positive output. */
  method LastOutput(genes: seq<LayerGene>, pos: nat) returns (width: int)
    requires pos <= |genes|
    ensures width == Carry(0, genes[..pos])
  {
    width := 0;
    var i := pos;
    while i > 0
      invariant 0 <= i <= pos
      invariant width == 0 && Carry(0, genes[..pos]) == Carry(0, genes[..i])
    {
      i := i - 1;
      assert genes[..i + 1] == genes[..i] + [genes[i]];
      CarryConcat(0, genes[..i], [genes[i]]);
      assert [genes[i]][1..] == [];
      if genes[i].outputDim > 0 {
        return genes[i].outputDim;
      }
    }
  }

  /** The next gene that asks for a width, if any. */
  function NextConsumer(genes: seq<LayerGene>): (r: nat)
    ensures r <= |genes|
    ensures r < |genes| ==> genes[r].inputDim > 0
    ensures forall i | 0 <= i < r :: genes[i].inputDim <= 0
  {
    if genes == [] || genes[0].inputDim > 0 then 0 else 1 + NextConsumer(genes[1..])
  }

  lemma NextConsumerStep(genes: seq<LayerGene>, at: nat)
    requires at < |genes|
    ensures NextConsumer(genes[at..]) == if genes[at].inputDim > 0 then 0 else 1 + NextConsumer(genes[at + 1..])
  {
    assert genes[at..][1..] == genes[at + 1..];
  }

  /** Scanning forward for the first positive input. */
  method FindConsumer(genes: seq<LayerGene>, pos: nat) returns (at: nat)
    requires pos <= |genes|
    ensures pos <= at <= |genes| && at == pos + NextConsumer(genes[pos..])
  {
    at := pos;
    ghost var goal := pos + NextConsumer(genes[pos..]);
    while at < |genes| && genes[at].inputDim <= 0
      invariant pos <= at <= |genes|
      invariant goal == at + NextConsumer(genes[at..])
    {
      NextConsumerStep(genes, at);
      at := at + 1;
    }
    if at < |genes| {
      NextConsumerStep(genes, at);
    }
  }

  lemma {:induction false} SetFirstInputAt(genes: seq<LayerGene>, width: int)
    ensures var j := NextConsumer(genes);
      && FirstInput(genes) == (if j < |genes| then genes[j].inputDim else 0)
      && SetFirstInput(genes, width) == if j < |genes| then genes[j := genes[j].(inputDim := width)] else genes
  {
    if genes == [] || genes[0].inputDim > 0 {
    } else {
      SetFirstInputAt(genes[1..], width);
      assert genes == [genes[0]] + genes[1..];
    }
  }

  /** The automatic fix of the inserted gene's dimensions, statement by statement. */
  method FitDimensions(gene: LayerGene, prev: int, next: int) returns (added: LayerGene)
    ensures added == Fitted(gene, prev, next)
  {
    added := gene;
    if prev > 0 && added.inputDim > 0 {
      added := added.(inputDim := prev);
    }
    if next > 0 && added.outputDim > 0 {
      added := added.(outputDim := next);
    }
    if added.inputDim > 0 && added.outputDim == 0 {
      added := added.(outputDim := added.inputDim);
    } else if added.outputDim > 0 && added.inputDim == 0 {
      added := added.(inputDim := added.outputDim);
    }
  }

  lemma SetPastPrefix(genes: seq<LayerGene>, pos: nat, at: nat, g: LayerGene)
    requires pos <= at < |genes|
    ensures genes[at := g][..pos] == genes[..pos]
    ensures genes[at := g][pos..] == genes[pos..][at - pos := g]
  {
  }

  /** Fixing the next layer's input to the added output. */
  method FixNextInput(genes: seq<LayerGene>, pos: nat, at: nat, width: int) returns (r: seq<LayerGene>)
    requires pos <= at <= |genes| && at == pos + NextConsumer(genes[pos..])
    ensures r == genes[..pos] + if width > 0 then SetFirstInput(genes[pos..], width) else genes[pos..]
  {
    r := genes;
    SetFirstInputAt(genes[pos..], width);
    if width > 0 && at < |genes| {
      r := genes[at := genes[at].(inputDim := width)];
      SetPastPrefix(genes, pos, at, r[at]);
    }
    SplitAt(r, pos);
  }

  lemma Prefixed<T>(a: seq<T>, b: seq<T>)
    ensures (a + b)[..|a|] == a && (a + b)[|a|..] == b
  {
  }

  /** Fitting the new gene between its neighbours, the next consumer to the new gene, and inserting it. */
  method InsertGene(start: seq<LayerGene>, position: nat, gene: LayerGene) returns (r: seq<LayerGene>)
    ensures r == Added(start, position, gene)
  {
    var genes := start;
    var pos := if position < |genes| then position else |genes|;
    var added := gene;
    if added.inputDim > 0 || added.outputDim > 0 {
      var prev := LastOutput(genes, pos);
      var at := FindConsumer(genes, pos);
      SetFirstInputAt(genes[pos..], 0);
      added := FitDimensions(gene, prev, if at < |genes| then genes[at].inputDim else 0);
      genes := FixNextInput(genes, pos, at, added.outputDim);
      Prefixed(start[..pos], if added.outputDim > 0 then SetFirstInput(start[pos..], added.outputDim) else start[pos..]);
    }
    r := genes[..pos] + ([added] + genes[pos..]);
  }

  class AddLayerMutation {
    const position: nat
    const gene: LayerGene

    constructor (position: nat, gene: LayerGene)
      ensures this.position == position && this.gene == gene
    {
      this.position := position;
      this.gene := gene;
    }

    method Apply(genome: ArchitectureGenome, hash: Hasher) returns (result: ArchitectureGenome)
      ensures fresh(result)
      ensures result.Contents() == Snapshot(genome.modelId, Added(genome.genes, position, gene),
                                            genome.generation + 1, hash(genome.Contents()))
    {
      result := genome.Clone();
      var genes := InsertGene(result.genes, position, gene);
      result.genes := genes;
      result.generation := result.generation + 1;
      result.parentHash := hash(genome.Contents());
    }
  }

  /** Up to the first gene that fixes the width anew, every input asked for is `width`. */
  predicate FeedsThrough(genes: seq<LayerGene>, width: int) {
    genes != [] ==>
      && (genes[0].inputDim > 0 ==> genes[0].inputDim == width)
      && (genes[0].outputDim <= 0 ==> FeedsThrough(genes[1..], width))
  }

  lemma {:induction false} RechainTail(genes: seq<LayerGene>, old_: int, width: int)
    requires ChainFrom(old_, genes) && width > 0
    ensures ChainFrom(width, genes) <==> FeedsThrough(genes, width)
    decreases |genes|
  {
    if genes == [] || genes[0].outputDim > 0 {
    } else {
      RechainTail(genes[1..], old_, width);
    }
  }

  lemma {:induction false} SetFirstInputSame(genes: seq<LayerGene>)
    ensures FirstInput(genes) > 0 ==> SetFirstInput(genes, FirstInput(genes)) == genes
    ensures FirstInput(genes) <= 0 ==> forall width: int :: SetFirstInput(genes, width) == genes
  {
    if genes == [] {
    } else if genes[0].inputDim > 0 {
      assert genes == [genes[0]] + genes[1..];
    } else {
      SetFirstInputSame(genes[1..]);
      assert genes == [genes[0]] + genes[1..];
    }
  }

  lemma {:induction false} NoInputFeedsThrough(genes: seq<LayerGene>, width: int)
    requires FirstInput(genes) <= 0
    ensures FeedsThrough(genes, width)
  {
    if genes == [] {
    } else {
      NoInputFeedsThrough(genes[1..], width);
    }
  }

  /** If a width already reaches the insertion point, all inputs it feeds ask for it. */
  lemma {:induction false} ReachedFeedsThrough(genes: seq<LayerGene>, width: int)
    requires ChainFrom(width, genes) && width > 0
    ensures FeedsThrough(genes, width)
    ensures FirstInput(genes) > 0 ==> FeedsThrough(genes, FirstInput(genes))
    decreases |genes|
  {
    RechainTail(genes, width, width);
    if genes == [] || genes[0].inputDim > 0 {
    } else if genes[0].outputDim <= 0 {
      ReachedFeedsThrough(genes[1..], width);
    } else {
      // the first gene fixes the width anew, so nothing before it asks for one
    }
  }

  // What telling the next consumer another width does to the tail behind the change.

  lemma {:induction false} ToldChains(genes: seq<LayerGene>, old_: int, width: int, asked: int, told: LayerGene)
    requires ChainFrom(old_, genes) && width > 0 && asked > 0 && NextConsumer(genes) < |genes|
    requires told.inputDim == asked
    requires told.outputDim == genes[NextConsumer(genes)].outputDim || told.outputDim == asked
    ensures var j := NextConsumer(genes);
      ChainFrom(width, genes[j := told]) <==>
        && Carry(width, genes[..j]) == asked
        && ((told.outputDim == genes[j].outputDim && told.outputDim > 0) || FeedsThrough(genes[j + 1..], asked))
    decreases |genes|
  {
    var j, rest := NextConsumer(genes), genes[1..];
    if genes[0].inputDim > 0 {
      assert genes[j := told][1..] == rest;
      RechainTail(rest, if genes[0].outputDim > 0 then genes[0].outputDim else old_, asked);
    } else {
      var fixes := genes[0].outputDim > 0;
      ToldChains(rest, if fixes then genes[0].outputDim else old_, if fixes then genes[0].outputDim else width, asked, told);
      assert genes[j := told][1..] == rest[j - 1 := told];
      assert genes[..j][1..] == rest[..j - 1];
      assert genes[j + 1..] == rest[j..];
    }
  }

  /** What a width must meet behind the change when the next consumer is told it: heads that divide it, nothing before the
      consumer that puts out another width, and, unless the consumer keeps an output of its own, nobody behind it who
      expects another width. A norm that follows takes the width as its output too. */
  predicate TakesWidth(after: seq<LayerGene>, width: int, normsFollow: bool) {
    var j := NextConsumer(after);
    j < |after| ==>
      && HeadsDivide(after[j].layerType, width, after[j].numHeads)
      && Carry(width, after[..j]) == width
      && ((after[j].outputDim > 0 && (normsFollow && after[j].layerType == NORM ==> after[j].outputDim == width))
          || FeedsThrough(after[j + 1..], width))
  }

  lemma HeadsOfUpdate(genes: seq<LayerGene>, j: nat, told: LayerGene)
    requires AllHeadsOk(genes) && j < |genes|
    ensures AllHeadsOk(genes[j := told]) <==> HeadsOk(told)
  {
    assert genes[j := told][j] == told;
  }

  lemma ToldValidIff(genes: seq<LayerGene>, old_: int, width: int, told: LayerGene, normsFollow: bool)
    requires ChainFrom(old_, genes) && width > 0 && AllHeadsOk(genes) && NextConsumer(genes) < |genes|
    requires var g := genes[NextConsumer(genes)];
      told == if normsFollow && g.layerType == NORM then g.(inputDim := width, outputDim := width) else g.(inputDim := width)
    ensures var r := genes[NextConsumer(genes) := told];
      ChainFrom(width, r) && AllHeadsOk(r) <==> TakesWidth(genes, width, normsFollow)
  {
    HeadsOfUpdate(genes, NextConsumer(genes), told);
    ToldChains(genes, old_, width, width, told);
  }

  lemma {:induction false} SetFirstInputSkipFree(genes: seq<LayerGene>, width: int)
    requires SkipFree(genes)
    ensures SkipFree(SetFirstInput(genes, width))
  {
    if genes == [] || genes[0].inputDim > 0 {
    } else {
      SetFirstInputSkipFree(genes[1..], width);
    }
  }

  lemma SetFirstInputValidIff(genes: seq<LayerGene>, old_: int, width: int)
    requires ChainFrom(old_, genes) && width > 0 && AllHeadsOk(genes)
    ensures ChainFrom(width, SetFirstInput(genes, width)) && AllHeadsOk(SetFirstInput(genes, width))
       <==> TakesWidth(genes, width, false)
  {
    var j := NextConsumer(genes);
    SetFirstInputAt(genes, width);
    if j < |genes| {
      ToldValidIff(genes, old_, width, genes[j].(inputDim := width), false);
    } else {
      NoInputFeedsThrough(genes, width);
      RechainTail(genes, old_, width);
    }
  }

  lemma GivenValidIff(before: seq<LayerGene>, given: LayerGene, rest: seq<LayerGene>)
    requires SkipFree(before) && SkipFree(rest) && given.skipTarget < 0 && ChainFrom(0, before) && AllHeadsOk(before)
    ensures var prev := Carry(0, before);
      Valid(before + ([given] + rest)) <==>
        && HeadsOk(given) && AllHeadsOk(rest)
        && (given.inputDim > 0 && prev > 0 ==> given.inputDim == prev)
        && ChainFrom(if given.outputDim > 0 then given.outputDim else prev, rest)
  {
    JoinedValidIff(before, [given] + rest);
    HeadsOfConcat([given], rest);
    ChainStep(Carry(0, before), [given] + rest);
    assert ([given] + rest)[1..] == rest;
  }

  /** Adding any gene that fixes a dimension: valid exactly when, with the dimensions it is given, its heads divide its
      input, the width before it is its input, and the genes behind it take its output. */
  lemma AddValidIff(genes: seq<LayerGene>, position: nat, gene: LayerGene)
    requires Valid(genes) && SkipFree(genes) && gene.skipTarget < 0
    requires gene.inputDim > 0 || gene.outputDim > 0
    ensures var pos := InsertAt(genes, position);
      var prev := Carry(0, genes[..pos]);
      var given := Fitted(gene, prev, FirstInput(genes[pos..]));
      Valid(Added(genes, position, gene)) <==>
        && HeadsOk(given)
        && (given.inputDim > 0 && prev > 0 ==> given.inputDim == prev)
        && (given.outputDim > 0 ==> TakesWidth(genes[pos..], given.outputDim, false))
  {
    var pos := InsertAt(genes, position);
    var before, after := genes[..pos], genes[pos..];
    var prev := Carry(0, before);
    var given := Fitted(gene, prev, FirstInput(after));
    var rest := if given.outputDim > 0 then SetFirstInput(after, given.outputDim) else after;
    SkipFreeValid(genes);
    TailKeeps(genes, pos);
    SplitAt(genes, pos);
    ChainConcat(0, before, after);
    SetFirstInputSkipFree(after, given.outputDim);
    GivenValidIff(before, given, rest);
    if given.outputDim > 0 {
      SetFirstInputValidIff(after, prev, given.outputDim);
    }
  }

  predicate Paired(g: LayerGene) {
    (g.inputDim == 0 && g.outputDim == 0) || (g.inputDim > 0 && g.outputDim > 0)
  }

  /** Every gene fixes both of its dimensions or neither. */
  predicate DimsPaired(genes: seq<LayerGene>) {
    forall i | 0 <= i < |genes| :: Paired(genes[i])
  }

  lemma {:induction false} PairedCarry(after: seq<LayerGene>, width: int)
    requires DimsPaired(after)
    ensures Carry(width, after[..NextConsumer(after)]) == width
  {
    if after == [] || after[0].inputDim > 0 {
    } else {
      PairedCarry(after[1..], width);
      assert after[..NextConsumer(after)][1..] == after[1..][..NextConsumer(after[1..])];
    }
  }

  /** In a paired tail only the heads of the next consumer can reject a width. */
  lemma PairedTakesWidth(after: seq<LayerGene>, width: int)
    requires DimsPaired(after)
    ensures var j := NextConsumer(after);
      TakesWidth(after, width, false) <==> (j < |after| ==> HeadsDivide(after[j].layerType, width, after[j].numHeads))
  {
    PairedCarry(after, width);
  }

  /** In a genome whose genes fix both dimensions or neither, for a gene that fixes only one: the width `w` it is given
      on both sides must be the width before it, and divide the heads of the gene and of the next consumer. */
  lemma AddOneDimensionIff(genes: seq<LayerGene>, position: nat, gene: LayerGene)
    requires Valid(genes) && SkipFree(genes) && DimsPaired(genes) && gene.skipTarget < 0
    requires (gene.inputDim > 0 && gene.outputDim == 0) || (gene.inputDim == 0 && gene.outputDim > 0)
    ensures var pos := InsertAt(genes, position);
      var after, prev, next := genes[pos..], Carry(0, genes[..pos]), FirstInput(genes[pos..]);
      var w := if gene.inputDim > 0 then (if prev > 0 then prev else gene.inputDim)
               else (if next > 0 then next else gene.outputDim);
      Valid(Added(genes, position, gene)) <==>
        && HeadsDivide(gene.layerType, w, gene.numHeads)
        && (prev > 0 ==> w == prev)
        && (NextConsumer(after) < |after| ==>
             HeadsDivide(after[NextConsumer(after)].layerType, w, after[NextConsumer(after)].numHeads))
  {
    var pos := InsertAt(genes, position);
    var after, prev := genes[pos..], Carry(0, genes[..pos]);
    AddValidIff(genes, position, gene);
    SetFirstInputAt(after, 0);
    var given := Fitted(gene, prev, FirstInput(after));
    PairedTakesWidth(after, given.outputDim);
  }

  /** A width the next consumer's heads do not divide: 8 in front of 16 heads. */
  lemma AddOneDimensionFails()
    ensures var genes := [Gene(ATTENTION, 16, 16, 16, "relu")];
      && Valid(genes) && SkipFree(genes) && DimsPaired(genes)
      && !Valid(Added(genes, 0, Gene(LINEAR, 8, 0, 1, "relu")))
  {
    var a := Gene(ATTENTION, 16, 16, 16, "relu");
    assert [a][..0] == [] && [a][0..] == [a] && [a][1..] == [];
    ChainStep(0, [a]);
    SkipFreeValid([a]);
    AddOneDimensionIff([a], 0, Gene(LINEAR, 8, 0, 1, "relu"));
  }

  /** Inserting a gene into a valid genome: only its own heads and the tail behind it can go wrong. */
  lemma InsertedValid(genes: seq<LayerGene>, pos: nat, gene: LayerGene)
    requires Valid(genes) && SkipFree(genes) && gene.skipTarget < 0 && pos <= |genes|
    ensures var before, after := genes[..pos], genes[pos..];
      Valid(before + ([gene] + after)) <==>
        && HeadsOk(gene)
        && (gene.inputDim > 0 && Carry(0, before) > 0 ==> gene.inputDim == Carry(0, before))
        && ChainFrom(if gene.outputDim > 0 then gene.outputDim else Carry(0, before), after)
  {
    var before, after := genes[..pos], genes[pos..];
    var result := before + ([gene] + after);
    SplitAt(genes, pos);
    SkipFreeValid(genes);
    ChainConcat(0, before, after);
    ChainParts(before, gene, after);
    forall i | 0 <= i < |result| && i != pos ensures HeadsOk(result[i]) && result[i].skipTarget < 0 {
      assert result[i] == if i < pos then genes[i] else genes[i - 1];
    }
    assert result[pos] == gene;
    SkipFreeValid(result);
  }

  /** Adding a gene with both dimensions set: the result is valid exactly when the heads divide the width
      the gene is given, and the genes after it that lived off no width agree on one. */
  lemma AddFullGeneIff(genes: seq<LayerGene>, position: nat, gene: LayerGene)
    requires Valid(genes) && SkipFree(genes) && gene.skipTarget < 0
    requires gene.inputDim > 0 && gene.outputDim > 0
    ensures var pos := InsertAt(genes, position);
      var prev, next := Carry(0, genes[..pos]), FirstInput(genes[pos..]);
      Valid(Added(genes, position, gene)) <==>
        && HeadsDivide(gene.layerType, if prev > 0 then prev else gene.inputDim, gene.numHeads)
        && (prev <= 0 && next > 0 ==> FeedsThrough(genes[pos..], next))
  {
    var pos := InsertAt(genes, position);
    var before, after := genes[..pos], genes[pos..];
    var prev, next := Carry(0, before), FirstInput(after);
    var fitted := Fitted(gene, prev, next);
    SplitAt(genes, pos);
    SkipFreeValid(genes);
    ChainConcat(0, before, after);
    SetFirstInputSame(after);
    assert Added(genes, position, gene) == before + ([fitted] + after);
    InsertedValid(genes, pos, fitted);
    RechainTail(after, prev, fitted.outputDim);
    if prev > 0 { ReachedFeedsThrough(after, prev); }
    if next <= 0 { NoInputFeedsThrough(after, fitted.outputDim); }
  }

  /** A gene without dimensions can go anywhere. */
  lemma AddDimensionlessKeepsValid(genes: seq<LayerGene>, position: nat, gene: LayerGene)
    requires Valid(genes) && SkipFree(genes) && gene.skipTarget < 0
    requires gene.inputDim <= 0 && gene.outputDim <= 0
    ensures Valid(Added(genes, position, gene))
  {
    var pos := InsertAt(genes, position);
    SplitAt(genes, pos);
    SkipFreeValid(genes);
    ChainConcat(0, genes[..pos], genes[pos..]);
    InsertedValid(genes, pos, gene);
  }

  lemma {:induction false} PairedFeedsThrough(genes: seq<LayerGene>)
    requires DimsPaired(genes) && FirstInput(genes) > 0
    ensures FeedsThrough(genes, FirstInput(genes))
  {
    if genes[0].inputDim <= 0 {
      PairedFeedsThrough(genes[1..]);
    }
  }

  /** In genomes whose genes fix both dimensions or neither, every non-attention gene can be added anywhere. */
  lemma AddKeepsValid(genes: seq<LayerGene>, position: nat, gene: LayerGene)
    requires Valid(genes) && SkipFree(genes) && DimsPaired(genes)
    requires gene.skipTarget < 0 && gene.inputDim > 0 && gene.outputDim > 0 && gene.layerType != ATTENTION
    ensures Valid(Added(genes, position, gene))
  {
    AddFullGeneIff(genes, position, gene);
    var after := genes[InsertAt(genes, position)..];
    if FirstInput(after) > 0 { PairedFeedsThrough(after); }
  }

  /** Without pairing it fails: the added gene's output runs into two consumers of different widths. */
  lemma AddUnpairedFails()
    ensures var genes := [Gene(LINEAR, 8, 0, 1, "relu"), Gene(LINEAR, 16, 16, 1, "relu")];
      Valid(genes) && SkipFree(genes) && !Valid(Added(genes, 0, Gene(LINEAR, 4, 4, 1, "relu")))
  {
    var a, b := Gene(LINEAR, 8, 0, 1, "relu"), Gene(LINEAR, 16, 16, 1, "relu");
    var genes := [a, b];
    assert genes[..0] == [] && genes[0..] == genes && genes[1..] == [b] && [b][1..] == [];
    ChainStep(0, genes);
    ChainStep(0, [b]);
    SkipFreeValid(genes);
    AddFullGeneIff(genes, 0, Gene(LINEAR, 4, 4, 1, "relu"));
    assert !FeedsThrough([b], 8);
  }

  // --- Removing ---

  /** The next consumer takes the width of the gap; a norm also passes it on. */
  function Reconciled(genes: seq<LayerGene>, width: int): (r: seq<LayerGene>)
    ensures |r| == |genes|
  {
    if genes == [] then []
    else if genes[0].inputDim > 0 then
      [if genes[0].layerType == NORM then genes[0].(inputDim := width, outputDim := width)
       else genes[0].(inputDim := width)] + genes[1..]
    else [genes[0]] + Reconciled(genes[1..], width)
  }

  function Removed(genes: seq<LayerGene>, position: int): seq<LayerGene> {
    if 0 <= position < |genes| then
      var before, after := genes[..position], genes[position + 1..];
      before + if Carry(0, before) > 0 then Reconciled(after, Carry(0, before)) else after
    else genes
  }

  lemma {:induction false} ReconciledAt(genes: seq<LayerGene>, width: int)
    ensures var j := NextConsumer(genes);
      Reconciled(genes, width) ==
        if j < |genes| then
          genes[j := if genes[j].layerType == NORM then genes[j].(inputDim := width, outputDim := width)
                     else genes[j].(inputDim := width)]
        else genes
  {
    if genes == [] || genes[0].inputDim > 0 {
    } else {
      ReconciledAt(genes[1..], width);
      assert genes == [genes[0]] + genes[1..];
    }
  }

  /** Popping the gene, and telling the next consumer the width in front of the gap. */
  method RemoveGene(start: seq<LayerGene>, position: nat) returns (genes: seq<LayerGene>)
    requires position < |start|
    ensures genes == Removed(start, position)
  {
    genes := start[..position] + start[position + 1..];
    Prefixed(start[..position], start[position + 1..]);
    var prev := LastOutput(genes, position);
    if prev > 0 {
      var at := FindConsumer(genes, position);
      ReconciledAt(genes[position..], prev);
      if at < |genes| {
        var g := genes[at].(inputDim := prev);
        if g.layerType == NORM {
          g := g.(outputDim := prev);
        }
        SetPastPrefix(genes, position, at, g);
        SplitAt(genes[at := g], position);
        genes := genes[at := g];
      }
    }
  }

  class RemoveLayerMutation {
    const position: int

    constructor (position: int)
      ensures this.position == position
    {
      this.position := position;
    }

    method Apply(genome: ArchitectureGenome, hash: Hasher) returns (result: ArchitectureGenome)
      ensures fresh(result)
      ensures result.Contents() == Snapshot(genome.modelId, Removed(genome.genes, position),
                                            genome.generation + 1, hash(genome.Contents()))
    {
      result := genome.Clone();
      if 0 <= position < |result.genes| {
        var genes := RemoveGene(result.genes, position);
        result.genes := genes;
      }
      result.generation := result.generation + 1;
      result.parentHash := hash(genome.Contents());
    }
  }

  lemma {:induction false} ForgetWidth(genes: seq<LayerGene>, width: int)
    requires ChainFrom(width, genes)
    ensures ChainFrom(0, genes)
    decreases |genes|
  {
    if genes == [] || genes[0].outputDim > 0 {
    } else {
      ForgetWidth(genes[1..], width);
    }
  }

  lemma {:induction false} ReconciledSkipFree(genes: seq<LayerGene>, width: int)
    requires SkipFree(genes)
    ensures SkipFree(Reconciled(genes, width))
  {
    if genes == [] || genes[0].inputDim > 0 {
    } else {
      ReconciledSkipFree(genes[1..], width);
    }
  }

  lemma {:induction false} CarryNonNegative(genes: seq<LayerGene>)
    ensures Carry(0, genes) >= 0
  {
    CarrySource(genes, 0);
  }

  lemma ReconciledValidIff(genes: seq<LayerGene>, old_: int, width: int)
    requires ChainFrom(old_, genes) && width > 0 && AllHeadsOk(genes)
    ensures ChainFrom(width, Reconciled(genes, width)) && AllHeadsOk(Reconciled(genes, width))
       <==> TakesWidth(genes, width, true)
  {
    var j := NextConsumer(genes);
    ReconciledAt(genes, width);
    if j < |genes| {
      ToldValidIff(genes, old_, width,
                   if genes[j].layerType == NORM then genes[j].(inputDim := width, outputDim := width)
                   else genes[j].(inputDim := width), true);
    } else {
      SetFirstInputAt(genes, width);
      NoInputFeedsThrough(genes, width);
      RechainTail(genes, old_, width);
    }
  }

  /** Removing from a valid genome: valid again exactly when something is left and the genes behind the gap take
      the width in front of it. */
  lemma RemoveValidIff(genes: seq<LayerGene>, position: nat)
    requires Valid(genes) && SkipFree(genes) && position < |genes|
    ensures var width := Carry(0, genes[..position]);
      Valid(Removed(genes, position)) <==>
        |genes| > 1 && (width > 0 ==> TakesWidth(genes[position + 1..], width, true))
  {
    var before, g, after := genes[..position], genes[position], genes[position + 1..];
    var width := Carry(0, before);
    SkipFreeValid(genes);
    TailKeeps(genes, position + 1);
    ThreeParts(genes, position);
    ChainParts(before, g, after);
    var through := if g.outputDim > 0 then g.outputDim else width;
    ReconciledSkipFree(after, width);
    JoinedValidIff(before, if width > 0 then Reconciled(after, width) else after);
    if width > 0 {
      ReconciledValidIff(after, through, width);
    } else {
      CarryNonNegative(before);
      ForgetWidth(after, through);
    }
  }

  /** In front of any other consumer than a norm or an attention layer, removal from a paired genome is always safe. */
  lemma RemoveKeepsValid(genes: seq<LayerGene>, position: nat)
    requires Valid(genes) && SkipFree(genes) && DimsPaired(genes) && position < |genes| && |genes| > 1
    requires var after := genes[position + 1..];
      NextConsumer(after) < |after| ==> after[NextConsumer(after)].layerType !in {NORM, ATTENTION}
    ensures Valid(Removed(genes, position))
  {
    var after := genes[position + 1..];
    RemoveValidIff(genes, position);
    PairedCarry(after, Carry(0, genes[..position]));
  }

  /** Without the layer that widened from 8 to 16, the 16 heads of the attention layer do not divide its input. */
  lemma RemoveInFrontOfAttentionFails()
    ensures var genes := [Gene(LINEAR, 8, 8, 1, "relu"), Gene(LINEAR, 8, 16, 1, "relu"), Gene(ATTENTION, 16, 16, 16, "relu")];
      Valid(genes) && SkipFree(genes) && DimsPaired(genes) && !Valid(Removed(genes, 1))
  {
    var a, b, c := Gene(LINEAR, 8, 8, 1, "relu"), Gene(LINEAR, 8, 16, 1, "relu"), Gene(ATTENTION, 16, 16, 16, "relu");
    var genes := [a, b, c];
    assert genes[..1] == [a] && genes[2..] == [c] && genes[1..] == [b, c] && [b, c][1..] == [c] && [c][1..] == [] && [a][1..] == [];
    ChainStep(0, genes);
    ChainStep(8, [b, c]);
    ChainStep(16, [c]);
    ChainStep(0, [a]);
    SkipFreeValid(genes);
    RemoveValidIff(genes, 1);
  }
}
